/**
  Converting a report's raw screenshots to PNG (src/postprocessors/png_converter.rs):
  PNG files first, then the report, then the raw files away, so that at every
  interruption point the report is wholly old or wholly new and names whole files.
*/
module PngConverter {
  import opened Wrappers
  import opened Evidence
  import opened ArtifactTransaction

  /** The registry's kind of a screenshot in PNG. */
  const SCREENSHOT_PNG := 1
  const MAX_RGBA_FILENAME_BYTES := 255
  const MAX_RGBA_DIMENSION := 8192
  const MAX_RGBA_BYTES := 128 * 1024 * 1024

  datatype Format = Rgba(width: nat, height: nat) | Png(size: nat) | Other

  datatype Entry = Entry(file: string, format: Format)

  /** The report's attachment list, or the bytes of any other file. */
  datatype Content = Doc(entries: seq<Entry>) | Blob(data: seq<nat>)

  type Files = map<string, Content>

  predicate EndsWith(s: string, suffix: string) {
    |suffix| <= |s| && s[|s| - |suffix|..] == suffix
  }

  /** A plain file name with a nonempty stem before `.rgba`. */
  predicate IsSafeRgbaName(name: string) {
    |name| <= MAX_RGBA_FILENAME_BYTES && '/' !in name && |name| > |".rgba"| && EndsWith(name, ".rgba")
  }

  function PngName(name: string): string
    requires EndsWith(name, ".rgba")
  {
    name[..|name| - |".rgba"|] + ".png"
  }

  function CheckedRgbaLength(width: nat, height: nat): Option<nat> {
    if width == 0 || height == 0 || width > MAX_RGBA_DIMENSION || height > MAX_RGBA_DIMENSION
       || width * height * 4 > MAX_RGBA_BYTES then None
    else Some(width * height * 4)
  }

  /** Stands for the encoder: some function of the pixels and their dimensions. */
  function EncodePng(data: seq<nat>, width: nat, height: nat): seq<nat> {
    [width, height] + data
  }

  /** What a conversion needs of an entry and the file it names. */
  predicate Convertible(f: Files, entry: Entry) {
    && entry.format.Rgba? && IsSafeRgbaName(entry.file)
    && CheckedRgbaLength(entry.format.width, entry.format.height).Some?
    && entry.file in f && f[entry.file].Blob?
    && |f[entry.file].data| == CheckedRgbaLength(entry.format.width, entry.format.height).value
  }

  function PngOf(f: Files, entry: Entry): seq<nat>
    requires Convertible(f, entry)
  {
    EncodePng(f[entry.file].data, entry.format.width, entry.format.height)
  }

  function Converted(f: Files, entry: Entry): Entry
    requires Convertible(f, entry)
  {
    Entry(PngName(entry.file), Png(|PngOf(f, entry)|))
  }

  /** Nothing stands in the way of converting the entry. */
  predicate Ready(f: Files, entry: Entry) {
    Convertible(f, entry) && PngName(entry.file) !in f
  }

  /** The entry `now` stands for `was`: the same file as at `f0`, or the complete PNG of it. */
  predicate Backed(f0: Files, f: Files, was: Entry, now: Entry) {
    if now == was then was.file in f0 ==> was.file in f && f[was.file] == f0[was.file]
    else Ready(f0, was) && now == Converted(f0, was) && now.file in f && f[now.file] == Blob(PngOf(f0, was))
  }

  predicate AllBacked(f0: Files, f: Files, json: string, was: seq<Entry>, now: seq<Entry>) {
    |now| == |was| && forall i :: 0 <= i < |was| && was[i].file != json ==> Backed(f0, f, was[i], now[i])
  }

  /** The report on disk is this one, and its entries name whole files. */
  predicate Shows(f0: Files, f: Files, json: string, was: seq<Entry>, now: seq<Entry>) {
    json in f && f[json] == Doc(now) && AllBacked(f0, f, json, was, now)
  }

  ghost predicate SafeThroughout(f0: Files, history: seq<Files>, from: nat, json: string, was: seq<Entry>, now: seq<Entry>) {
    forall k :: from <= k < |history| ==> Shows(f0, history[k], json, was, was) || Shows(f0, history[k], json, was, now)
  }

  /** Two entries share a raw file that nothing keeps from conversion. */
  ghost predicate SharesReady(f0: Files, was: seq<Entry>) {
    exists i, k :: 0 <= i < |was| && 0 <= k < |was| && i != k && Ready(f0, was[i]) && was[i].file == was[k].file
  }

  /** The content is the whole PNG of an entry that could be converted, under that PNG's name. */
  ghost predicate IsPngOf(f0: Files, was: seq<Entry>, p: string, content: Content) {
    exists k :: 0 <= k < |was| && Convertible(f0, was[k]) && p == PngName(was[k].file) && content == Blob(PngOf(f0, was[k]))
  }

  /** Every file there was not before is a temporary one or a whole PNG. */
  ghost predicate NewAreWhole(f0: Files, f: Files, was: seq<Entry>) {
    forall p :: p in f && p !in f0 ==> EndsWith(p, ".tmp") || IsPngOf(f0, was, p, f[p])
  }

  ghost predicate WholeThroughout(f0: Files, history: seq<Files>, from: nat, was: seq<Entry>) {
    forall k :: from <= k < |history| ==> NewAreWhole(f0, history[k], was)
  }

  /** Before the report is replaced, files are only added, each whole or temporary, and none that looks like raw pixels. */
  ghost predicate Grown(f0: Files, f: Files, was: seq<Entry>) {
    && (forall p :: p in f0 ==> p in f && f[p] == f0[p])
    && (forall p :: p in f && p !in f0 ==> !EndsWith(p, ".rgba"))
    && NewAreWhole(f0, f, was)
  }

  ghost predicate GrownThroughout(f0: Files, history: seq<Files>, from: nat, was: seq<Entry>) {
    forall k :: from <= k < |history| ==> Grown(f0, history[k], was)
  }

  lemma LastCharacter(s: string, suffix: string)
    requires suffix != ""
    ensures EndsWith(s, suffix) ==> s != "" && s[|s| - 1] == suffix[|suffix| - 1]
  {
    assert EndsWith(s, suffix) ==> s[|s| - |suffix|..][|suffix| - 1] == s[|s| - 1];
  }

  lemma PngIsNotRgba(name: string)
    requires EndsWith(name, ".rgba")
    ensures !EndsWith(PngName(name), ".rgba")
  {
    LastCharacter(PngName(name), ".rgba");
  }

  lemma TmpIsNotRgba(name: string)
    requires EndsWith(name, ".tmp")
    ensures !EndsWith(name, ".rgba")
  {
    LastCharacter(name, ".tmp");
    LastCharacter(name, ".rgba");
  }

  lemma GrownPut(f0: Files, f: Files, was: seq<Entry>, tmp: string, content: Content)
    requires Grown(f0, f, was) && tmp !in f && EndsWith(tmp, ".tmp")
    ensures Grown(f0, f[tmp := content], was)
  {
    TmpIsNotRgba(tmp);
  }

  lemma GrownPng(f0: Files, f: Files, was: seq<Entry>, entry: Entry)
    requires Grown(f0, f, was) && entry in was && Convertible(f0, entry) && PngName(entry.file) !in f
    ensures Grown(f0, f[PngName(entry.file) := Blob(PngOf(f0, entry))], was)
  {
    PngIsNotRgba(entry.file);
    var k :| 0 <= k < |was| && was[k] == entry;
    assert IsPngOf(f0, was, PngName(entry.file), Blob(PngOf(f0, was[k])));
  }

  /** Writing bytes piece by piece under a temporary name; no other file changes. */
  method WriteTemporary(disk: Disk<string, Content>, tmp: string, bytes: seq<nat>, ghost f0: Files, ghost was: seq<Entry>)
    returns (complete: bool, ghost written: seq<nat>)
    requires Grown(f0, disk.files, was) && tmp !in disk.files && EndsWith(tmp, ".tmp")
    modifies disk
    ensures old(disk.history) <= disk.history && GrownThroughout(f0, disk.history, |old(disk.history)|, was)
    ensures OnlyTemporary(old(disk.files), disk.history, |old(disk.history)|, tmp)
    ensures disk.files == old(disk.files)[tmp := Blob(written)]
    ensures complete ==> written == bytes
  {
    hide EndsWith, Grown;
    GrownPut(f0, disk.files, was, tmp, Blob([]));
    disk.Put(tmp, Blob([]));
    var count := 0;
    written := [];
    while count < |bytes|
      invariant count <= |bytes| && written == bytes[..count]
      invariant disk.files == old(disk.files)[tmp := Blob(written)]
      invariant old(disk.history) <= disk.history && GrownThroughout(f0, disk.history, |old(disk.history)|, was)
      invariant OnlyTemporary(old(disk.files), disk.history, |old(disk.history)|, tmp)
    {
      var interrupted: bool := *;
      if interrupted {
        return false, written;
      }
      var piece: int :| 1 <= piece <= |bytes| - count;
      count := count + piece;
      written := bytes[..count];
      GrownPut(f0, old(disk.files), was, tmp, Blob(written));
      disk.Put(tmp, Blob(bytes[..count]));
      assert disk.files == old(disk.files)[tmp := Blob(written)];
    }
    complete := true;
  }

  /** In every state the name was taken before, is absent, or holds the whole bytes. */
  ghost predicate NeverPartial(f: Files, history: seq<Files>, from: nat, path: string, bytes: seq<nat>) {
    forall k :: from <= k < |history| && path in history[k] ==>
      if path in f then history[k][path] == f[path] else history[k][path] == Blob(bytes)
  }

  /** Writing an entry's PNG beside its final name and renaming it there, exclusively; the name is never partial. */
  method PublishPng(disk: Disk<string, Content>, entry: Entry, bytes: seq<nat>, ghost f0: Files, ghost was: seq<Entry>)
    returns (ok: bool, stopped: bool)
    requires Grown(f0, disk.files, was) && entry in was && Convertible(f0, entry) && bytes == PngOf(f0, entry)
    modifies disk
    ensures old(disk.history) <= disk.history && GrownThroughout(f0, disk.history, |old(disk.history)|, was)
    ensures NeverPartial(old(disk.files), disk.history, |old(disk.history)|, PngName(entry.file), bytes)
    ensures Grown(f0, disk.files, was)
    ensures forall p :: p in old(disk.files) ==> p in disk.files && disk.files[p] == old(disk.files)[p]
    ensures var path := PngName(entry.file);
            && (ok ==> path !in old(disk.files) && path in disk.files && disk.files[path] == Blob(bytes))
            && (!ok && !stopped ==> path in old(disk.files))
            && forall p :: p in disk.files && p !in old(disk.files) ==> EndsWith(p, ".tmp") || (ok && p == path)
  {
    hide EndsWith, Grown;
    var path := PngName(entry.file);
    var tmp: string := *;
    if tmp in disk.files || !EndsWith(tmp, ".tmp") || tmp == path {
      return false, true;
    }
    ghost var before := disk.files;
    ghost var written;
    var complete;
    complete, written := WriteTemporary(disk, tmp, bytes, f0, was);
    NotYetThere(before, disk.history, |old(disk.history)|, tmp, path, bytes);
    var interrupted: bool := *;
    if !complete || interrupted || path in disk.files {
      stopped := !complete || interrupted;
      GrownPut(f0, before, was, tmp, Blob(written));
      var removed: bool := *;
      if removed {
        disk.Remove(tmp);
        assert disk.files == before;
      }
      return false, stopped;
    }
    GrownPng(f0, before, was, entry);
    disk.Rename(tmp, path);
    assert disk.files == before[path := Blob(bytes)];
    return true, false;
  }

  lemma NotYetThere(f: Files, history: seq<Files>, from: nat, tmp: string, path: string, bytes: seq<nat>)
    requires tmp != path && OnlyTemporary(f, history, from, tmp)
    ensures NeverPartial(f, history, from, path, bytes)
  {
    forall k | from <= k < |history| && path in history[k]
      ensures path in f && history[k][path] == f[path]
    {
      OthersKept(f, history[k], tmp, path);
    }
  }

  /** One attachment: the entry for its published PNG, or the entry unchanged; stopped by an error or timeout or not. */
  method ConvertOne(disk: Disk<string, Content>, entry: Entry, ghost f0: Files, ghost was: seq<Entry>) returns (now: Entry, stopped: bool)
    requires Grown(f0, disk.files, was) && entry in was
    modifies disk
    ensures old(disk.history) <= disk.history && GrownThroughout(f0, disk.history, |old(disk.history)|, was)
    ensures Grown(f0, disk.files, was)
    ensures Convertible(f0, entry) ==>
              NeverPartial(old(disk.files), disk.history, |old(disk.history)|, PngName(entry.file), PngOf(f0, entry))
    ensures forall p :: p in old(disk.files) ==> p in disk.files && disk.files[p] == old(disk.files)[p]
    ensures Backed(f0, disk.files, entry, now)
    ensures now != entry ==> now.file !in old(disk.files)
    ensures !stopped && now == entry ==> !Ready(old(disk.files), entry)
    ensures forall p :: p in disk.files && p !in old(disk.files) ==> EndsWith(p, ".tmp") || (now != entry && p == now.file)
  {
    var timedOut: bool := *;
    if timedOut || !Convertible(disk.files, entry) {
      return entry, timedOut;
    }
    var encoded: bool := *;
    if !encoded {
      return entry, true;
    }
    assert Convertible(f0, entry) && PngOf(f0, entry) == PngOf(disk.files, entry);
    var png := PngOf(disk.files, entry);
    var ok;
    ok, stopped := PublishPng(disk, entry, png, f0, was);
    if !ok {
      return entry, stopped;
    }
    return Entry(PngName(entry.file), Png(|png|)), false;
  }

  /** Some entry before `n` that nothing kept from conversion names the file. */
  ghost predicate Taken(f0: Files, was: seq<Entry>, n: nat, file: string)
    requires n <= |was|
  {
    exists j :: 0 <= j < n && Ready(f0, was[j]) && was[j].file == file
  }

  /** The first ready entry of each raw file is converted, and no other entry. */
  ghost predicate ConvertsFirst(f0: Files, was: seq<Entry>, now: seq<Entry>, n: nat)
    requires n <= |was| && n <= |now|
  {
    forall i :: 0 <= i < n ==> (now[i] != was[i] <==> Ready(f0, was[i]) && !Taken(f0, was, i, was[i].file))
  }

  /** The PNG names in use are those of the ready files met so far. */
  ghost predicate NamesInUse(f0: Files, f: Files, was: seq<Entry>, n: nat)
    requires n <= |was|
  {
    forall k :: 0 <= k < |was| && Ready(f0, was[k]) ==> (PngName(was[k].file) in f <==> Taken(f0, was, n, was[k].file))
  }

  lemma PngNamesDiffer(a: string, b: string)
    requires EndsWith(a, ".rgba") && EndsWith(b, ".rgba")
    ensures PngName(a) == PngName(b) ==> a == b
    ensures !EndsWith(PngName(a), ".tmp")
  {
    LastCharacter(PngName(a), ".tmp");
    if PngName(a) == PngName(b) {
      var x, y := a[..|a| - 5], b[..|b| - 5];
      assert PngName(a)[..|x|] == x && PngName(b)[..|y|] == y && |PngName(a)| == |x| + 4;
      assert a == x + ".rgba" && b == y + ".rgba";
    }
  }

  lemma ReadyStays(f0: Files, before: Files, was: seq<Entry>, i: nat)
    requires Grown(f0, before, was) && i < |was| && NamesInUse(f0, before, was, i)
    ensures Ready(before, was[i]) <==> Ready(f0, was[i]) && !Taken(f0, was, i, was[i].file)
  {
    assert was[i].file in before && EndsWith(was[i].file, ".rgba") ==> was[i].file in f0;
  }

  lemma NamesNext(f0: Files, before: Files, f: Files, was: seq<Entry>, i: nat, now: Entry)
    requires Grown(f0, before, was) && i < |was| && NamesInUse(f0, before, was, i)
    requires forall p :: p in before ==> p in f
    requires forall p :: p in f && p !in before ==> EndsWith(p, ".tmp") || (now != was[i] && p == now.file)
    requires now != was[i] <==> Ready(before, was[i])
    requires now != was[i] ==> now.file == PngName(was[i].file) && now.file in f
    ensures NamesInUse(f0, f, was, i + 1)
  {
    ReadyStays(f0, before, was, i);
    forall k | 0 <= k < |was| && Ready(f0, was[k])
      ensures PngName(was[k].file) in f <==> Taken(f0, was, i + 1, was[k].file)
    {
      if Ready(f0, was[i]) {
        PngNamesDiffer(was[k].file, was[i].file);
      } else {
        PngNamesDiffer(was[k].file, was[k].file);
      }
    }
  }

  /** The PNG of a converted entry. */
  ghost predicate IsNewPng(was: seq<Entry>, now: seq<Entry>, p: string)
    requires |now| <= |was|
  {
    exists i :: 0 <= i < |now| && now[i] != was[i] && now[i].file == p
  }

  /** The raw file of a converted entry. */
  ghost predicate IsOldRaw(was: seq<Entry>, now: seq<Entry>, p: string)
    requires |now| <= |was|
  {
    exists i :: 0 <= i < |now| && now[i] != was[i] && was[i].file == p
  }

  function SetOf(paths: seq<string>): set<string> {
    set p | p in paths
  }

  /** The names registered in the transaction, if there is one. */
  ghost function Registry(tx: TransactionCore?): set<string>
    reads tx
  {
    if tx == null then {} else tx.artifacts.Keys
  }

  /** The names with those of the new PNGs added. */
  ghost predicate AddsPngs(names0: set<string>, names: set<string>, was: seq<Entry>, now: seq<Entry>)
    requires |now| <= |was|
  {
    forall p :: p in names <==> p in names0 || IsNewPng(was, now, p)
  }

  /** The names with the new PNGs added and the raw files they stand for dropped. */
  ghost predicate Follows(names0: set<string>, names: set<string>, was: seq<Entry>, now: seq<Entry>)
    requires |now| <= |was|
  {
    forall p :: p in names <==> (p in names0 || IsNewPng(was, now, p)) && !IsOldRaw(was, now, p)
  }

  lemma AddsNext(names0: set<string>, names: set<string>, more: set<string>, was: seq<Entry>, now: seq<Entry>, next: Entry)
    requires |now| < |was| && AddsPngs(names0, names, was, now)
    requires more == names + if next == was[|now|] then {} else {next.file}
    ensures AddsPngs(names0, more, was, now + [next])
  {
    var longer := now + [next];
    forall p
      ensures IsNewPng(was, longer, p) <==> IsNewPng(was, now, p) || (next != was[|now|] && next.file == p)
    {
      if IsNewPng(was, now, p) {
        var i :| 0 <= i < |now| && now[i] != was[i] && now[i].file == p;
        assert longer[i] == now[i];
      }
      if next != was[|now|] && next.file == p {
        assert longer[|now|] == next;
      }
    }
  }

  lemma BackedNext(f0: Files, before: Files, f: Files, was: seq<Entry>, now: seq<Entry>, next: Entry)
    requires |now| < |was| && Backed(f0, f, was[|now|], next)
    requires forall k :: 0 <= k < |now| ==> Backed(f0, before, was[k], now[k])
    requires forall p :: p in before ==> p in f && f[p] == before[p]
    ensures forall k :: 0 <= k <= |now| ==> Backed(f0, f, was[k], (now + [next])[k])
  {
    forall k | 0 <= k <= |now|
      ensures Backed(f0, f, was[k], (now + [next])[k])
    {
      assert k < |now| ==> Backed(f0, before, was[k], now[k]);
    }
  }

  lemma ConvertsNext(f0: Files, before: Files, f: Files, was: seq<Entry>, now: seq<Entry>, next: Entry)
    requires Grown(f0, before, was) && |now| < |was| && NamesInUse(f0, before, was, |now|) && ConvertsFirst(f0, was, now, |now|)
    requires forall p :: p in before ==> p in f && f[p] == before[p]
    requires forall p :: p in f && p !in before ==> EndsWith(p, ".tmp") || (next != was[|now|] && p == next.file)
    requires Backed(f0, f, was[|now|], next) && (next != was[|now|] ==> next.file !in before)
    requires next == was[|now|] ==> !Ready(before, was[|now|])
    ensures NamesInUse(f0, f, was, |now| + 1) && ConvertsFirst(f0, was, now + [next], |now| + 1)
  {
    ReadyStays(f0, before, was, |now|);
    NamesNext(f0, before, f, was, |now|, next);
  }

  /** Handing a converted entry on: registered in the transaction first, then added to the result's paths. */
  method HandOn(entry: Entry, now: Entry, paths: seq<string>, tx: TransactionCore?) returns (more: seq<string>, refused: bool)
    modifies tx
    ensures refused ==> now != entry && tx != null && more == paths && Registry(tx) == old(Registry(tx))
    ensures !refused ==> SetOf(more) == SetOf(paths) + if now == entry then {} else {now.file}
    ensures !refused && tx != null ==> Registry(tx) == old(Registry(tx)) + if now == entry then {} else {now.file}
  {
    more, refused := paths, false;
    if now == entry {
      return;
    }
    if tx != null {
      var readable: bool := *;
      var registered := tx.RegisterFile(now.file, SCREENSHOT_PNG, readable);
      if !registered {
        return paths, true;
      }
    }
    more := if now.file in paths then paths else paths + [now.file];
  }

  /** One attachment of the list; refused if it was converted but could not be registered. */
  method ConvertNext(disk: Disk<string, Content>, was: seq<Entry>, now: seq<Entry>, paths: seq<string>, tx: TransactionCore?,
                     ghost f0: Files, ghost paths0: set<string>, ghost names0: set<string>)
    returns (next: seq<Entry>, more: seq<string>, halted: bool, refused: bool)
    requires Grown(f0, disk.files, was) && |now| < |was| && AddsPngs(paths0, SetOf(paths), was, now)
    requires tx != null ==> AddsPngs(names0, Registry(tx), was, now)
    requires forall k :: 0 <= k < |now| ==> Backed(f0, disk.files, was[k], now[k])
    modifies disk, tx
    ensures old(disk.history) <= disk.history && GrownThroughout(f0, disk.history, |old(disk.history)|, was)
    ensures Grown(f0, disk.files, was) && now <= next && |next| == |now| + 1
    ensures forall k :: 0 <= k < |next| ==> Backed(f0, disk.files, was[k], next[k])
    ensures refused ==> more == paths && tx != null
    ensures !refused ==> AddsPngs(paths0, SetOf(more), was, next) && (tx != null ==> AddsPngs(names0, Registry(tx), was, next))
    ensures !halted && NamesInUse(f0, old(disk.files), was, |now|) && ConvertsFirst(f0, was, now, |now|) ==>
              NamesInUse(f0, disk.files, was, |next|) && ConvertsFirst(f0, was, next, |next|)
  {
    ghost var before := disk.files;
    ghost var listed, registered := SetOf(paths), Registry(tx);
    var entry;
    entry, halted := ConvertOne(disk, was[|now|], f0, was);
    next := now + [entry];
    BackedNext(f0, before, disk.files, was, now, entry);
    if !halted && NamesInUse(f0, before, was, |now|) && ConvertsFirst(f0, was, now, |now|) {
      ConvertsNext(f0, before, disk.files, was, now, entry);
    }
    more, refused := HandOn(was[|now|], entry, paths, tx);
    if !refused {
      AddsNext(paths0, listed, SetOf(more), was, now, entry);
      if tx != null {
        AddsNext(names0, registered, Registry(tx), was, now, entry);
      }
    }
  }

  /**
    Every attachment in turn. An interruption is only heeded before the first one is converted; a PNG that
    cannot be registered ends the pass with the report untouched.
  */
  method ConvertAll(disk: Disk<string, Content>, was: seq<Entry>, paths0: seq<string>, tx: TransactionCore?, ghost f0: Files)
    returns (stopped: bool, now: seq<Entry>, paths: seq<string>, complete: bool)
    requires disk.files == f0
    modifies disk, tx
    ensures old(disk.history) <= disk.history && GrownThroughout(f0, disk.history, |old(disk.history)|, was)
    ensures Grown(f0, disk.files, was)
    ensures |now| <= |was| && forall i :: 0 <= i < |now| ==> Backed(f0, disk.files, was[i], now[i])
    ensures AddsPngs(SetOf(paths0), SetOf(paths), was, now)
    ensures !stopped ==> |now| == |was| && (tx != null ==> AddsPngs(old(Registry(tx)), Registry(tx), was, now))
    ensures !stopped && complete ==> ConvertsFirst(f0, was, now, |was|)
  {
    now, paths, stopped, complete := [], paths0, false, true;
    ghost var names0 := Registry(tx);
    for i := 0 to |was|
      invariant |now| == i && forall k :: 0 <= k < i ==> Backed(f0, disk.files, was[k], now[k])
      invariant AddsPngs(SetOf(paths0), SetOf(paths), was, now)
      invariant tx != null ==> AddsPngs(names0, Registry(tx), was, now)
      invariant complete ==> NamesInUse(f0, disk.files, was, i) && ConvertsFirst(f0, was, now, i)
      invariant old(disk.history) <= disk.history && GrownThroughout(f0, disk.history, |old(disk.history)|, was)
      invariant Grown(f0, disk.files, was)
    {
      var interrupted: bool := *;
      if interrupted && now == was[..i] {
        return true, now, paths, false;
      }
      ghost var done := now;
      var halted, refused;
      var next;
      next, paths, halted, refused := ConvertNext(disk, was, now, paths, tx, f0, SetOf(paths0), names0);
      if refused {
        assert forall k :: 0 <= k < i ==> now[k] == next[k];
        return true, now, paths, false;
      }
      now := next;
      complete := complete && !halted;
    }
  }

  lemma GrownShowsOld(f0: Files, f: Files, json: string, was: seq<Entry>)
    requires Grown(f0, f, was) && json in f0 && f0[json] == Doc(was)
    ensures Shows(f0, f, json, was, was)
  {
  }

  lemma ReplacedShowsNew(f0: Files, f: Files, json: string, was: seq<Entry>, now: seq<Entry>)
    requires Grown(f0, f, was) && json in f0 && f0[json] == Doc(was)
    requires |now| == |was| && forall i :: 0 <= i < |was| ==> Backed(f0, f, was[i], now[i])
    ensures Shows(f0, f[json := Doc(now)], json, was, now) && NewAreWhole(f0, f[json := Doc(now)], was)
  {
    forall i | 0 <= i < |was| && was[i].file != json
      ensures Backed(f0, f[json := Doc(now)], was[i], now[i])
    {
      assert Backed(f0, f, was[i], now[i]);
    }
  }

  /** Unless a ready raw file is shared, a converted entry's raw file is named by no entry of the new report. */
  lemma RemovalShowsNew(f0: Files, f: Files, json: string, was: seq<Entry>, now: seq<Entry>, i: nat)
    requires !SharesReady(f0, was) && Shows(f0, f, json, was, now) && i < |was| && now[i] != was[i] && was[i].file != json
    ensures Shows(f0, f - {was[i].file}, json, was, now)
  {
    var raw := was[i].file;
    assert Backed(f0, f, was[i], now[i]);
    forall k | 0 <= k < |was| && was[k].file != json
      ensures Backed(f0, f - {raw}, was[k], now[k])
    {
      assert Backed(f0, f, was[k], now[k]);
      if now[k] == was[k] {
        assert k != i ==> was[k].file != raw;
      } else {
        PngIsNotRgba(was[k].file);
      }
    }
  }

  function Without(paths: seq<string>, gone: string): (r: seq<string>)
    ensures forall p :: p in r <==> p in paths && p != gone
  {
    if paths == [] then [] else (if paths[0] == gone then [] else [paths[0]]) + Without(paths[1..], gone)
  }

  /** Dropping a removed raw file: from the transaction first, then from the result's paths. */
  method Forget(raw: string, paths: seq<string>, tx: TransactionCore?) returns (left: seq<string>, refused: bool)
    modifies tx
    ensures refused ==> tx != null && left == paths && Registry(tx) == old(Registry(tx))
    ensures !refused ==> SetOf(left) == SetOf(paths) - {raw} && Registry(tx) == old(Registry(tx)) - {raw}
  {
    if tx != null {
      var done := tx.UnregisterFile(raw);
      if !done {
        return paths, true;
      }
    }
    return Without(paths, raw), false;
  }

  /** The state of a removal pass: what is gone, and what has been dropped from the names. */
  ghost predicate Removing(f0: Files, before: Files, f: Files, json: string, was: seq<Entry>, now: seq<Entry>, removed: set<string>)
    requires |now| == |was|
  {
    && f == before - removed && json !in removed
    && NewAreWhole(f0, f, was)
    && (!SharesReady(f0, was) ==> Shows(f0, f, json, was, now))
    && forall r :: r in removed ==> IsOldRaw(was, now, r)
  }

  lemma RemovingOneMore(f0: Files, before: Files, f: Files, json: string, was: seq<Entry>, now: seq<Entry>, removed: set<string>, i: nat)
    requires |now| == |was| && Removing(f0, before, f, json, was, now, removed) && i < |was| && now[i] != was[i] && was[i].file != json
    ensures Removing(f0, before, f - {was[i].file}, json, was, now, removed + {was[i].file})
  {
    if !SharesReady(f0, was) {
      RemovalShowsNew(f0, f, json, was, now, i);
    }
    assert f - {was[i].file} == before - (removed + {was[i].file});
    assert IsOldRaw(was, now, was[i].file);
  }

  lemma ThroughOneMore(f0: Files, history: seq<Files>, from: nat, f: Files, json: string, was: seq<Entry>, now: seq<Entry>,
                       before: Files, removed: set<string>)
    requires |now| == |was| && Removing(f0, before, f, json, was, now, removed) && from <= |history|
    requires WholeThroughout(f0, history, from, was)
    requires !SharesReady(f0, was) ==> SafeThroughout(f0, history, from, json, was, now)
    ensures WholeThroughout(f0, history + [f], from, was)
    ensures !SharesReady(f0, was) ==> SafeThroughout(f0, history + [f], from, json, was, now)
  {
  }

  /** One raw file: taken away and dropped from the names, with what was dropped refused or not. */
  method RemoveOne(disk: Disk<string, Content>, json: string, was: seq<Entry>, now: seq<Entry>, i: nat, paths: seq<string>,
                   tx: TransactionCore?, removed: set<string>, ghost f0: Files, ghost before: Files, ghost from: nat)
    returns (left: seq<string>, refused: bool)
    requires |now| == |was| && i < |was| && now[i] != was[i] && was[i].file != json && from <= |disk.history|
    requires Removing(f0, before, disk.files, json, was, now, removed) && WholeThroughout(f0, disk.history, from, was)
    requires !SharesReady(f0, was) ==> SafeThroughout(f0, disk.history, from, json, was, now)
    modifies disk, tx
    ensures old(disk.history) <= disk.history && WholeThroughout(f0, disk.history, from, was)
    ensures !SharesReady(f0, was) ==> SafeThroughout(f0, disk.history, from, json, was, now)
    ensures Removing(f0, before, disk.files, json, was, now, removed + {was[i].file})
    ensures refused ==> tx != null && left == paths && Registry(tx) == old(Registry(tx))
    ensures !refused ==> SetOf(left) == SetOf(paths) - {was[i].file} && Registry(tx) == old(Registry(tx)) - {was[i].file}
  {
    hide Removing, WholeThroughout, SafeThroughout, SharesReady;
    ghost var f, history := disk.files, disk.history;
    RemovingOneMore(f0, before, f, json, was, now, removed, i);
    ThroughOneMore(f0, history, from, f - {was[i].file}, json, was, now, before, removed + {was[i].file});
    disk.Remove(was[i].file);
    left, refused := Forget(was[i].file, paths, tx);
  }

  /**
    Taking the raw files of converted entries away; each may be left if it changed or cannot be removed. A raw
    file the transaction will not drop ends the pass, and its path stays listed although the file is gone.
  */
  method RemoveRaw(disk: Disk<string, Content>, json: string, was: seq<Entry>, now: seq<Entry>, paths0: seq<string>, tx: TransactionCore?, ghost f0: Files)
    returns (removed: set<string>, paths: seq<string>, complete: bool, stale: Option<string>)
    requires |now| == |was| && json in f0 && f0[json] == Doc(was) && Shows(f0, disk.files, json, was, now) && NewAreWhole(f0, disk.files, was)
    modifies disk, tx
    ensures old(disk.history) <= disk.history && WholeThroughout(f0, disk.history, |old(disk.history)|, was)
    ensures !SharesReady(f0, was) ==> SafeThroughout(f0, disk.history, |old(disk.history)|, json, was, now)
    ensures Removing(f0, old(disk.files), disk.files, json, was, now, removed)
    ensures SetOf(paths) == SetOf(paths0) - Dropped(removed, stale)
    ensures stale.Some? ==> tx != null && stale.value in removed && !complete
    ensures tx != null && stale.None? ==> Registry(tx) == old(Registry(tx)) - removed
    ensures complete ==> forall i :: 0 <= i < |was| && now[i] != was[i] && was[i].file != json ==> was[i].file in removed
  {
    removed, paths, complete, stale := {}, paths0, true, None;
    ghost var before, from, names0 := disk.files, |disk.history|, Registry(tx);
    assert disk.files == before - removed;
    assert Dropped(removed, None) == removed;
    assert WholeThroughout(f0, disk.history, from, was) && SafeThroughout(f0, disk.history, from, json, was, now);
    hide Dropped, Shows, NewAreWhole, SharesReady, Removing, SetOf, Registry, AllTaken, WholeThroughout, SafeThroughout;
    AllTakenStarts(json, was, now);
    for i := 0 to |was|
      invariant old(disk.history) <= disk.history && WholeThroughout(f0, disk.history, from, was)
      invariant !SharesReady(f0, was) ==> SafeThroughout(f0, disk.history, from, json, was, now)
      invariant Removing(f0, before, disk.files, json, was, now, removed)
      invariant SetOf(paths) == SetOf(paths0) - removed && Dropped(removed, None) == removed && (tx != null ==> Registry(tx) == names0 - removed)
      invariant complete ==> AllTaken(json, was, now, i, removed)
    {
      ghost var fewer := removed;
      var unchangedAndRemovable: bool := *;
      if now[i] != was[i] && was[i].file != json && unchangedAndRemovable {
        var known := was[i].file in removed;
        var refused;
        DropMore(SetOf(paths0), removed, was[i].file);
        DropMore(names0, removed, was[i].file);
        paths, refused := RemoveOne(disk, json, was, now, i, paths, tx, removed, f0, before, from);
        removed := removed + {was[i].file};
        if refused {
          return removed, paths, false, if known then None else Some(was[i].file);
        }
      }
      AllTakenNext(json, was, now, i, fewer, removed);
      complete := complete && (now[i] == was[i] || was[i].file == json || was[i].file in removed);
    }
    AllTakenMeans(json, was, now, removed);
  }

  /** The removed files that were also dropped from the names: all but the one, if any, that was refused. */
  function Dropped(removed: set<string>, stale: Option<string>): set<string> {
    removed - if stale.Some? then {stale.value} else {}
  }

  /** The raw file of each converted entry before `n` has been removed. */
  ghost predicate AllTaken(json: string, was: seq<Entry>, now: seq<Entry>, n: nat, removed: set<string>)
    requires n <= |was| == |now|
  {
    forall k :: 0 <= k < n && now[k] != was[k] && was[k].file != json ==> was[k].file in removed
  }

  lemma AllTakenStarts(json: string, was: seq<Entry>, now: seq<Entry>)
    requires |now| == |was|
    ensures AllTaken(json, was, now, 0, {})
  {
  }

  lemma AllTakenNext(json: string, was: seq<Entry>, now: seq<Entry>, i: nat, fewer: set<string>, removed: set<string>)
    requires i < |was| == |now| && fewer <= removed
    ensures AllTaken(json, was, now, i, fewer) && (now[i] == was[i] || was[i].file == json || was[i].file in removed) ==>
            AllTaken(json, was, now, i + 1, removed)
  {
  }

  lemma AllTakenMeans(json: string, was: seq<Entry>, now: seq<Entry>, removed: set<string>)
    requires |now| == |was|
    ensures AllTaken(json, was, now, |was|, removed) ==>
              forall i :: 0 <= i < |was| && now[i] != was[i] && was[i].file != json ==> was[i].file in removed
  {
  }

  lemma DropMore(names: set<string>, removed: set<string>, gone: string)
    ensures (names - removed) - {gone} == names - (removed + {gone})
    ensures Dropped(removed + {gone}, None) == removed + {gone}
    ensures gone !in removed ==> Dropped(removed + {gone}, Some(gone)) == removed
    ensures gone in removed ==> removed + {gone} == removed
  {
  }

  lemma GrownIsSafe(f0: Files, history: seq<Files>, from: nat, json: string, was: seq<Entry>, now: seq<Entry>)
    requires GrownThroughout(f0, history, from, was) && json in f0 && f0[json] == Doc(was)
    ensures SafeThroughout(f0, history, from, json, was, now) && WholeThroughout(f0, history, from, was)
  {
    forall k | from <= k < |history|
      ensures Shows(f0, history[k], json, was, was) && NewAreWhole(f0, history[k], was)
    {
      GrownShowsOld(f0, history[k], json, was);
    }
  }

  /** Writing the new report in pieces beside the old one and renaming it over it. */
  method ReplaceReport(disk: Disk<string, Content>, json: string, was: seq<Entry>, now: seq<Entry>, ghost f0: Files) returns (ok: bool)
    requires Grown(f0, disk.files, was) && json in f0 && f0[json] == Doc(was)
    requires |now| == |was| && forall i :: 0 <= i < |was| ==> Backed(f0, disk.files, was[i], now[i])
    modifies disk
    ensures old(disk.history) <= disk.history && SafeThroughout(f0, disk.history, |old(disk.history)|, json, was, now)
    ensures WholeThroughout(f0, disk.history, |old(disk.history)|, was)
    ensures ok ==> Shows(f0, disk.files, json, was, now) && NewAreWhole(f0, disk.files, was) && disk.files == old(disk.files)[json := Doc(now)]
    ensures !ok ==> Shows(f0, disk.files, json, was, was)
    ensures forall p :: p in old(disk.files) ==> p in disk.files
  {
    hide Shows, Grown, NewAreWhole;
    ghost var before := disk.files;
    GrownShowsOld(f0, before, json, was);
    var tmp: string := *;
    if tmp in disk.files || !EndsWith(tmp, ".tmp") {
      return false;
    }
    ReplacedShowsNew(f0, before, json, was, now);
    var bytes: seq<nat> := *;
    var complete;
    ghost var written;
    complete, written := WriteTemporary(disk, tmp, bytes, f0, was);
    GrownIsSafe(f0, disk.history, |old(disk.history)|, json, was, now);
    var interrupted: bool := *;
    if !complete || interrupted {
      GrownPut(f0, before, was, tmp, Blob(written));
      GrownShowsOld(f0, disk.files, json, was);
      return false;
    }
    GrownPut(f0, before, was, tmp, Doc(now));
    GrownShowsOld(f0, before[tmp := Doc(now)], json, was);
    GrownAreWhole(f0, before[tmp := Doc(now)], was);
    disk.Put(tmp, Doc(now));
    assert disk.files == before[tmp := Doc(now)];
    var renamed: bool := *;
    if !renamed {
      return false;
    }
    disk.Rename(tmp, json);
    assert disk.files == before[json := Doc(now)];
    return true;
  }

  lemma GrownAreWhole(f0: Files, f: Files, was: seq<Entry>)
    requires Grown(f0, f, was)
    ensures NewAreWhole(f0, f, was)
  {
  }

  /** Every entry names a file other than the report itself. */
  predicate AllNamed(f: Files, json: string, entries: seq<Entry>) {
    forall i :: 0 <= i < |entries| ==> entries[i].file in f && entries[i].file != json
  }

  /** What a complete run leaves: the new report, the first ready entry of each raw file converted, those files gone. */
  ghost predicate Completes(f0: Files, f: Files, json: string, was: seq<Entry>, now: seq<Entry>) {
    && json in f && f[json] == Doc(now) && |now| == |was|
    && ConvertsFirst(f0, was, now, |was|)
    && (forall i :: 0 <= i < |was| && now[i] != was[i] ==> Backed(f0, f, was[i], now[i]) && was[i].file !in f)
    && (forall p :: p in f0 && p !in f ==> IsOldRaw(was, now, p))
    && (AllNamed(f0, json, was) ==> ((forall k :: 0 <= k < |now| ==> now[k].file in f) <==> !SharesReady(f0, was)))
  }

  /**
    The whole conversion. In every state it passes through, each file there was not before is temporary or a
    whole PNG; and unless a raw file that could be converted is listed twice, the report is wholly the old one
    or the new one and each of its entries names a whole file: what it named before, or the complete PNG of it.
    After a complete run of any report, every entry names a file exactly when no such raw file was listed twice,
    and the result's paths and the transaction's registry have followed. The paths never name a missing file,
    except the one raw file, if any, that the transaction would not drop.
  */
  method Process(disk: Disk<string, Content>, json: string, paths0: seq<string>, tx: TransactionCore?)
    returns (complete: bool, paths: seq<string>, stale: Option<string>, ghost was: seq<Entry>, ghost now: seq<Entry>)
    modifies disk, tx
    ensures old(disk.history) <= disk.history && |now| == |was|
    ensures json in old(disk.files) && old(disk.files)[json].Doc? ==>
              && was == old(disk.files)[json].entries
              && WholeThroughout(old(disk.files), disk.history, |old(disk.history)|, was)
              && (!SharesReady(old(disk.files), was) ==>
                    SafeThroughout(old(disk.files), disk.history, |old(disk.history)|, json, was, now))
    ensures json !in old(disk.files) || !old(disk.files)[json].Doc? ==>
              disk.files == old(disk.files) && disk.history == old(disk.history) && !complete
    ensures complete ==> Completes(old(disk.files), disk.files, json, was, now)
    ensures (forall p :: p in paths0 ==> p in old(disk.files)) ==> (forall p :: p in paths && Some(p) != stale ==> p in disk.files)
    ensures stale.Some? ==> tx != null && !complete && stale.value !in disk.files
    ensures complete ==> Follows(SetOf(paths0), SetOf(paths), was, now)
    ensures complete && tx != null ==> Follows(old(Registry(tx)), Registry(tx), was, now)
  {
    was, now, paths, stale := [], [], paths0, None;
    if json !in disk.files || !disk.files[json].Doc? {
      return false, paths, stale, was, now;
    }
    ghost var f0 := disk.files;
    var entries := disk.files[json].entries;
    was, now := entries, entries;
    var stopped, updated, listed, all := ConvertAll(disk, entries, paths0, tx, f0);
    paths := listed;
    ListedExist(f0, disk.files, paths0, paths, was, updated);
    if stopped || updated == entries {
      GrownIsSafe(f0, disk.history, |old(disk.history)|, json, was, now);
      if !stopped && all {
        NothingReady(f0, disk.files, json, was);
      }
      return !stopped && all, paths, stale, was, now;
    }
    now := updated;
    GrownIsSafe(f0, disk.history, |old(disk.history)|, json, was, now);
    ghost var past, registered := disk.history, Registry(tx);
    var gone;
    gone, paths, stale := Install(disk, json, entries, updated, listed, tx, f0, all);
    ThroughBoth(f0, past, disk.history, |old(disk.history)|, json, was, now);
    if gone {
      FollowsBoth(SetOf(paths0), SetOf(listed), SetOf(paths), was, now);
      if tx != null {
        FollowsBoth(old(Registry(tx)), registered, Registry(tx), was, now);
      }
    }
    return gone, paths, stale, was, now;
  }

  lemma ThroughBoth(f0: Files, past: seq<Files>, history: seq<Files>, from: nat, json: string, was: seq<Entry>, now: seq<Entry>)
    requires from <= |past| && past <= history
    requires SafeThroughout(f0, past, from, json, was, now) && WholeThroughout(f0, past, from, was) && WholeThroughout(f0, history, |past|, was)
    requires !SharesReady(f0, was) ==> SafeThroughout(f0, history, |past|, json, was, now)
    ensures WholeThroughout(f0, history, from, was)
    ensures !SharesReady(f0, was) ==> SafeThroughout(f0, history, from, json, was, now)
  {
    hide Shows, NewAreWhole, SharesReady;
    forall k | from <= k < |past|
      ensures history[k] == past[k]
    {
    }
  }

  /** The names after both halves: what the first added is kept, less what the second dropped. */
  ghost predicate Drops(added: set<string>, names: set<string>, was: seq<Entry>, now: seq<Entry>)
    requires |now| <= |was|
  {
    forall p :: p in names <==> p in added && !IsOldRaw(was, now, p)
  }

  lemma FollowsBoth(names0: set<string>, added: set<string>, names: set<string>, was: seq<Entry>, now: seq<Entry>)
    requires |now| <= |was| && AddsPngs(names0, added, was, now) && Drops(added, names, was, now)
    ensures Follows(names0, names, was, now)
  {
  }

  /** The second half: the report replaced, then the raw files of converted entries away. */
  method Install(disk: Disk<string, Content>, json: string, was: seq<Entry>, now: seq<Entry>, listed: seq<string>, tx: TransactionCore?,
                 ghost f0: Files, all: bool)
    returns (complete: bool, paths: seq<string>, stale: Option<string>)
    requires Grown(f0, disk.files, was) && json in f0 && f0[json] == Doc(was) && (all ==> |now| == |was| && ConvertsFirst(f0, was, now, |was|))
    requires |now| == |was| && forall i :: 0 <= i < |was| ==> Backed(f0, disk.files, was[i], now[i])
    modifies disk, tx
    ensures old(disk.history) <= disk.history && WholeThroughout(f0, disk.history, |old(disk.history)|, was)
    ensures !SharesReady(f0, was) ==> SafeThroughout(f0, disk.history, |old(disk.history)|, json, was, now)
    ensures complete ==> all && Completes(f0, disk.files, json, was, now)
    ensures (forall p :: p in listed ==> p in old(disk.files)) ==> (forall p :: p in paths && Some(p) != stale ==> p in disk.files)
    ensures stale.Some? ==> tx != null && !complete && stale.value !in disk.files
    ensures complete ==> Drops(SetOf(listed), SetOf(paths), was, now)
    ensures complete && tx != null ==> Drops(old(Registry(tx)), Registry(tx), was, now)
  {
    paths, stale := listed, None;
    var ok := ReplaceReport(disk, json, was, now, f0);
    if !ok {
      return false, paths, stale;
    }
    ghost var replaced, past := disk.files, disk.history;
    var removed, gone;
    removed, paths, gone, stale := RemoveRaw(disk, json, was, now, listed, tx, f0);
    ThroughBoth(f0, past, disk.history, |old(disk.history)|, json, was, now);
    StillListed(listed, paths, removed, stale);
    complete := all && gone;
    if complete {
      RunCompletes(f0, replaced, json, was, now, removed);
      AllDropped(f0, json, was, now, removed);
    }
  }

  lemma StillListed(listed: seq<string>, paths: seq<string>, removed: set<string>, stale: Option<string>)
    requires SetOf(paths) == SetOf(listed) - Dropped(removed, stale)
    ensures forall p :: p in paths && Some(p) != stale ==> p in listed && p !in removed
  {
    forall p | p in paths && Some(p) != stale
      ensures p in listed && p !in removed
    {
      assert p in SetOf(paths);
    }
  }

  lemma AllDropped(f0: Files, json: string, was: seq<Entry>, now: seq<Entry>, removed: set<string>)
    requires |now| == |was| && json in f0 && f0[json].Doc? && ConvertsFirst(f0, was, now, |was|)
    requires forall r :: r in removed ==> IsOldRaw(was, now, r)
    requires forall i :: 0 <= i < |was| && now[i] != was[i] && was[i].file != json ==> was[i].file in removed
    ensures forall p :: p in removed <==> IsOldRaw(was, now, p)
  {
    forall p | IsOldRaw(was, now, p)
      ensures p in removed
    {
      var i :| 0 <= i < |now| && now[i] != was[i] && was[i].file == p;
      assert Ready(f0, was[i]);
    }
  }

  lemma ListedExist(f0: Files, f: Files, paths0: seq<string>, paths: seq<string>, was: seq<Entry>, now: seq<Entry>)
    requires Grown(f0, f, was) && |now| <= |was| && AddsPngs(SetOf(paths0), SetOf(paths), was, now)
    requires forall i :: 0 <= i < |now| ==> Backed(f0, f, was[i], now[i])
    ensures (forall p :: p in paths0 ==> p in f0) ==> (forall p :: p in paths ==> p in f)
  {
    forall p | p in paths && IsNewPng(was, now, p)
      ensures p in f
    {
      var i :| 0 <= i < |now| && now[i] != was[i] && now[i].file == p;
      assert Backed(f0, f, was[i], now[i]);
    }
    forall p | p in paths
      ensures p in paths0 || IsNewPng(was, now, p)
    {
      assert p in SetOf(paths);
    }
  }

  /** A run that converted nothing had nothing ready. */
  lemma NothingReady(f0: Files, f: Files, json: string, was: seq<Entry>)
    requires json in f0 && f0[json] == Doc(was) && Grown(f0, f, was) && ConvertsFirst(f0, was, was, |was|)
    ensures Completes(f0, f, json, was, was)
  {
    forall i | 0 <= i < |was|
      ensures !Ready(f0, was[i])
    {
      if Ready(f0, was[i]) {
        var j := FirstReady(f0, was, i);
      }
    }
  }

  /** The first ready entry that names the same file. */
  lemma {:induction false} FirstReady(f0: Files, was: seq<Entry>, i: nat) returns (j: nat)
    requires i < |was| && Ready(f0, was[i])
    ensures j <= i && Ready(f0, was[j]) && was[j].file == was[i].file && !Taken(f0, was, j, was[i].file)
  {
    if Taken(f0, was, i, was[i].file) {
      var k :| 0 <= k < i && Ready(f0, was[k]) && was[k].file == was[i].file;
      j := FirstReady(f0, was, k);
    } else {
      j := i;
    }
  }

  lemma RunCompletes(f0: Files, f: Files, json: string, was: seq<Entry>, now: seq<Entry>, removed: set<string>)
    requires Shows(f0, f, json, was, now) && json !in removed && ConvertsFirst(f0, was, now, |was|)
    requires forall r :: r in removed ==> IsOldRaw(was, now, r)
    requires forall i :: 0 <= i < |was| && now[i] != was[i] && was[i].file != json ==> was[i].file in removed
    requires json in f0 && f0[json].Doc? && forall p :: p in f0 ==> p in f
    ensures Completes(f0, f - removed, json, was, now)
  {
    forall i | 0 <= i < |was| && now[i] != was[i]
      ensures Backed(f0, f - removed, was[i], now[i]) && was[i].file in removed
    {
      assert Backed(f0, f, was[i], now[i]);
      ConvertedIsPng(f0, was, now, i, removed);
    }
    if AllNamed(f0, json, was) {
      RemovalIsSafeExactly(f0, f, json, was, now, removed);
    }
  }

  lemma ConvertedIsPng(f0: Files, was: seq<Entry>, now: seq<Entry>, k: nat, removed: set<string>)
    requires |now| == |was| && k < |was| && now[k] != was[k] && ConvertsFirst(f0, was, now, |was|) && now[k].file == PngName(was[k].file)
    requires forall r :: r in removed ==> IsOldRaw(was, now, r)
    ensures now[k].file !in removed
  {
    PngIsNotRgba(was[k].file);
  }

  /**
    Once the raw files of converted entries are gone, every entry still names a file exactly when no raw
    file that could be converted is listed twice: a condition on the report as it was.
  */
  lemma RemovalIsSafeExactly(f0: Files, f: Files, json: string, was: seq<Entry>, now: seq<Entry>, removed: set<string>)
    requires Shows(f0, f, json, was, now) && ConvertsFirst(f0, was, now, |was|) && AllNamed(f0, json, was)
    requires forall r :: r in removed ==> IsOldRaw(was, now, r)
    requires forall i :: 0 <= i < |was| && now[i] != was[i] ==> was[i].file in removed
    ensures (forall k :: 0 <= k < |now| ==> now[k].file in f - removed) <==> !SharesReady(f0, was)
  {
    forall k | 0 <= k < |was|
      ensures now[k].file in f && (now[k] != was[k] ==> now[k].file !in removed)
    {
      assert Backed(f0, f, was[k], now[k]);
      if now[k] != was[k] {
        ConvertedIsPng(f0, was, now, k, removed);
      }
    }
    if SharesReady(f0, was) {
      var i, k :| 0 <= i < |was| && 0 <= k < |was| && i != k && Ready(f0, was[i]) && was[i].file == was[k].file;
      var j := FirstReady(f0, was, i);
      var other := if j == i then k else i;
      assert now[j] != was[j] && was[other].file in removed;
      assert now[other] == was[other] by {
        assert Ready(f0, was[other]) ==> Taken(f0, was, other, was[other].file) || other < j;
      }
    } else {
      forall k | 0 <= k < |was| && now[k] == was[k]
        ensures was[k].file !in removed
      {
      }
    }
  }

  /** A raw file listed twice: the second entry of the new report names the file that was removed. */
  lemma ListedTwiceIsDeleted(json: string, name: string, pixel: seq<nat>) returns (f0: Files, f: Files, was: seq<Entry>, now: seq<Entry>)
    requires IsSafeRgbaName(name) && |pixel| == 4 && json != name && json != PngName(name)
    ensures was == [Entry(name, Rgba(1, 1)), Entry(name, Rgba(1, 1))] && f0 == map[json := Doc(was), name := Blob(pixel)]
    ensures AllNamed(f0, json, was) && SharesReady(f0, was) && Completes(f0, f, json, was, now)
    ensures now[1].file == name && name !in f
  {
    var entry := Entry(name, Rgba(1, 1));
    was := [entry, entry];
    f0 := map[json := Doc(was), name := Blob(pixel)];
    assert CheckedRgbaLength(1, 1) == Some(4);
    assert Ready(f0, was[0]) && Ready(f0, was[1]);
    now := [Converted(f0, entry), entry];
    PngIsNotRgba(name);
    f := map[json := Doc(now), PngName(name) := Blob(PngOf(f0, entry))];
    assert now[0] != was[0];
    assert Taken(f0, was, 1, name) && !Taken(f0, was, 0, name);
    assert SharesReady(f0, was) by {
      assert Ready(f0, was[0]) && was[0].file == was[1].file;
    }
  }
}
