/**
  Rotation of the session log (src/postprocessors/log_rotator.rs): whatever chunks the
  buffered reader delivers, the rotated log is the newer half of the valid lines.
*/
module LogRotator {
  import opened Wrappers
  import opened Evidence

  newtype byte = x: int | 0 <= x < 256

  const NEWLINE: byte := 10
  const MAX_LOG_LINE_BYTES := 64 * 1024
  const MAX_LOG_LINES := 100_000
  const MAX_LOG_ROTATION_OVERAGE_BYTES := 8 * 1024 * 1024

  // Lines

  /** Up to and including the first newline, or everything. */
  function FirstLine(s: seq<byte>): (line: seq<byte>)
    ensures |line| <= |s| && (s != [] ==> |line| > 0)
  {
    if s == [] then [] else if s[0] == NEWLINE then [NEWLINE] else [s[0]] + FirstLine(s[1..])
  }

  function Lines(s: seq<byte>): seq<seq<byte>>
    decreases |s|
  {
    if s == [] then [] else [FirstLine(s)] + Lines(s[|FirstLine(s)|..])
  }

  predicate IsValid(line: seq<byte>) {
    |line| <= MAX_LOG_LINE_BYTES
  }

  function Valid(lines: seq<seq<byte>>): seq<seq<byte>> {
    if lines == [] then [] else (if IsValid(lines[0]) then [lines[0]] else []) + Valid(lines[1..])
  }

  function ValidLines(s: seq<byte>): seq<seq<byte>> {
    Valid(Lines(s))
  }

  function Joined(lines: seq<seq<byte>>): seq<byte> {
    if lines == [] then [] else lines[0] + Joined(lines[1..])
  }

  predicate Terminated(line: seq<byte>) {
    line != [] && line[|line| - 1] == NEWLINE
  }

  /** Nonempty, with no newline before the end. */
  predicate IsLine(line: seq<byte>) {
    line != [] && forall i :: 0 <= i < |line| - 1 ==> line[i] != NEWLINE
  }

  /** Lines of which only the last may lack its newline. */
  predicate AreLines(lines: seq<seq<byte>>) {
    && (forall i :: 0 <= i < |lines| ==> IsLine(lines[i]))
    && (forall i :: 0 <= i < |lines| - 1 ==> Terminated(lines[i]))
  }

  lemma {:induction false} FirstLineSkips(s: seq<byte>, k: nat)
    requires k <= |s| && forall i :: 0 <= i < k ==> s[i] != NEWLINE
    ensures FirstLine(s) == s[..k] + FirstLine(s[k..])
  {
    if k == 0 {
      assert s[..0] == [] && s[0..] == s;
    } else {
      var tail := s[1..];
      FirstLineSkips(tail, k - 1);
      var skipped, line := tail[..k - 1], FirstLine(tail[k - 1..]);
      assert tail[k - 1..] == s[k..] && s[..k] == [s[0]] + skipped;
      assert [s[0]] + (skipped + line) == ([s[0]] + skipped) + line;
    }
  }

  lemma FirstLineEnds(s: seq<byte>, k: nat)
    requires k < |s| && s[k] == NEWLINE && forall i :: 0 <= i < k ==> s[i] != NEWLINE
    ensures FirstLine(s) == s[..k + 1]
  {
    FirstLineSkips(s, k);
  }

  lemma {:induction false} FirstLineIsALine(s: seq<byte>)
    requires s != []
    ensures IsLine(FirstLine(s))
    ensures !Terminated(FirstLine(s)) ==> FirstLine(s) == s
  {
    if s[0] != NEWLINE && |s| > 1 {
      FirstLineIsALine(s[1..]);
    }
  }

  lemma {:induction false} FirstLineIsPrefix(s: seq<byte>)
    ensures s == FirstLine(s) + s[|FirstLine(s)|..]
  {
    if s != [] && s[0] != NEWLINE {
      FirstLineIsPrefix(s[1..]);
      assert s == [s[0]] + s[1..];
      assert s[|FirstLine(s)|..] == s[1..][|FirstLine(s[1..])|..];
    }
  }

  /** A text is its lines put together again. */
  lemma {:induction false} LinesArePartition(s: seq<byte>)
    ensures Joined(Lines(s)) == s && AreLines(Lines(s))
    decreases |s|
  {
    if s != [] {
      var line := FirstLine(s);
      LinesArePartition(s[|line|..]);
      FirstLineIsALine(s);
      FirstLineIsPrefix(s);
      assert Lines(s)[1..] == Lines(s[|line|..]);
    }
  }

  lemma {:induction false} FirstOfJoined(line: seq<byte>, rest: seq<byte>)
    requires IsLine(line) && (Terminated(line) || rest == [])
    ensures FirstLine(line + rest) == line
  {
    var all := line + rest;
    if Terminated(line) {
      FirstLineEnds(all, |line| - 1);
    } else {
      FirstLineSkips(all, |line|);
    }
  }

  /** Lines put together are read back as the same lines. */
  lemma {:induction false} JoinedReadsBack(lines: seq<seq<byte>>)
    requires AreLines(lines)
    ensures Lines(Joined(lines)) == lines
  {
    if lines != [] {
      var rest := Joined(lines[1..]);
      JoinedReadsBack(lines[1..]);
      FirstOfJoined(lines[0], rest);
      assert (lines[0] + rest)[|lines[0]|..] == rest;
    }
  }

  lemma {:induction false} ValidAreLines(lines: seq<seq<byte>>)
    requires AreLines(lines)
    ensures AreLines(Valid(lines)) && |Valid(lines)| <= |lines|
    ensures forall i :: 0 <= i < |Valid(lines)| ==> IsValid(Valid(lines)[i])
  {
    if lines != [] {
      ValidAreLines(lines[1..]);
      if IsValid(lines[0]) && Valid(lines[1..]) != [] {
        assert |lines| > 1 && Terminated(lines[0]);
      }
    }
  }

  lemma {:induction false} AllValid(lines: seq<seq<byte>>)
    requires forall i :: 0 <= i < |lines| ==> IsValid(lines[i])
    ensures Valid(lines) == lines
  {
    if lines != [] {
      AllValid(lines[1..]);
    }
  }

  function Rotated(s: seq<byte>): seq<byte> {
    Joined(ValidLines(s)[|ValidLines(s)| / 2..])
  }

  /** Reading a rotated log gives exactly the newer half of the valid lines, and nothing corrupt. */
  lemma RotatedReadsBack(s: seq<byte>)
    ensures var v := ValidLines(s);
            Lines(Rotated(s)) == v[|v| / 2..] && ValidLines(Rotated(s)) == v[|v| / 2..]
  {
    var v := ValidLines(s);
    LinesArePartition(s);
    ValidAreLines(Lines(s));
    JoinedReadsBack(v[|v| / 2..]);
    AllValid(v[|v| / 2..]);
  }

  // Reading

  datatype Line = Sound(bytes: seq<byte>) | Corrupt

  datatype Stop = Interrupted | TooManyLines | TooLarge | NothingRecoverable | NotPublished

  function Judged(line: seq<byte>): Line {
    if IsValid(line) then Sound(line) else Corrupt
  }

  class Reader {
    const content: seq<byte>
    var pos: nat

    constructor (content: seq<byte>)
      ensures this.content == content && pos == 0
    {
      this.content, pos := content, 0;
    }

    /** Any nonempty piece of what is left, or nothing at the end. */
    method FillBuf() returns (available: seq<byte>)
      requires pos <= |content|
      ensures available <= content[pos..] && (available == [] <==> pos == |content|)
    {
      if pos == |content| {
        return [];
      }
      var k: int :| 1 <= k <= |content| - pos;
      return content[pos..pos + k];
    }

    method Consume(n: nat)
      requires pos + n <= |content|
      modifies this
      ensures pos == old(pos) + n
    {
      pos := pos + n;
    }
  }

  /** How much of a buffer belongs to the current line. */
  method LinePart(available: seq<byte>) returns (take: nat)
    requires available != []
    ensures 0 < take <= |available|
    ensures forall i :: 0 <= i < take - 1 ==> available[i] != NEWLINE
    ensures take < |available| ==> available[take - 1] == NEWLINE
  {
    take := 1;
    while take < |available| && available[take - 1] != NEWLINE
      invariant 0 < take <= |available|
      invariant forall i :: 0 <= i < take - 1 ==> available[i] != NEWLINE
    {
      take := take + 1;
    }
  }

  /** What has been read of a line whose end has not been met. */
  ghost predicate ReadSoFar(rest: seq<byte>, done: nat, bytes: seq<byte>, corrupt: bool) {
    && done <= |rest| && (forall i :: 0 <= i < done ==> rest[i] != NEWLINE)
    && (corrupt <==> done > MAX_LOG_LINE_BYTES)
    && (!corrupt ==> bytes == rest[..done])
  }

  /** Another part of the line: the line goes on, or it is the first line of what there was to read. */
  lemma ReadMore(rest: seq<byte>, done: nat, bytes: seq<byte>, corrupt: bool, available: seq<byte>, take: nat, next: seq<byte>, over: bool)
    requires ReadSoFar(rest, done, bytes, corrupt) && available <= rest[done..] && 0 < take <= |available|
    requires forall i :: 0 <= i < take - 1 ==> available[i] != NEWLINE
    requires over <==> corrupt || |bytes| + take > MAX_LOG_LINE_BYTES
    requires !over ==> next == bytes + available[..take]
    ensures available[take - 1] != NEWLINE ==> ReadSoFar(rest, done + take, next, over)
    ensures available[take - 1] == NEWLINE ==>
              FirstLine(rest) == rest[..done + take] && (if over then Corrupt else Sound(next)) == Judged(FirstLine(rest))
  {
    hide FirstLine;
    assert forall i :: 0 <= i < take ==> rest[done + i] == available[i];
    assert !over ==> next == rest[..done + take];
    forall i | 0 <= i < done + take - 1
      ensures rest[i] != NEWLINE
    {
      assert i >= done ==> rest[i] == available[i - done];
    }
    if available[take - 1] == NEWLINE {
      FirstLineEnds(rest, done + take - 1);
    }
  }

  lemma ReadAll(rest: seq<byte>, bytes: seq<byte>, corrupt: bool)
    requires ReadSoFar(rest, |rest|, bytes, corrupt) && rest != []
    ensures FirstLine(rest) == rest && (if corrupt then Corrupt else Sound(bytes)) == Judged(rest)
  {
    FirstLineSkips(rest, |rest|);
  }

  /** One line in any chunks: corrupt exactly when it is longer than the limit. */
  method ReadBoundedLine(reader: Reader) returns (result: Result<Option<Line>, Stop>)
    requires reader.pos <= |reader.content|
    modifies reader
    ensures reader.pos <= |reader.content|
    ensures result == Ok(None) ==> old(reader.pos) == |reader.content| == reader.pos
    ensures result.Ok? && result.value.Some? ==>
              var line := FirstLine(reader.content[old(reader.pos)..]);
              && old(reader.pos) < |reader.content|
              && result.value.value == Judged(line) && reader.pos == old(reader.pos) + |line|
    ensures result.Err? ==> result.error == Interrupted
  {
    var bytes: seq<byte> := [];
    var corrupt, sawBytes := false, false;
    ghost var start := reader.pos;
    ghost var rest := reader.content[start..];
    assert ReadSoFar(rest, 0, bytes, corrupt);
    hide FirstLine, ReadSoFar, Judged;
    while true
      invariant start <= reader.pos <= |reader.content| && (sawBytes <==> start < reader.pos)
      invariant ReadSoFar(rest, reader.pos - start, bytes, corrupt)
      decreases |reader.content| - reader.pos
    {
      var interrupted: bool := *;
      if interrupted {
        return Err(Interrupted);
      }
      var available := reader.FillBuf();
      ghost var done := reader.pos - start;
      assert rest[done..] == reader.content[reader.pos..];
      if available == [] {
        if sawBytes {
          ReadAll(rest, bytes, corrupt);
          return Ok(Some(if corrupt then Corrupt else Sound(bytes)));
        }
        return Ok(None);
      }
      var take := LinePart(available);
      var terminated := available[take - 1] == NEWLINE;
      sawBytes := true;
      ghost var before, over := bytes, corrupt;
      if !corrupt {
        if |bytes| + take > MAX_LOG_LINE_BYTES {
          bytes := [];
          corrupt := true;
        } else {
          bytes := bytes + available[..take];
        }
      }
      ReadMore(rest, done, before, over, available, take, bytes, corrupt);
      reader.Consume(take);
      if terminated {
        return Ok(Some(if corrupt then Corrupt else Sound(bytes)));
      }
    }
  }

  /** What is left to read is what the line just read leaves of all lines. */
  lemma LinesStep(content: seq<byte>, pos: nat)
    requires pos < |content|
    ensures var line := FirstLine(content[pos..]);
            && pos + |line| <= |content|
            && |Lines(content[pos..])| == 1 + |Lines(content[pos + |line|..])|
            && ValidLines(content[pos..]) == (if IsValid(line) then [line] else []) + ValidLines(content[pos + |line|..])
  {
    var rest := content[pos..];
    var line := FirstLine(rest);
    var tail := rest[|line|..];
    assert tail == content[pos + |line|..];
    ValidCons(line, Lines(tail));
    assert Lines(rest) == [line] + Lines(tail);
  }

  lemma ValidCons(line: seq<byte>, lines: seq<seq<byte>>)
    ensures Valid([line] + lines) == (if IsValid(line) then [line] else []) + Valid(lines)
  {
    assert ([line] + lines)[1..] == lines;
  }

  /** The lines still to be written when `index` valid lines have been read. */
  function StillToWrite(all: seq<seq<byte>>, index: nat, keepFrom: nat): seq<byte>
    requires index <= |all| && keepFrom <= |all|
  {
    Joined(all[if index < keepFrom then keepFrom else index..])
  }

  lemma WriteStep(all: seq<seq<byte>>, index: nat, keepFrom: nat)
    requires index < |all| && keepFrom <= |all|
    ensures StillToWrite(all, index, keepFrom) ==
            (if index >= keepFrom then all[index] else []) + StillToWrite(all, index + 1, keepFrom)
  {
    if index >= keepFrom {
      assert all[index..][1..] == all[index + 1..];
    }
  }

  method ScanValidLines(reader: Reader) returns (result: Result<nat, Stop>)
    requires reader.pos == 0
    modifies reader
    ensures result.Ok? ==> result.value == |ValidLines(reader.content)| && |Lines(reader.content)| <= MAX_LOG_LINES
    ensures result == Err(TooManyLines) ==> |Lines(reader.content)| > MAX_LOG_LINES
    ensures result.Err? ==> result.error == Interrupted || result.error == TooManyLines
  {
    var valid, observed := 0, 0;
    assert reader.content[0..] == reader.content;
    while true
      invariant reader.pos <= |reader.content| && observed <= MAX_LOG_LINES
      invariant valid + |ValidLines(reader.content[reader.pos..])| == |ValidLines(reader.content)|
      invariant observed + |Lines(reader.content[reader.pos..])| == |Lines(reader.content)|
      decreases |reader.content| - reader.pos
    {
      ghost var before := reader.pos;
      var line := ReadBoundedLine(reader);
      if line.Err? {
        return Err(line.error);
      }
      if line.value.None? {
        return Ok(valid);
      }
      LinesStep(reader.content, before);
      if observed == MAX_LOG_LINES {
        return Err(TooManyLines);
      }
      observed := observed + 1;
      if line.value.value.Sound? {
        valid := valid + 1;
      }
    }
  }

  lemma KeptStep(content: seq<byte>, pos: nat, all: seq<seq<byte>>, index: nat, keepFrom: nat, tmp: seq<byte>)
    requires pos < |content| && index <= |all| && keepFrom <= |all| && all[index..] == ValidLines(content[pos..])
    ensures var line := FirstLine(content[pos..]);
            && pos + |line| <= |content|
            && (!IsValid(line) ==> all[index..] == ValidLines(content[pos + |line|..]))
            && (IsValid(line) ==>
                  && index < |all| && all[index + 1..] == ValidLines(content[pos + |line|..])
                  && tmp + StillToWrite(all, index, keepFrom) ==
                     (if index >= keepFrom then tmp + line else tmp) + StillToWrite(all, index + 1, keepFrom))
  {
    var line := FirstLine(content[pos..]);
    LinesStep(content, pos);
    if IsValid(line) {
      assert all[index] == all[index..][0] && all[index + 1..] == all[index..][1..];
      WriteStep(all, index, keepFrom);
    }
  }

  /** Appending to the temporary file, in any pieces; only that file changes. */
  method Append(disk: Disk<string, seq<byte>>, tmp: string, content: seq<byte>, bytes: seq<byte>, ghost base: map<string, seq<byte>>, ghost from: nat)
    returns (complete: bool)
    requires tmp !in base && disk.files == base[tmp := content] && from <= |disk.history| && OnlyTemporary(base, disk.history, from, tmp)
    modifies disk
    ensures old(disk.history) <= disk.history && OnlyTemporary(base, disk.history, from, tmp)
    ensures tmp in disk.files && disk.files - {tmp} == base
    ensures complete ==> disk.files == base[tmp := content + bytes]
  {
    var count := 0;
    assert content + bytes[..0] == content;
    while count < |bytes|
      invariant count <= |bytes| && disk.files == base[tmp := content + bytes[..count]]
      invariant old(disk.history) <= disk.history && OnlyTemporary(base, disk.history, from, tmp)
    {
      var interrupted: bool := *;
      if interrupted {
        return false;
      }
      var piece: int :| 1 <= piece <= |bytes| - count;
      count := count + piece;
      disk.Put(tmp, content + bytes[..count]);
      assert disk.files == base[tmp := content + bytes[..count]];
    }
    assert bytes[..|bytes|] == bytes;
    complete := true;
  }

  /** Writing the temporary file of a rotation: the valid lines from `keepFrom` on, each in any pieces. */
  method WriteKept(disk: Disk<string, seq<byte>>, tmp: string, reader: Reader, keepFrom: nat, ghost base: map<string, seq<byte>>, ghost from: nat)
    returns (written: Result<seq<byte>, Stop>)
    requires reader.pos == 0 && keepFrom <= |ValidLines(reader.content)|
    requires tmp !in base && disk.files == base[tmp := []] && from <= |disk.history| && OnlyTemporary(base, disk.history, from, tmp)
    modifies disk, reader
    ensures old(disk.history) <= disk.history && OnlyTemporary(base, disk.history, from, tmp)
    ensures tmp in disk.files && disk.files - {tmp} == base
    ensures written.Ok? ==> written.value == Joined(ValidLines(reader.content)[keepFrom..]) && disk.files == base[tmp := written.value]
    ensures written.Err? ==> written.error == Interrupted
  {
    hide OnlyTemporary, ValidLines;
    ghost var all := ValidLines(reader.content);
    var content: seq<byte> := [];
    var index := 0;
    assert reader.content[0..] == reader.content;
    while true
      invariant reader.pos <= |reader.content| && index <= |all|
      invariant all[index..] == ValidLines(reader.content[reader.pos..])
      invariant content + StillToWrite(all, index, keepFrom) == Joined(all[keepFrom..])
      invariant disk.files == base[tmp := content]
      invariant old(disk.history) <= disk.history && OnlyTemporary(base, disk.history, from, tmp)
      decreases |reader.content| - reader.pos
    {
      ghost var before := reader.pos;
      var line := ReadBoundedLine(reader);
      if line.Err? {
        return Err(line.error);
      }
      if line.value.None? {
        NoLinesLeft(reader.content);
        assert all[index..] == [];
        return Ok(content);
      }
      KeptStep(reader.content, before, all, index, keepFrom, content);
      if line.value.value.Sound? {
        if index >= keepFrom {
          var complete := Append(disk, tmp, content, line.value.value.bytes, base, from);
          if !complete {
            return Err(Interrupted);
          }
          content := content + line.value.value.bytes;
        }
        index := index + 1;
      }
    }
  }

  lemma NoLinesLeft(content: seq<byte>)
    ensures ValidLines(content[|content|..]) == []
  {
    assert content[|content|..] == [];
  }

  const SESSION_LOG := "sessions.jsonl"

  class SessionLog {
    const maxSize: nat
    const disk: Disk<string, seq<byte>>

    function File(): Option<seq<byte>>
      reads disk
    {
      Lookup(disk.files, SESSION_LOG)
    }

    constructor (maxSize: nat, disk: Disk<string, seq<byte>>)
      ensures this.maxSize == maxSize && this.disk == disk
    {
      this.maxSize, this.disk := maxSize, disk;
    }

    /** Writing the rotated log beside the log and renaming it over it. */
    method Replace(reader: Reader, keepFrom: nat) returns (result: Result<bool, Stop>)
      requires reader.pos == 0 && keepFrom == |ValidLines(reader.content)| / 2
      modifies disk, reader
      ensures old(disk.history) <= disk.history
      ensures ReplacedWhole(old(disk.files), disk.history, |old(disk.history)|, SESSION_LOG, Rotated(reader.content))
      ensures result == Ok(true) || (result == Err(NotPublished) && File() != old(File())) ==> File() == Some(Rotated(reader.content))
      ensures result.Err? && result.error != NotPublished ==> File() == old(File())
      ensures result == Ok(true) || result == Err(NotPublished) || result == Err(Interrupted)
    {
      hide OnlyTemporary, ReplacedWhole, ValidLines;
      ghost var base, from := disk.files, |disk.history|;
      var tmp: string := *;
      NothingYet(base, disk.history, from, tmp, SESSION_LOG, Rotated(reader.content));
      if tmp in disk.files || tmp == SESSION_LOG {
        return Err(NotPublished);
      }
      PutTemporary(base, disk.history, from, tmp, []);
      disk.Put(tmp, []);
      var written := WriteKept(disk, tmp, reader, keepFrom, base, from);
      ghost var past := disk.history;
      RenameReplaces(base, past, past, from, tmp, SESSION_LOG, Rotated(reader.content));
      var renamed: bool := *;
      if written.Err? || !renamed {
        OthersKept(base, disk.files, tmp, SESSION_LOG);
        var removed: bool := *;
        if removed {
          DropTemporary(base, past, from, tmp);
          disk.Remove(tmp);
          RenameReplaces(base, disk.history, disk.history, from, tmp, SESSION_LOG, Rotated(reader.content));
        }
        return Err(if written.Err? then written.error else NotPublished);
      }
      RenameReplaces(base, past, past + [base[SESSION_LOG := written.value]], from, tmp, SESSION_LOG, written.value);
      disk.Rename(tmp, SESSION_LOG);
      assert disk.files == base[SESSION_LOG := written.value];
      var synced: bool := *;
      return if synced then Ok(true) else Err(NotPublished);
    }

    /**
      One rotation. In every state the log is the old one or the newer half of its valid lines, whole, and
      every other file is untouched; a success above the threshold means it was replaced.
    */
    method Process() returns (result: Result<bool, Stop>)
      modifies disk
      ensures old(disk.history) <= disk.history
      ensures old(File()).Some? ==>
                ReplacedWhole(old(disk.files), disk.history, |old(disk.history)|, SESSION_LOG, Rotated(old(File()).value))
      ensures old(File()).None? ==> disk.files == old(disk.files) && disk.history == old(disk.history)
      ensures File() == old(File()) || (old(File()).Some? && File() == Some(Rotated(old(File()).value)))
      ensures result == Ok(false) ==> File() == old(File()) && (File().None? || |File().value| <= maxSize)
      ensures result == Ok(true) ==> old(File()).Some? && |old(File()).value| > maxSize && File() == Some(Rotated(old(File()).value))
      ensures result == Err(NothingRecoverable) ==> old(File()).Some? && ValidLines(old(File()).value) == []
      ensures result == Err(TooLarge) ==> old(File()).Some? && |old(File()).value| > maxSize + MAX_LOG_ROTATION_OVERAGE_BYTES
      ensures result == Err(TooManyLines) ==> old(File()).Some? && |Lines(old(File()).value)| > MAX_LOG_LINES
      ensures result.Err? && result.error != NotPublished ==> File() == old(File())
    {
      var file := File();
      if file.None? || |file.value| <= maxSize {
        return Ok(false);
      }
      if |file.value| > maxSize + MAX_LOG_ROTATION_OVERAGE_BYTES {
        return Err(TooLarge);
      }
      var reader := new Reader(file.value);
      var valid := ScanValidLines(reader);
      if valid.Err? {
        return Err(valid.error);
      }
      if valid.value == 0 {
        return Err(NothingRecoverable);
      }
      reader.pos := 0;
      result := Replace(reader, valid.value / 2);
    }
  }
}
