/**
  The publication units of the shared region (schema/crash_shm.h) and what each
  producer call stores in them (producer/crash_monitor_producer.h).

  A unit's memory maps addresses to values; memory never written reads as zero.
  A call's plain stores between claiming and releasing a unit form a map of
  pending stores. `Shows` says what a completed history of calls looks like.
*/
module SharedRegion {
  import opened Wrappers

  const RING_CAPACITY: nat := 512
  const MAX_THREADS: nat := 8
  const MAX_ANNOTATIONS: nat := 16
  const MAX_EXTENSIONS: nat := 4
  const MAX_ATTACHMENTS: nat := 4
  const EXTENSION_VERSION: nat := 1

  /** 32-bit wrap-around. */
  function Wrap(n: nat): nat { n % 0x1_0000_0000 }

  /** A ring index: the ordinal modulo the capacity. */
  function Slot(n: nat): nat { n % 512 }

  type Text = seq<nat>

  datatype Crumb = Crumb(timestamp: nat, threadId: nat, category: nat, severity: nat, line: nat, file: Text, message: Text)

  datatype Unit = Registry | Ring(slot: nat) | Context | Settings | Attachments | Screenshot(slot: nat)

  datatype Address =
    | CrumbAt(index: nat) | WriteIdx | Count | ThreadId   // a ring
    | EntryCount | EntryAt(index: nat) | SchemaVersion    // context, settings, attachments
    | Pixels | Timestamp | Tier                           // a screenshot slot

  /** `Torn` is whatever an interrupted multi-byte copy leaves behind. */
  datatype Value = Num(n: nat) | Record(crumb: Crumb) | Pair(key: Text, text: Text) | Image(bytes: Text) | Torn(tag: nat)

  type Memory = map<Address, Value>

  function Read(m: Memory, a: Address): Value {
    if a in m then m[a] else Num(0)
  }

  function Number(m: Memory, a: Address): nat {
    var v := Read(m, a);
    if v.Num? then v.n else 0
  }

  /** Bounded text copy: at most `size - 1` bytes, always terminated, the rest cleared. */
  function CopyText(size: nat, src: Text): (dst: Text)
    ensures |dst| == size
    ensures size > 0 ==> dst[size - 1] == 0
    ensures forall i :: 0 <= i < size ==> dst[i] == if i < |src| && i < size - 1 then src[i] else 0
  {
    seq(size, i => if 0 <= i < |src| && i < size - 1 then src[i] else 0)
  }

  /** The crumb as it is laid out: file and message cut to their fields. */
  function Stored(c: Crumb): Crumb {
    c.(file := CopyText(16, c.file), message := CopyText(28, c.message))
  }

  datatype Call =
    | AddBreadcrumb(slot: nat, crumb: Crumb)
    | SetAnnotation(key: Text, text: Text)
    | SetExtension(key: Text, text: Text)
    | RegisterAttachment(key: Text, text: Text)
    | PublishScreenshot(slot: nat, timestamp: nat, tier: nat, pixels: Text)

  function UnitOf(call: Call): Unit {
    match call
    case AddBreadcrumb(slot, _) => Ring(slot)
    case SetAnnotation(_, _) => Context
    case SetExtension(_, _) => Settings
    case RegisterAttachment(_, _) => Attachments
    case PublishScreenshot(slot, _, _, _) => Screenshot(slot)
  }

  function Capacity(u: Unit): nat {
    if u == Context then MAX_ANNOTATIONS else if u == Settings then MAX_EXTENSIONS else MAX_ATTACHMENTS
  }

  function EntryOf(call: Call): Value {
    match call
    case SetAnnotation(key, text) => Pair(CopyText(32, key), CopyText(64, text))
    case SetExtension(key, text) => Pair(CopyText(16, key), CopyText(20, text))
    case RegisterAttachment(key, text) => Pair(CopyText(32, key), CopyText(256, text))
    case AddBreadcrumb(_, crumb) => Record(Stored(crumb))
    case PublishScreenshot(_, _, _, pixels) => Image(pixels)
  }

  /** The stores a call makes once it owns the unit; None when the section is full. */
  function StoresOf(call: Call, m: Memory): Option<Memory> {
    match call
    case AddBreadcrumb(_, crumb) =>
      var index := Slot(Number(m, WriteIdx));
      Some(map[CrumbAt(index) := EntryOf(call), ThreadId := Num(crumb.threadId), WriteIdx := Num(index + 1),
               Count := Num(Wrap(Number(m, Count) + 1))])
    case PublishScreenshot(_, timestamp, tier, _) =>
      Some(map[Pixels := EntryOf(call), Timestamp := Num(timestamp), Tier := Num(tier)])
    case SetExtension(_, _) =>
      var n := Number(m, EntryCount);
      if n >= MAX_EXTENSIONS then None
      else Some(map[SchemaVersion := Num(EXTENSION_VERSION), EntryCount := Num(n + 1), EntryAt(n) := EntryOf(call)])
    case _ =>
      var n := Number(m, EntryCount);
      if n >= Capacity(UnitOf(call)) then None
      else Some(map[EntryCount := Num(n + 1), EntryAt(n) := EntryOf(call)])
  }

  // ---- what a unit shows after a history of completed calls ---------------

  /** `write_idx` after `n` adds: stored unreduced, in 0..512. */
  function WriteIndex(n: nat): nat {
    if n == 0 then 0 else Slot(n - 1) + 1
  }

  /** The last 512 crumbs sit at their ordinal modulo the capacity; the counters follow the history. */
  ghost predicate RingShows(m: Memory, history: seq<Call>) {
    var n := |history|;
    && Read(m, Count) == Num(Wrap(n))
    && Read(m, WriteIdx) == Num(WriteIndex(n))
    && (n > 0 ==> history[n - 1].AddBreadcrumb? && Read(m, ThreadId) == Num(history[n - 1].crumb.threadId))
    && forall k :: 0 <= k < n && n - RING_CAPACITY <= k ==> Read(m, CrumbAt(Slot(k))) == EntryOf(history[k])
  }

  ghost predicate ListShows(u: Unit, m: Memory, history: seq<Call>) {
    var n := |history|;
    && n <= Capacity(u)
    && Read(m, EntryCount) == Num(n)
    && (u == Settings && n > 0 ==> Read(m, SchemaVersion) == Num(EXTENSION_VERSION))
    && forall k :: 0 <= k < n ==> Read(m, EntryAt(k)) == EntryOf(history[k])
  }

  ghost predicate ScreenshotShows(m: Memory, history: seq<Call>) {
    history != [] ==>
      var last := history[|history| - 1];
      && last.PublishScreenshot?
      && Read(m, Pixels) == Image(last.pixels)
      && Read(m, Timestamp) == Num(last.timestamp)
      && Read(m, Tier) == Num(last.tier)
  }

  ghost predicate Shows(u: Unit, m: Memory, history: seq<Call>) {
    && (forall k :: 0 <= k < |history| ==> UnitOf(history[k]) == u)
    && match u
       case Registry => true
       case Ring(_) => RingShows(m, history)
       case Screenshot(_) => ScreenshotShows(m, history)
       case _ => ListShows(u, m, history)
  }

  /** A zeroed unit shows the empty history. */
  lemma ZeroedShowsNothing(u: Unit)
    ensures Shows(u, map[], [])
  {
  }

  lemma SlotOfNext(n: nat)
    ensures Slot(WriteIndex(n)) == Slot(n)
    ensures WriteIndex(n + 1) == Slot(n) + 1
    ensures Wrap(Wrap(n) + 1) == Wrap(n + 1)
    ensures n >= RING_CAPACITY ==> Slot(n - RING_CAPACITY) == Slot(n)
  {
    SlotOfWriteIndex(n);
    WrapOfNext(n);
    if n >= RING_CAPACITY {
      SlotsRepeat(n - RING_CAPACITY);
    }
  }

  lemma SlotsRepeat(n: nat)
    ensures Slot(n + RING_CAPACITY) == Slot(n)
  {
    var q, r := n / 512, n % 512;
    assert n + 512 == 512 * (q + 1) + r;
  }

  lemma SlotOfWriteIndex(n: nat)
    ensures Slot(WriteIndex(n)) == Slot(n)
  {
    if n > 0 {
      var q, r := (n - 1) / 512, (n - 1) % 512;
      assert n == 512 * q + (r + 1);
    }
  }

  lemma WrapOfNext(n: nat)
    ensures Wrap(Wrap(n) + 1) == Wrap(n + 1)
  {
    var q, r := n / 0x1_0000_0000, n % 0x1_0000_0000;
    assert n + 1 == 0x1_0000_0000 * q + (r + 1);
  }

  lemma OlderSlotsDiffer(n: nat, k: nat)
    requires k < n && n + 1 - RING_CAPACITY <= k
    ensures Slot(k) != Slot(n)
  {
  }

  lemma RingGrows(m: Memory, history: seq<Call>, call: Call)
    requires RingShows(m, history) && call.AddBreadcrumb?
    ensures RingShows(m + StoresOf(call, m).value, history + [call])
  {
    var n := |history|;
    var after := m + StoresOf(call, m).value;
    SlotOfNext(n);
    forall k | 0 <= k < n + 1 && n + 1 - RING_CAPACITY <= k
      ensures Read(after, CrumbAt(Slot(k))) == EntryOf((history + [call])[k])
    {
      if k < n {
        OlderSlotsDiffer(n, k);
      }
    }
  }

  lemma ListGrows(u: Unit, m: Memory, history: seq<Call>, call: Call)
    requires ListShows(u, m, history) && u == UnitOf(call) && StoresOf(call, m).Some?
    requires !call.AddBreadcrumb? && !call.PublishScreenshot?
    ensures ListShows(u, m + StoresOf(call, m).value, history + [call])
  {
    var after, longer := m + StoresOf(call, m).value, history + [call];
    forall k | 0 <= k < |longer|
      ensures Read(after, EntryAt(k)) == EntryOf(longer[k])
    {
      assert k < |history| ==> longer[k] == history[k] && Read(after, EntryAt(k)) == Read(m, EntryAt(k));
    }
  }

  /** Applying a call's stores to a unit that shows a history makes it show the longer history. */
  lemma StoresExtendHistory(m: Memory, history: seq<Call>, call: Call)
    requires Shows(UnitOf(call), m, history) && StoresOf(call, m).Some?
    ensures Shows(UnitOf(call), m + StoresOf(call, m).value, history + [call])
  {
    if call.AddBreadcrumb? {
      RingGrows(m, history, call);
    } else if !call.PublishScreenshot? {
      ListGrows(UnitOf(call), m, history, call);
    }
  }

  /** A bounded section refuses a call exactly when it already holds its capacity. */
  lemma FullExactlyAtCapacity(m: Memory, history: seq<Call>, call: Call)
    requires Shows(UnitOf(call), m, history)
    ensures StoresOf(call, m).None? <==>
            !call.AddBreadcrumb? && !call.PublishScreenshot? && |history| == Capacity(UnitOf(call))
  {
  }

  /** The oldest crumb still held is the one `write_idx` points at, and the count is exact below 2^32 adds. */
  lemma WriteIndexFindsOldest(m: Memory, history: seq<Call>)
    requires RingShows(m, history) && history != []
    ensures var oldest := if |history| <= RING_CAPACITY then 0 else |history| - RING_CAPACITY;
            var at := if |history| < RING_CAPACITY then 0 else Slot(Number(m, WriteIdx));
            Read(m, CrumbAt(at)) == EntryOf(history[oldest])
    ensures Number(m, Count) == |history| <==> |history| < 0x1_0000_0000
  {
    var n := |history|;
    SlotOfNext(n);
    assert n <= RING_CAPACITY ==> Read(m, CrumbAt(Slot(0))) == EntryOf(history[0]);
  }
}
