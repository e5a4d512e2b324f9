/**
  The report rate limiter (src/filters/rate_limiter.rs): a sliding window per report
  type kept in a bounded state file that survives restarts.
*/
module RateLimiter {
  import opened Wrappers
  import opened Evidence

  const U64_MAX := 0xFFFF_FFFF_FFFF_FFFF
  const RATE_STATE_VERSION := 1
  const MAX_PERSISTED_EVENTS_PER_TYPE := 1_024
  const MAX_RATE_STATE_BYTES := 128 * 1024

  type Millis = n: nat | n <= U64_MAX

  datatype ReportType = Crash | Snapshot | Anr | Oom | ExitFailure | SignalFailure

  function Name(t: ReportType): string {
    match t
    case Crash => "crash"
    case Snapshot => "snapshot"
    case Anr => "anr"
    case Oom => "oom"
    case ExitFailure => "exit_failure"
    case SignalFailure => "signal_failure"
  }

  /** The report types in the order of their names. */
  const BY_NAME := [Anr, Crash, ExitFailure, Oom, SignalFailure, Snapshot]

  type Recent = map<ReportType, seq<Millis>>

  datatype Entry = Entry(reportType: ReportType, timestamps: seq<Millis>)

  datatype Persisted = Persisted(version: nat, entries: seq<Entry>)

  /** A file's length and what its bytes parse to, if they parse. */
  datatype File = File(size: nat, parsed: Option<Persisted>)

  datatype RateError = Recovered | Unreadable | NotPersisted | TimedOut

  // The length of the written form

  function Digits(n: nat): nat {
    if n < 10 then 1 else 1 + Digits(n / 10)
  }

  function ListLength(timestamps: seq<Millis>): nat {
    if timestamps == [] then 0
    else ListLength(timestamps[..|timestamps| - 1]) + (if |timestamps| == 1 then 0 else 1) + Digits(timestamps[|timestamps| - 1])
  }

  function EntryLength(entry: Entry): nat {
    |"{'report_type':''"| + |Name(entry.reportType)| + |",'timestamps_ms':[]}"| + ListLength(entry.timestamps)
  }

  function EntriesLength(entries: seq<Entry>): nat {
    if entries == [] then 0
    else EntriesLength(entries[..|entries| - 1]) + (if |entries| == 1 then 0 else 1) + EntryLength(entries[|entries| - 1])
  }

  function JsonLength(state: Persisted): nat {
    |"{'version':,'entries':[]}"| + Digits(state.version) + EntriesLength(state.entries)
  }

  function Pow10(d: nat): nat {
    if d == 0 then 1 else 10 * Pow10(d - 1)
  }

  lemma {:induction false} DigitsAtMost(n: nat, d: nat)
    requires d > 0 && n < Pow10(d)
    ensures Digits(n) <= d
  {
    if n >= 10 {
      DigitsAtMost(n / 10, d - 1);
    }
  }

  lemma FiveMore(d: nat)
    ensures Pow10(d + 5) == 100_000 * Pow10(d)
  {
    assert Pow10(d + 2) == 100 * Pow10(d);
    assert Pow10(d + 4) == 100 * Pow10(d + 2);
  }

  lemma TwentyDigits()
    ensures U64_MAX < Pow10(20)
  {
    FiveMore(0);
    FiveMore(5);
    FiveMore(10);
    FiveMore(15);
  }

  lemma {:induction false} ListAtMost(timestamps: seq<Millis>)
    ensures ListLength(timestamps) <= 21 * |timestamps|
  {
    if timestamps != [] {
      var last := timestamps[|timestamps| - 1];
      TwentyDigits();
      DigitsAtMost(last, 20);
      ListAtMost(timestamps[..|timestamps| - 1]);
    }
  }

  lemma {:induction false} EntriesAtMost(entries: seq<Entry>)
    requires forall i :: 0 <= i < |entries| ==> |entries[i].timestamps| <= MAX_PERSISTED_EVENTS_PER_TYPE
    ensures EntriesLength(entries) <= |entries| * 21_600
  {
    if entries != [] {
      ListAtMost(entries[|entries| - 1].timestamps);
      EntriesAtMost(entries[..|entries| - 1]);
    }
  }

  // Writing and reading the state

  function EntriesOf(recent: Recent, order: seq<ReportType>): seq<Entry> {
    if order == [] then [] else
      var t := order[|order| - 1];
      EntriesOf(recent, order[..|order| - 1]) + if t in recent then [Entry(t, recent[t])] else []
  }

  function Encode(recent: Recent): File {
    var state := Persisted(RATE_STATE_VERSION, EntriesOf(recent, BY_NAME));
    File(JsonLength(state), Some(state))
  }

  function Latest(timestamps: seq<Millis>): seq<Millis> {
    if |timestamps| <= MAX_PERSISTED_EVENTS_PER_TYPE then timestamps
    else timestamps[|timestamps| - MAX_PERSISTED_EVENTS_PER_TYPE..]
  }

  function Collected(entries: seq<Entry>): Recent {
    if entries == [] then map[] else
      var last := entries[|entries| - 1];
      Collected(entries[..|entries| - 1])[last.reportType := Latest(last.timestamps)]
  }

  function Loaded(file: Option<File>): Option<Recent> {
    if file.None? then Some(map[])
    else if file.value.size > MAX_RATE_STATE_BYTES || file.value.parsed.None?
            || file.value.parsed.value.version != RATE_STATE_VERSION then None
    else Some(Collected(file.value.parsed.value.entries))
  }

  /** What the limiter works from: an unusable file counts as empty. */
  function Usable(file: Option<File>): Recent {
    if Loaded(file).Some? then Loaded(file).value else map[]
  }

  predicate Bounded(recent: Recent) {
    forall t :: t in recent ==> |recent[t]| <= MAX_PERSISTED_EVENTS_PER_TYPE
  }

  lemma {:induction false} EntriesAreBounded(recent: Recent, order: seq<ReportType>)
    requires Bounded(recent)
    ensures var entries := EntriesOf(recent, order);
            && |entries| <= |order|
            && forall i :: 0 <= i < |entries| ==> |entries[i].timestamps| <= MAX_PERSISTED_EVENTS_PER_TYPE
  {
    if order != [] {
      EntriesAreBounded(recent, order[..|order| - 1]);
    }
  }

  lemma {:induction false} CollectedIsWritten(recent: Recent, order: seq<ReportType>, u: ReportType)
    requires Bounded(recent)
    ensures var read := Collected(EntriesOf(recent, order));
            (u in read <==> u in recent && u in order) && (u in read ==> read[u] == recent[u])
  {
    if order != [] {
      var shorter, t := order[..|order| - 1], order[|order| - 1];
      CollectedIsWritten(recent, shorter, u);
      assert u in order <==> u in shorter || u == t by {
        assert order == shorter + [t];
      }
      var before := EntriesOf(recent, shorter);
      if t in recent {
        assert EntriesOf(recent, order) == before + [Entry(t, recent[t])];
        CollectedMore(before, Entry(t, recent[t]));
      } else {
        assert EntriesOf(recent, order) == before;
      }
    }
  }

  lemma CollectedMore(entries: seq<Entry>, entry: Entry)
    ensures Collected(entries + [entry]) == Collected(entries)[entry.reportType := Latest(entry.timestamps)]
  {
    assert (entries + [entry])[..|entries|] == entries;
  }

  /** Every state the limiter can hold fits its limits, and what is written is what is read back. */
  lemma PersistedStatesReload(recent: Recent)
    requires Bounded(recent)
    ensures Encode(recent).size <= MAX_RATE_STATE_BYTES
    ensures Loaded(Some(Encode(recent))) == Some(recent)
  {
    EntriesAreBounded(recent, BY_NAME);
    EntriesAtMost(EntriesOf(recent, BY_NAME));
    var read := Collected(EntriesOf(recent, BY_NAME));
    forall t: ReportType
      ensures (t in read <==> t in recent) && (t in read ==> read[t] == recent[t])
    {
      EveryTypeIsNamed(t);
      CollectedIsWritten(recent, BY_NAME, t);
    }
    assert read == recent;
  }

  lemma EveryTypeIsNamed(t: ReportType)
    ensures t in BY_NAME
  {
    match t
    case Anr => assert BY_NAME[0] == t;
    case Crash => assert BY_NAME[1] == t;
    case ExitFailure => assert BY_NAME[2] == t;
    case Oom => assert BY_NAME[3] == t;
    case SignalFailure => assert BY_NAME[4] == t;
    case Snapshot => assert BY_NAME[5] == t;
  }

  lemma {:induction false} CollectedIsBounded(entries: seq<Entry>)
    ensures Bounded(Collected(entries))
  {
    if entries != [] {
      CollectedIsBounded(entries[..|entries| - 1]);
    }
  }

  // The window

  function Of(recent: Recent, t: ReportType): seq<Millis> {
    if t in recent then recent[t] else []
  }

  function Cutoff(now: nat, window: nat): nat {
    if now < window then 0 else now - window
  }

  predicate Ascending(times: seq<Millis>) {
    forall i, j :: 0 <= i < j < |times| ==> times[i] <= times[j]
  }

  /** No `max + 1` consecutive events lie within one window. */
  ghost predicate Spaced(times: seq<Millis>, max: nat, window: nat) {
    forall j, k :: 0 <= j <= k < |times| && k == j + max ==> times[j] + window <= times[k]
  }

  /** The kept events are the last of all recorded ones; every other is out of the window by `last`. */
  ghost predicate Windowed(all: seq<Millis>, kept: seq<Millis>, max: nat, window: nat, last: nat) {
    && |kept| <= |all| && kept == all[|all| - |kept|..]
    && Ascending(all) && Spaced(all, max, window)
    && (forall i :: 0 <= i < |all| ==> 0 < all[i] <= last)
    && (forall i :: 0 <= i < |all| - |kept| ==> all[i] + window <= last)
  }

  /** Any window of the configured length holds at most `max` of the recorded events. */
  lemma WindowsHoldAtMost(times: seq<Millis>, max: nat, window: nat, i: nat, j: nat)
    requires Ascending(times) && Spaced(times, max, window) && i <= j < |times|
    requires times[j] < times[i] + window
    ensures j - i + 1 <= max
  {
    assert forall k :: i < k <= j ==> times[i] <= times[k];
    assert max <= j ==> times[j - max] + window <= times[j];
  }

  /** How many of the latest events are left once everything up to the cutoff is gone from the front. */
  function Survivors(entry: seq<Millis>, cutoff: nat): (n: nat)
    ensures n <= |entry|
  {
    if entry == [] then 0 else if entry[0] <= cutoff then Survivors(entry[1..], cutoff) else |entry|
  }

  function Survived(entry: seq<Millis>, cutoff: nat): seq<Millis> {
    entry[|entry| - Survivors(entry, cutoff)..]
  }

  lemma {:induction false} ExpiredAreOld(entry: seq<Millis>, cutoff: nat)
    ensures forall i :: 0 <= i < |entry| - Survivors(entry, cutoff) ==> entry[i] <= cutoff
  {
    if entry != [] && entry[0] <= cutoff {
      ExpiredAreOld(entry[1..], cutoff);
    }
  }

  lemma {:induction false} SurvivorsAreYoung(entry: seq<Millis>, cutoff: nat)
    requires Ascending(entry)
    ensures forall i :: |entry| - Survivors(entry, cutoff) <= i < |entry| ==> entry[i] > cutoff
  {
    if entry != [] && entry[0] <= cutoff {
      SurvivorsAreYoung(entry[1..], cutoff);
    }
  }

  /** Expired events are taken from the front of the deque. */
  method Expire(entry: seq<Millis>, cutoff: nat) returns (kept: seq<Millis>)
    ensures kept == Survived(entry, cutoff)
  {
    kept := entry;
    while kept != [] && kept[0] <= cutoff
      invariant |kept| <= |entry| && kept == entry[|entry| - |kept|..]
      invariant Survivors(kept, cutoff) == Survivors(entry, cutoff)
      decreases |kept|
    {
      kept := kept[1..];
    }
  }

  /** The state with one more event of a type, the expired ones gone. */
  function Admitted(recent: Recent, t: ReportType, now: Millis, window: nat): Recent {
    recent[t := Survived(Of(recent, t), Cutoff(now, window)) + [now]]
  }

  function WithEvent(all: Recent, t: ReportType, now: Millis): Recent {
    all[t := Of(all, t) + [now]]
  }

  /** The latest `max` events all lie after the cutoff. */
  predicate IsFull(times: seq<Millis>, max: nat, cutoff: nat) {
    |times| >= max && forall i :: |times| - max <= i < |times| ==> times[i] > cutoff
  }

  ghost predicate FollowsFor(all: Recent, recent: Recent, t: ReportType, max: nat, window: nat, last: nat) {
    Windowed(Of(all, t), Of(recent, t), max, window, last)
  }

  ghost predicate Follows(all: Recent, recent: Recent, max: nat, window: nat, last: nat) {
    forall t :: FollowsFor(all, recent, t, max, window, last)
  }

  lemma NothingFollows(max: nat, window: nat, last: nat)
    ensures Follows(map[], map[], max, window, last)
  {
  }

  lemma TimePassesForAll(all: Recent, recent: Recent, max: nat, window: nat, last: nat, now: nat)
    requires Follows(all, recent, max, window, last) && last <= now
    ensures Follows(all, recent, max, window, now)
  {
    forall t
      ensures FollowsFor(all, recent, t, max, window, now)
    {
      assert FollowsFor(all, recent, t, max, window, last);
      TimePasses(Of(all, t), Of(recent, t), max, window, last, now);
    }
  }

  lemma ExpiredIsOld(all: seq<Millis>, entry: seq<Millis>, kept: seq<Millis>, max: nat, window: nat, last: nat, now: Millis, i: nat)
    requires Windowed(all, entry, max, window, last) && last <= now
    requires |kept| <= |entry| && kept == entry[|entry| - |kept|..]
    requires forall i :: 0 <= i < |entry| - |kept| ==> entry[i] <= Cutoff(now, window)
    requires i < |all| - |kept|
    ensures all[i] + window <= now
  {
    if i >= |all| - |entry| {
      assert all[i] == entry[i - (|all| - |entry|)];
    }
  }

  lemma AcceptedKeepsWindow(all: seq<Millis>, entry: seq<Millis>, kept: seq<Millis>, max: nat, window: nat, last: nat, now: Millis)
    requires Windowed(all, entry, max, window, last) && last <= now && 0 < now
    requires |kept| <= |entry| && kept == entry[|entry| - |kept|..]
    requires forall i :: 0 <= i < |entry| - |kept| ==> entry[i] <= Cutoff(now, window)
    requires |kept| < max
    ensures Windowed(all + [now], kept + [now], max, window, now)
  {
    var longer := all + [now];
    forall i | 0 <= i < |all| - |kept|
      ensures all[i] + window <= now
    {
      ExpiredIsOld(all, entry, kept, max, window, last, now, i);
    }
    assert kept == all[|all| - |kept|..];
    assert kept + [now] == longer[|longer| - |kept + [now]|..];
    forall j, k | 0 <= j <= k < |longer| && k == j + max
      ensures longer[j] + window <= longer[k]
    {
      assert k < |all| ==> all[j] + window <= all[k];
    }
  }

  lemma TimePasses(all: seq<Millis>, kept: seq<Millis>, max: nat, window: nat, last: nat, now: nat)
    requires Windowed(all, kept, max, window, last) && last <= now
    ensures Windowed(all, kept, max, window, now)
  {
  }

  datatype Check = Check(reportType: ReportType, now: Millis)

  /** The checks read a clock that does not go back, after the epoch. */
  predicate Forward(last: nat, checks: seq<Check>)
    decreases |checks|
  {
    checks == [] || (last <= checks[0].now && 0 < checks[0].now && Forward(checks[0].now, checks[1..]))
  }

  /** The times at which events of a type were accepted. */
  function Accepted(checks: seq<Check>, results: seq<Result<bool, RateError>>, t: ReportType): seq<Millis>
    requires |results| == |checks|
  {
    if checks == [] then [] else
      var n := |checks| - 1;
      Accepted(checks[..n], results[..n], t) +
      if results[n] == Ok(true) && checks[n].reportType == t then [checks[n].now] else []
  }

  lemma AcceptedMore(checks: seq<Check>, results: seq<Result<bool, RateError>>, t: ReportType, check: Check, result: Result<bool, RateError>)
    requires |results| == |checks|
    ensures Accepted(checks + [check], results + [result], t) ==
            Accepted(checks, results, t) + if result == Ok(true) && check.reportType == t then [check.now] else []
  {
    assert (checks + [check])[..|checks|] == checks && (results + [result])[..|results|] == results;
  }

  /** The events of `some` are among `all`, in order, at the indices `at`. */
  ghost predicate Embeds(some: seq<Millis>, all: seq<Millis>, at: seq<nat>) {
    && |at| == |some|
    && (forall i :: 0 <= i < |at| ==> at[i] < |all| && all[at[i]] == some[i])
    && (forall i, j :: 0 <= i < j < |at| ==> at[i] < at[j])
  }

  lemma EmbedsNone(all: seq<Millis>)
    ensures Embeds([], all, [])
  {
  }

  lemma AcceptsNone(t: ReportType)
    ensures Accepted([], [], t) == []
  {
  }

  lemma EmbedsMore(some: seq<Millis>, all: seq<Millis>, longer: seq<Millis>, at: seq<nat>, now: Millis, accepts: bool)
    requires Embeds(some, all, at) && (longer == all || longer == all + [now]) && (accepts ==> longer == all + [now])
    ensures Embeds(if accepts then some + [now] else some, longer, if accepts then at + [|longer| - 1] else at)
  {
  }

  lemma {:induction false} IndicesGrow(at: seq<nat>, i: nat, j: nat)
    requires i <= j < |at| && forall k, m :: 0 <= k < m < |at| ==> at[k] < at[m]
    ensures at[i] + (j - i) <= at[j]
  {
    if i < j {
      IndicesGrow(at, i, j - 1);
    }
  }

  lemma EmbeddedIsLimited(some: seq<Millis>, all: seq<Millis>, at: seq<nat>, max: nat, window: nat)
    requires Embeds(some, all, at) && Ascending(all) && Spaced(all, max, window)
    ensures forall i, j :: 0 <= i <= j < |some| && some[j] < some[i] + window ==> j - i + 1 <= max
  {
    forall i, j | 0 <= i <= j < |some| && some[j] < some[i] + window
      ensures j - i + 1 <= max
    {
      IndicesGrow(at, i, j);
      WindowsHoldAtMost(all, max, window, at[i], at[j]);
    }
  }

  const STATE_FILE := ".rate-limit-state.json"

  /** In every state since `from` the state file is the one before, loads as the next state, or is gone where it may be. */
  ghost predicate Seen(history: seq<map<string, File>>, from: nat, before: Option<File>, gone: bool, next: Option<Recent>) {
    forall k :: from <= k < |history| ==>
      var file := Lookup(history[k], STATE_FILE);
      file == before || (gone && file.None?) || (next.Some? && file.Some? && Loaded(file) == next)
  }

  /** The state a check writes, if it accepts. */
  ghost function NextState(recent: Recent, t: ReportType, now: Millis, max: nat, window: nat): Option<Recent> {
    if Survivors(Of(recent, t), Cutoff(now, window)) < max then Some(Admitted(recent, t, now, window)) else None
  }

  /** A process that starts from this file goes on within the limit, with or without the event of the check. */
  ghost predicate Resumes(file: Option<File>, all: Recent, t: ReportType, now: Millis, max: nat, window: nat) {
    && Loaded(file).Some?
    && (Follows(all, Loaded(file).value, max, window, now) || Follows(WithEvent(all, t, now), Loaded(file).value, max, window, now))
  }

  /** Whichever state of a tracked check an interruption leaves, the next process can go on from it. */
  lemma SeenResumes(history: seq<map<string, File>>, from: nat, file: Option<File>, all: Recent, t: ReportType, now: Millis, last: nat, max: nat, window: nat)
    requires Loaded(file).Some? && Follows(all, Loaded(file).value, max, window, last) && last <= now && 0 < now
    requires Seen(history, from, file, false, NextState(Loaded(file).value, t, now, max, window))
    ensures forall k :: from <= k < |history| ==> Resumes(Lookup(history[k], STATE_FILE), all, t, now, max, window)
  {
    hide Follows, Loaded, Survivors, Cutoff;
    var recent := Loaded(file).value;
    TimePassesForAll(all, recent, max, window, last, now);
    if Survivors(Of(recent, t), Cutoff(now, window)) < max {
      AcceptedKeepsAll(all, recent, t, max, window, last, now);
    }
  }

  lemma SeenBoth(past: seq<map<string, File>>, history: seq<map<string, File>>, from: nat,
                 before: Option<File>, mid: Option<File>, gone: bool, next: Option<Recent>)
    requires from <= |past| && past <= history && Seen(past, from, before, gone, None) && Seen(history, |past|, mid, false, next)
    requires mid == before || (gone && mid.None?)
    ensures Seen(history, from, before, gone, next)
  {
    hide Loaded;
    forall k | from <= k < |past|
      ensures history[k] == past[k]
    {
    }
  }

  lemma ReplacedIsSeen(base: map<string, File>, history: seq<map<string, File>>, from: nat, next: Recent)
    requires Bounded(next) && ReplacedWhole(base, history, from, STATE_FILE, Encode(next))
    ensures Seen(history, from, Lookup(base, STATE_FILE), false, Some(next))
  {
    hide Encode, Loaded;
    PersistedStatesReload(next);
  }

  /** Writing a state in pieces under a temporary name; what a piece would parse to is open. */
  method WriteTemporary(disk: Disk<string, File>, tmp: string, content: File, ghost base: map<string, File>, ghost from: nat) returns (complete: bool)
    requires tmp !in disk.files && disk.files == base && from <= |disk.history| && OnlyTemporary(base, disk.history, from, tmp)
    modifies disk
    ensures old(disk.history) <= disk.history && OnlyTemporary(base, disk.history, from, tmp)
    ensures tmp in disk.files && disk.files - {tmp} == base
    ensures complete ==> disk.files == base[tmp := content]
  {
    disk.Put(tmp, File(0, None));
    assert disk.files - {tmp} == base;
    var count := 0;
    while count < content.size
      invariant count <= content.size && tmp in disk.files && disk.files - {tmp} == base
      invariant old(disk.history) <= disk.history && OnlyTemporary(base, disk.history, from, tmp)
    {
      var interrupted: bool := *;
      if interrupted {
        return false;
      }
      var piece: int :| 1 <= piece <= content.size - count;
      var parsed: Option<Persisted> := *;
      count := count + piece;
      disk.Put(tmp, File(count, parsed));
      assert disk.files - {tmp} == base;
    }
    disk.Put(tmp, content);
    assert disk.files - {tmp} == base && disk.files == base[tmp := content];
    complete := true;
  }

  class Limiter {
    const window: nat
    const maxEvents: nat
    const disk: Disk<string, File>
    /** Every event recorded since the state file was last replaced, and the latest time seen. */
    ghost var recorded: Recent
    ghost var last: nat

    function StateFile(): Option<File>
      reads disk
    {
      Lookup(disk.files, STATE_FILE)
    }

    constructor (maxEvents: nat, window: nat, disk: Disk<string, File>)
      ensures this.disk == disk && this.window == window
      ensures StateFile().None? ==> Tracks()
      ensures this.maxEvents == if maxEvents < MAX_PERSISTED_EVENTS_PER_TYPE then maxEvents else MAX_PERSISTED_EVENTS_PER_TYPE
    {
      this.maxEvents := if maxEvents < MAX_PERSISTED_EVENTS_PER_TYPE then maxEvents else MAX_PERSISTED_EVENTS_PER_TYPE;
      this.window, this.disk := window, disk;
      recorded, last := map[], 0;
    }

    /** The state file holds, for each type, the recorded events that may still be in the window. */
    ghost predicate Tracks()
      reads this, disk
    {
      && maxEvents <= MAX_PERSISTED_EVENTS_PER_TYPE
      && Loaded(StateFile()).Some?
      && Follows(recorded, Loaded(StateFile()).value, maxEvents, window, last)
    }

    method LoadState() returns (state: Option<Recent>)
      ensures state == Loaded(StateFile())
      ensures state.Some? ==> Bounded(state.value)
    {
      var file := StateFile();
      if file.None? {
        return Some(map[]);
      }
      if file.value.size > MAX_RATE_STATE_BYTES || file.value.parsed.None?
         || file.value.parsed.value.version != RATE_STATE_VERSION {
        return None;
      }
      var entries := file.value.parsed.value.entries;
      var recent: Recent := map[];
      for i := 0 to |entries|
        invariant recent == Collected(entries[..i])
      {
        assert entries[..i + 1][..i] == entries[..i];
        recent := recent[entries[i].reportType := Latest(entries[i].timestamps)];
      }
      assert entries[..|entries|] == entries;
      CollectedIsBounded(entries);
      return Some(recent);
    }

    /**
      The new state is written in pieces beside the file and renamed over it: in every state the file is the
      old one or the new one, whole, and every other file is kept.
    */
    method PersistState(recent: Recent) returns (renamed: bool)
      requires Bounded(recent)
      modifies disk
      ensures StateFile() == if renamed then Some(Encode(recent)) else old(StateFile())
      ensures old(disk.history) <= disk.history
      ensures ReplacedWhole(old(disk.files), disk.history, |old(disk.history)|, STATE_FILE, Encode(recent))
    {
      hide OnlyTemporary, ReplacedWhole, Encode;
      ghost var base, from := disk.files, |disk.history|;
      var encoded := Encode(recent);
      var tmp: string := *;
      NothingYet(base, disk.history, from, tmp, STATE_FILE, encoded);
      if encoded.size > MAX_RATE_STATE_BYTES || tmp in disk.files || tmp == STATE_FILE {
        return false;
      }
      var complete := WriteTemporary(disk, tmp, encoded, base, from);
      ghost var past := disk.history;
      RenameReplaces(base, past, past, from, tmp, STATE_FILE, encoded);
      OthersKept(base, disk.files, tmp, STATE_FILE);
      if !complete {
        return false;
      }
      renamed := *;
      if !renamed {
        var removed: bool := *;
        if removed {
          DropTemporary(base, past, from, tmp);
          disk.Remove(tmp);
          RenameReplaces(base, disk.history, disk.history, from, tmp, STATE_FILE, encoded);
        }
        return;
      }
      RenameReplaces(base, past, past + [base[STATE_FILE := encoded]], from, tmp, STATE_FILE, encoded);
      disk.Rename(tmp, STATE_FILE);
      assert disk.files == base[STATE_FILE := encoded];
    }

    /** Renaming an unusable file away, which starts a new history; the rename or the sync after it may fail. */
    method Quarantine() returns (ok: bool)
      requires StateFile().Some?
      modifies disk, this`recorded
      ensures (StateFile(), recorded) == (old(StateFile()), old(recorded)) || (StateFile(), recorded) == (None, map[])
      ensures ok ==> StateFile().None?
      ensures old(disk.history) <= disk.history && Seen(disk.history, |old(disk.history)|, old(StateFile()), true, None)
    {
      var aside: string := *;
      if aside in disk.files || aside == STATE_FILE {
        return false;
      }
      disk.Rename(STATE_FILE, aside);
      recorded := map[];
      ok := *;
    }

    /** The events the file accounts for: an unusable file accounts for none. */
    ghost function Counted(): Recent
      reads this, disk
    {
      if Loaded(StateFile()).Some? then recorded else map[]
    }

    /**
      One check against the state file. An unusable file is renamed away first. While the file is the
      limiter's own and the clock does not go back, an accepted event keeps every window within the limit,
      and a refusal means the window is full. A check that met an unusable file never accepts: it is an
      error, or a refusal where nothing is ever accepted.
    */
    method CheckAndRecord(t: ReportType, now: Millis) returns (result: Result<bool, RateError>)
      requires maxEvents <= MAX_PERSISTED_EVENTS_PER_TYPE
      modifies this, disk
      ensures last == now
      ensures old(Tracks()) && old(last) <= now && 0 < now ==> Tracks()
      ensures old(Tracks()) && old(last) <= now && result == Ok(false) ==> IsFull(Of(recorded, t), maxEvents, Cutoff(now, window))
      ensures result.Ok? ==> (result.value <==> Survivors(Of(Usable(old(StateFile())), t), Cutoff(now, window)) < maxEvents)
      ensures result == Ok(true) ==> old(Loaded(StateFile())).Some? && recorded == WithEvent(old(recorded), t, now)
      ensures result == Ok(false) ==> recorded == old(Counted()) && StateFile() == if old(Loaded(StateFile())).Some? then old(StateFile()) else None
      ensures old(Loaded(StateFile())).None? ==> result.Err? || (result == Ok(false) && maxEvents == 0)
      ensures result == Err(Recovered) ==> old(Loaded(StateFile())).None? && recorded == WithEvent(map[], t, now)
      ensures recorded == old(recorded) || recorded == old(Counted()) || recorded == WithEvent(old(Counted()), t, now)
      ensures old(Loaded(StateFile())).None? && StateFile() != old(StateFile()) && 0 < now ==> Tracks()
      ensures old(Loaded(StateFile())).None? ==> StateFile() == old(StateFile()) || StateFile().None? || Loaded(StateFile()) == Some(WithEvent(map[], t, now))
      ensures old(disk.history) <= disk.history
      ensures Seen(disk.history, |old(disk.history)|, old(StateFile()), old(Loaded(StateFile())).None?,
                   NextState(Usable(old(StateFile())), t, now, maxEvents, window))
      ensures old(Tracks()) && old(last) <= now && 0 < now ==>
                forall k :: |old(disk.history)| <= k < |disk.history| ==>
                  Resumes(Lookup(disk.history[k], STATE_FILE), old(recorded), t, now, maxEvents, window)
    {
      ghost var file0, all := StateFile(), recorded;
      hide Follows, Survivors, IsFull, Cutoff;
      ghost var before := last;
      ghost var tracked := Tracks() && last <= now;
      last := now;
      var usable: bool := *;
      if !usable {
        if tracked {
          TimePassesForAll(recorded, Loaded(StateFile()).value, maxEvents, window, before, now);
        }
        return Err(Unreadable);
      }
      var state := LoadState();
      var recent: Recent := if state.Some? then state.value else map[];
      if state.None? {
        NothingFollows(maxEvents, window, now);
        var ok := Quarantine();
        if !ok {
          return Err(Unreadable);
        }
      }
      ghost var past, mid := disk.history, StateFile();
      result := DecideAndRecord(recent, t, now, state.None?, tracked, before);
      SeenBoth(past, disk.history, |old(disk.history)|, file0, mid, state.None?, NextState(recent, t, now, maxEvents, window));
      if tracked && 0 < now {
        SeenResumes(disk.history, |old(disk.history)|, file0, all, t, now, before, maxEvents, window);
      }
    }

    /** The decision on a loaded or restarted state, and the record of an acceptance. */
    method DecideAndRecord(recent: Recent, t: ReportType, now: Millis, restart: bool, ghost tracked: bool, ghost before: nat)
      returns (result: Result<bool, RateError>)
      requires Bounded(recent) && maxEvents <= MAX_PERSISTED_EVENTS_PER_TYPE && last == now
      requires tracked ==> !restart && Loaded(StateFile()) == Some(recent) && Follows(recorded, recent, maxEvents, window, before) && before <= now
      requires restart ==> recent == map[] && StateFile().None? && recorded == map[]
      modifies disk, this`recorded
      ensures result.Ok? ==> (result.value <==> Survivors(Of(recent, t), Cutoff(now, window)) < maxEvents)
      ensures result == Ok(true) ==> !restart && recorded == WithEvent(old(recorded), t, now)
      ensures result == Ok(false) ==> recorded == old(recorded) && StateFile() == old(StateFile()) && (restart ==> maxEvents == 0)
      ensures result == Ok(false) && tracked ==> IsFull(Of(recorded, t), maxEvents, Cutoff(now, window))
      ensures result == Err(Recovered) ==> restart && recorded == WithEvent(map[], t, now)
      ensures recorded == old(recorded) || recorded == WithEvent(old(recorded), t, now)
      ensures (tracked || restart) && 0 < now ==> Tracks()
      ensures restart ==> StateFile().None? || Loaded(StateFile()) == Some(WithEvent(map[], t, now))
      ensures old(disk.history) <= disk.history
      ensures Seen(disk.history, |old(disk.history)|, old(StateFile()), false, NextState(recent, t, now, maxEvents, window))
    {
      hide Follows, IsFull;
      var next := Decide(Of(recent, t), now);
      if tracked {
        TimePassesForAll(recorded, recent, maxEvents, window, before, now);
      } else if restart {
        NothingFollows(maxEvents, window, now);
      }
      if next.None? {
        if tracked {
          RefusedIsFull(recorded, recent, t, now, before);
        }
        return Ok(false);
      }
      var admitted := recent[t := next.value];
      assert Bounded(admitted) && admitted == Admitted(recent, t, now, window);
      var renamed := Record(recent, t, admitted, now, restart, tracked);
      var synced, timedOut: bool := *, *;
      if !renamed || !synced {
        return Err(NotPersisted);
      }
      if timedOut {
        return Err(TimedOut);
      }
      return if restart then Err(Recovered) else Ok(true);
    }

    lemma TrackedIsSpaced(t: ReportType)
      requires Tracks()
      ensures Ascending(Of(recorded, t)) && Spaced(Of(recorded, t), maxEvents, window)
    {
      assert FollowsFor(recorded, Loaded(StateFile()).value, t, maxEvents, window, last);
    }

    /** One check of a tracked run, as far as it concerns the events of one type. */
    method CheckNext(check: Check, ghost t: ReportType) returns (result: Result<bool, RateError>)
      requires Tracks() && last <= check.now && 0 < check.now
      modifies this, disk
      ensures Tracks() && last == check.now
      ensures Of(recorded, t) == old(Of(recorded, t)) || Of(recorded, t) == old(Of(recorded, t)) + [check.now]
      ensures result == Ok(true) && check.reportType == t ==> Of(recorded, t) == old(Of(recorded, t)) + [check.now]
    {
      result := CheckAndRecord(check.reportType, check.now);
    }

    /**
      Any sequence of checks by a clock that does not go back: of each type, no window of the configured
      length holds more than the maximum of accepted events.
    */
    method CheckAll(checks: seq<Check>, ghost t: ReportType) returns (results: seq<Result<bool, RateError>>)
      requires Tracks() && Forward(last, checks)
      modifies this, disk
      ensures Tracks() && |results| == |checks|
      ensures var accepted := Accepted(checks, results, t);
              forall i, j :: 0 <= i <= j < |accepted| && accepted[j] < accepted[i] + window ==> j - i + 1 <= maxEvents
    {
      hide Follows, Loaded, Of, Embeds, Accepted;
      results := [];
      ghost var accepted, at: seq<nat> := [], [];
      EmbedsNone(Of(recorded, t));
      AcceptsNone(t);
      for i := 0 to |checks|
        invariant |results| == i && Tracks() && Forward(last, checks[i..])
        invariant accepted == Accepted(checks[..i], results, t) && Embeds(accepted, Of(recorded, t), at)
      {
        var check := checks[i];
        assert checks[i..][0] == check && checks[i..][1..] == checks[i + 1..];
        assert checks[..i + 1] == checks[..i] + [check];
        ghost var was := Of(recorded, t);
        var result := CheckNext(check, t);
        AcceptedMore(checks[..i], results, t, check, result);
        results := results + [result];
        ghost var accepts := result == Ok(true) && check.reportType == t;
        EmbedsMore(accepted, was, Of(recorded, t), at, check.now, accepts);
        if accepts {
          accepted, at := accepted + [check.now], at + [|Of(recorded, t)| - 1];
        }
      }
      assert checks[..|checks|] == checks;
      TrackedIsSpaced(t);
      EmbeddedIsLimited(accepted, Of(recorded, t), at, maxEvents, window);
    }

    /** Storing an accepted event; a state that followed the recorded events, or starts anew, follows them still. */
    method Record(recent: Recent, t: ReportType, next: Recent, now: Millis, restart: bool, ghost tracked: bool)
      returns (renamed: bool)
      requires Bounded(next) && maxEvents <= MAX_PERSISTED_EVENTS_PER_TYPE && last == now
      requires next == Admitted(recent, t, now, window) && Survivors(Of(recent, t), Cutoff(now, window)) < maxEvents
      requires tracked ==> !restart && Follows(recorded, recent, maxEvents, window, now)
      requires restart ==> recent == map[]
      modifies disk, this`recorded
      ensures renamed ==> recorded == WithEvent(if restart then map[] else old(recorded), t, now) && Loaded(StateFile()) == Some(next)
      ensures !renamed ==> StateFile() == old(StateFile()) && recorded == old(recorded)
      ensures old(disk.history) <= disk.history
      ensures Seen(disk.history, |old(disk.history)|, old(StateFile()), false, Some(next))
      ensures renamed && 0 < now && (tracked || restart) ==> Tracks()
    {
      hide Follows, Survivors, Cutoff;
      ghost var all := if restart then map[] else recorded;
      if 0 < now {
        if tracked {
          AcceptedKeepsAll(all, recent, t, maxEvents, window, now, now);
        } else if restart {
          FirstEventIsTracked(t, maxEvents, window, now);
        }
      }
      renamed := PersistState(next);
      ReplacedIsSeen(old(disk.files), disk.history, |old(disk.history)|, next);
      if renamed {
        PersistedStatesReload(next);
        recorded := WithEvent(all, t, now);
      }
    }

    /** The window once the expired events are gone, with the event added, or nothing if it is full. */
    method Decide(entry: seq<Millis>, now: Millis) returns (next: Option<seq<Millis>>)
      ensures next.None? <==> Survivors(entry, Cutoff(now, window)) >= maxEvents
      ensures next.Some? ==> next.value == Survived(entry, Cutoff(now, window)) + [now] && |next.value| <= maxEvents
    {
      var kept := Expire(entry, Cutoff(now, window));
      assert |kept| == Survivors(entry, Cutoff(now, window));
      next := if |kept| >= maxEvents then None else Some(kept + [now]);
    }

    lemma RefusedIsFull(all: Recent, recent: Recent, t: ReportType, now: Millis, before: nat)
      requires Follows(all, recent, maxEvents, window, before)
      requires Survivors(Of(recent, t), Cutoff(now, window)) >= maxEvents
      ensures IsFull(Of(all, t), maxEvents, Cutoff(now, window))
    {
      var times, entry := Of(all, t), Of(recent, t);
      assert FollowsFor(all, recent, t, maxEvents, window, before);
      SurvivorsAreYoung(entry, Cutoff(now, window));
      forall i | |times| - maxEvents <= i < |times|
        ensures times[i] > Cutoff(now, window)
      {
        assert times[i] == entry[i - (|times| - |entry|)];
      }
    }
  }

  lemma AcceptedKeepsType(all: Recent, recent: Recent, t: ReportType, max: nat, window: nat, before: nat, now: Millis)
    requires FollowsFor(all, recent, t, max, window, before) && before <= now && 0 < now
    requires Survivors(Of(recent, t), Cutoff(now, window)) < max
    ensures FollowsFor(WithEvent(all, t, now), Admitted(recent, t, now, window), t, max, window, now)
  {
    var times, kept := Of(all, t) + [now], Survived(Of(recent, t), Cutoff(now, window)) + [now];
    AdmittedKeepsWindow(Of(all, t), Of(recent, t), max, window, before, now);
    Rewrap(WithEvent(all, t, now), Admitted(recent, t, now, window), t, times, kept, max, window, now);
  }

  lemma AdmittedKeepsWindow(all: seq<Millis>, entry: seq<Millis>, max: nat, window: nat, before: nat, now: Millis)
    requires Windowed(all, entry, max, window, before) && before <= now && 0 < now
    requires Survivors(entry, Cutoff(now, window)) < max
    ensures Windowed(all + [now], Survived(entry, Cutoff(now, window)) + [now], max, window, now)
  {
    ExpiredAreOld(entry, Cutoff(now, window));
    AcceptedKeepsWindow(all, entry, Survived(entry, Cutoff(now, window)), max, window, before, now);
  }

  lemma Rewrap(all: Recent, recent: Recent, t: ReportType, times: seq<Millis>, kept: seq<Millis>, max: nat, window: nat, last: nat)
    requires Of(all, t) == times && Of(recent, t) == kept && Windowed(times, kept, max, window, last)
    ensures FollowsFor(all, recent, t, max, window, last)
  {
  }

  lemma AcceptedKeepsOthers(all: Recent, recent: Recent, t: ReportType, u: ReportType, max: nat, window: nat, before: nat, now: Millis)
    requires FollowsFor(all, recent, u, max, window, before) && before <= now && u != t
    ensures FollowsFor(WithEvent(all, t, now), Admitted(recent, t, now, window), u, max, window, now)
  {
    TimePasses(Of(all, u), Of(recent, u), max, window, before, now);
    Rewrap(WithEvent(all, t, now), Admitted(recent, t, now, window), u, Of(all, u), Of(recent, u), max, window, now);
  }

  lemma AcceptedKeepsAll(all: Recent, recent: Recent, t: ReportType, max: nat, window: nat, before: nat, now: Millis)
    requires Follows(all, recent, max, window, before) && before <= now && 0 < now
    requires Survivors(Of(recent, t), Cutoff(now, window)) < max
    ensures Follows(WithEvent(all, t, now), Admitted(recent, t, now, window), max, window, now)
  {
    var longer, next := WithEvent(all, t, now), Admitted(recent, t, now, window);
    forall u
      ensures FollowsFor(longer, next, u, max, window, now)
    {
      assert FollowsFor(all, recent, u, max, window, before);
      if u == t {
        AcceptedKeepsType(all, recent, t, max, window, before, now);
      } else {
        AcceptedKeepsOthers(all, recent, t, u, max, window, before, now);
      }
    }
  }

  lemma FirstEventIsTracked(t: ReportType, max: nat, window: nat, now: Millis)
    requires 0 < max && 0 < now
    ensures Follows(WithEvent(map[], t, now), Admitted(map[], t, now, window), max, window, now)
  {
    AcceptedKeepsAll(map[], map[], t, max, window, now, now);
  }
}
