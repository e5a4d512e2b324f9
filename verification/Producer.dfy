/**
  The producer threads (producer/crash_monitor_producer.h) claiming publication
  units with try-once seqlocks (schema/crash_shm_atomic.h).

  One step is one atomic access or one plain store of one thread. The target may
  be suspended between any two steps, so what holds of every reachable state
  holds of every snapshot. `history`, `releases` and the return codes are kept
  for specification; the rest is the shared region and the threads' locals.
*/
module Producer {
  import opened Wrappers
  import opened SharedRegion

  /** A thread: the next access of the call it is in, with the call's locals. */
  datatype Thread =
    | Returned(code: int)
    // add_breadcrumb
    | LoadCount(slot: nat, crumb: Crumb)
    | ObserveRegistry(slot: nat, crumb: Crumb)
    | ClaimRegistry(slot: nat, crumb: Crumb, seen: nat)
    | ReloadCount(slot: nat, crumb: Crumb, registryOdd: nat)
    | ObserveRing(slot: nat, crumb: Crumb, count: nat, registryOdd: nat)
    | ClaimRing(slot: nat, crumb: Crumb, count: nat, registryOdd: nat, seen: nat)
    | PrepareCrumb(slot: nat, crumb: Crumb, count: nat, registryOdd: nat, odd: nat)
    | WriteCrumb(slot: nat, crumb: Crumb, count: nat, registryOdd: nat, odd: nat, pending: Memory)
    | StoreCount(slot: nat, count: nat, registryOdd: nat)
    | EndRegistry(registryOdd: nat, code: int)
    // the single-unit calls
    | Observe(call: Call)
    | Claim(call: Call, seen: nat)
    | Prepare(call: Call, odd: nat)
    | Write(call: Call, odd: nat, pending: Memory)
    | Refuse(call: Call, odd: nat)
    // mark_ready
    | StoreReady

  datatype State = State(
    generation: map<Unit, nat>, memory: map<Unit, Memory>, ringCount: nat,
    heartbeat: nat, ready: nat,
    threads: seq<Thread>,
    history: map<Unit, seq<Call>>, releases: map<Unit, nat>)

  /** Look-ups in the per-unit maps; a unit never touched is zeroed. */
  function Word(words: map<Unit, nat>, u: Unit): nat { if u in words then words[u] else 0 }
  function Cells(memory: map<Unit, Memory>, u: Unit): Memory { if u in memory then memory[u] else map[] }
  function Log(history: map<Unit, seq<Call>>, u: Unit): seq<Call> { if u in history then history[u] else [] }

  predicate Odd(n: nat) { n % 2 == 1 }

  /** What a scheduled thread does next, where it has a choice. */
  datatype Choice =
    | Begin(call: Call)             // start a call
    | Beat                          // heartbeat, at any time
    | BeginReady                    // mark_ready: heartbeat first, then the flag
    | Go                            // the thread's next access
    | Store(address: Address)       // one pending plain store completes
    | Tear(address: Address, junk: Value)  // one pending plain store is half done

  function SetThread(s: State, t: nat, p: Thread): State
    requires t < |s.threads|
  {
    s.(threads := s.threads[t := p])
  }

  /** Compare-exchange from an even observation to the odd token. */
  function Acquire(s: State, u: Unit, seen: nat): State {
    s.(generation := s.generation[u := Wrap(seen + 1)])
  }

  /** Release-store of the token's successor. */
  function Release(s: State, u: Unit, odd: nat): State {
    s.(generation := s.generation[u := Wrap(odd + 1)], releases := s.releases[u := Word(s.releases, u) + 1])
  }

  function Complete(s: State, u: Unit, call: Call): State {
    s.(history := s.history[u := Log(s.history, u) + [call]])
  }

  const CATEGORY_MAX: nat := 10
  const SEVERITY_MAX: nat := 2
  const SCREENSHOT_SLOTS: nat := 96
  const SCREENSHOT_BYTES: nat := 480 * 270 * 4

  /** The argument checks made before anything is touched. */
  predicate Accepted(call: Call) {
    match call
    case AddBreadcrumb(slot, c) => slot < MAX_THREADS && c.category <= CATEGORY_MAX && c.severity <= SEVERITY_MAX
    case PublishScreenshot(slot, _, _, pixels) => slot < SCREENSHOT_SLOTS && |pixels| == SCREENSHOT_BYTES
    case _ => true
  }

  function Start(call: Call): Thread {
    if !Accepted(call) then Returned(-1)
    else match call
      case AddBreadcrumb(slot, crumb) => LoadCount(slot, crumb)
      case _ => Observe(call)
  }

  /** Releasing the registry only when its token is nonzero. */
  function AfterFailedRing(registryOdd: nat): Thread {
    if registryOdd != 0 then EndRegistry(registryOdd, 1) else Returned(1)
  }

  /** Where a thread stands after its next access. */
  function Position(s: State, p: Thread): Thread {
    match p
    case Returned(_) => p
    case LoadCount(slot, crumb) =>
      if s.ringCount <= slot then ObserveRegistry(slot, crumb) else ObserveRing(slot, crumb, s.ringCount, 0)
    case ObserveRegistry(slot, crumb) =>
      if Odd(Word(s.generation, Registry)) then Returned(1) else ClaimRegistry(slot, crumb, Word(s.generation, Registry))
    case ClaimRegistry(slot, crumb, seen) =>
      if Word(s.generation, Registry) != seen then Returned(1) else ReloadCount(slot, crumb, Wrap(seen + 1))
    case ReloadCount(slot, crumb, registryOdd) =>
      ObserveRing(slot, crumb, s.ringCount, registryOdd)
    case ObserveRing(slot, crumb, count, registryOdd) =>
      var seen := Word(s.generation, Ring(slot));
      if Odd(seen) then AfterFailedRing(registryOdd) else ClaimRing(slot, crumb, count, registryOdd, seen)
    case ClaimRing(slot, crumb, count, registryOdd, seen) =>
      if Word(s.generation, Ring(slot)) != seen then AfterFailedRing(registryOdd)
      else PrepareCrumb(slot, crumb, count, registryOdd, Wrap(seen + 1))
    case PrepareCrumb(slot, crumb, count, registryOdd, odd) =>
      var stores := StoresOf(AddBreadcrumb(slot, crumb), Cells(s.memory, Ring(slot)));
      WriteCrumb(slot, crumb, count, registryOdd, odd, stores.value)
    case WriteCrumb(slot, crumb, count, registryOdd, odd, pending) =>
      if pending != map[] then p else StoreCount(slot, count, registryOdd)
    case StoreCount(slot, count, registryOdd) =>
      if registryOdd != 0 then EndRegistry(registryOdd, 0) else Returned(0)
    case EndRegistry(registryOdd, code) => Returned(code)
    case Observe(call) =>
      var seen := Word(s.generation, UnitOf(call));
      if Odd(seen) then Returned(1) else Claim(call, seen)
    case Claim(call, seen) =>
      if Word(s.generation, UnitOf(call)) != seen then Returned(1) else Prepare(call, Wrap(seen + 1))
    case Prepare(call, odd) =>
      var stores := StoresOf(call, Cells(s.memory, UnitOf(call)));
      if stores.Some? then Write(call, odd, stores.value) else Refuse(call, odd)
    case Write(call, odd, pending) => if pending != map[] then p else Returned(0)
    case Refuse(call, odd) => Returned(-1)
    case StoreReady => Returned(0)
  }

  /** What the access does to the shared words. */
  function Effect(s: State, p: Thread): (n: State)
    ensures n.threads == s.threads
  {
    match p
    case ClaimRegistry(_, _, seen) =>
      if Word(s.generation, Registry) == seen then Acquire(s, Registry, seen) else s
    case ClaimRing(slot, _, _, _, seen) =>
      if Word(s.generation, Ring(slot)) == seen then Acquire(s, Ring(slot), seen) else s
    case WriteCrumb(slot, crumb, _, _, odd, pending) =>
      if pending == map[] then Complete(Release(s, Ring(slot), odd), Ring(slot), AddBreadcrumb(slot, crumb)) else s
    case StoreCount(slot, count, _) => if count <= slot then s.(ringCount := slot + 1) else s
    case EndRegistry(registryOdd, _) => Release(s, Registry, registryOdd)
    case Claim(call, seen) =>
      if Word(s.generation, UnitOf(call)) == seen then Acquire(s, UnitOf(call), seen) else s
    case Write(call, odd, pending) =>
      if pending == map[] then Complete(Release(s, UnitOf(call), odd), UnitOf(call), call) else s
    case Refuse(call, odd) => Release(s, UnitOf(call), odd)
    case StoreReady => s.(ready := 1)
    case _ => s
  }

  function Advance(s: State, t: nat): State
    requires t < |s.threads|
  {
    SetThread(Effect(s, s.threads[t]), t, Position(s, s.threads[t]))
  }

  function Poke(s: State, u: Unit, a: Address, v: Value): State {
    s.(memory := s.memory[u := Cells(s.memory, u)[a := v]])
  }

  const U64: nat := 0x1_0000_0000_0000_0000

  function Next(s: State, t: nat, c: Choice): (n: State)
    requires t < |s.threads|
    ensures |n.threads| == |s.threads|
    ensures forall r :: 0 <= r < |s.threads| && r != t ==> n.threads[r] == s.threads[r]
  {
    var p := s.threads[t];
    match c
    case Begin(call) => if p.Returned? then SetThread(s, t, Start(call)) else s
    case Beat => if p.Returned? then s.(heartbeat := (s.heartbeat + 1) % U64) else s
    case BeginReady => if p.Returned? then SetThread(s.(heartbeat := (s.heartbeat + 1) % U64), t, StoreReady) else s
    case Go => Advance(s, t)
    case Store(a) =>
      if (p.Write? || p.WriteCrumb?) && a in p.pending
      then SetThread(Poke(s, WorkUnit(p), a, p.pending[a]), t, p.(pending := p.pending - {a})) else s
    case Tear(a, junk) =>
      if (p.Write? || p.WriteCrumb?) && a in p.pending then Poke(s, WorkUnit(p), a, junk) else s
  }

  /** Any number of threads over a zeroed region. */
  predicate Initial(s: State) {
    && s.generation == map[] && s.memory == map[] && s.history == map[] && s.releases == map[]
    && s.ringCount == 0 && s.heartbeat == 0 && s.ready == 0
    && forall t :: 0 <= t < |s.threads| ==> s.threads[t] == Returned(0)
  }

  datatype Event = Event(thread: nat, choice: Choice)

  /** The state after a schedule; events of threads that do not exist are ignored. */
  function Run(s: State, events: seq<Event>): State {
    if events == [] then s
    else
      var before := Run(s, events[..|events| - 1]);
      var e := events[|events| - 1];
      if e.thread < |before.threads| then Next(before, e.thread, e.choice) else before
  }

  // ---- invariants -----------------------------------------------------------

  /** The units a thread owns, each with the odd token it was claimed with. */
  function Tokens(p: Thread): map<Unit, nat> {
    match p
    case ReloadCount(_, _, registryOdd) => RegistryToken(registryOdd)
    case ObserveRing(_, _, _, registryOdd) => RegistryToken(registryOdd)
    case ClaimRing(_, _, _, registryOdd, _) => RegistryToken(registryOdd)
    case PrepareCrumb(slot, _, _, registryOdd, odd) => RegistryToken(registryOdd)[Ring(slot) := odd]
    case WriteCrumb(slot, _, _, registryOdd, odd, _) => RegistryToken(registryOdd)[Ring(slot) := odd]
    case StoreCount(_, _, registryOdd) => RegistryToken(registryOdd)
    case EndRegistry(registryOdd, _) => map[Registry := registryOdd]
    case Prepare(call, odd) => map[UnitOf(call) := odd]
    case Write(call, odd, _) => map[UnitOf(call) := odd]
    case Refuse(call, odd) => map[UnitOf(call) := odd]
    case _ => map[]
  }

  /** The registry token's nonzero test doubles as the "held" flag. */
  function RegistryToken(registryOdd: nat): map<Unit, nat> {
    if registryOdd != 0 then map[Registry := registryOdd] else map[]
  }

  type Holdings = seq<map<Unit, nat>>

  function Held(threads: seq<Thread>): (h: Holdings)
    ensures |h| == |threads| && forall t :: 0 <= t < |h| ==> h[t] == Tokens(threads[t])
  {
    seq(|threads|, t requires 0 <= t < |threads| => Tokens(threads[t]))
  }

  /** Every token is the unit's current generation, which is odd. */
  ghost predicate TokensCurrent(words: map<Unit, nat>, held: Holdings) {
    forall t, u :: 0 <= t < |held| && u in held[t] ==> held[t][u] == Word(words, u) && Odd(Word(words, u))
  }

  ghost predicate OneHolder(held: Holdings) {
    forall t, r, u :: 0 <= t < |held| && 0 <= r < |held| && u in held[t] && u in held[r] ==> t == r
  }

  ghost predicate HasHolder(held: Holdings, u: Unit) {
    exists t :: 0 <= t < |held| && u in held[t]
  }

  /** An odd generation has a holder, and generations count releases modulo 2^32. */
  ghost predicate GenerationsCount(words: map<Unit, nat>, releases: map<Unit, nat>, held: Holdings) {
    forall u :: (Odd(Word(words, u)) ==> HasHolder(held, u)) &&
                Word(words, u) == Wrap(2 * Word(releases, u) + (if Odd(Word(words, u)) then 1 else 0))
  }

  ghost predicate LockInv(words: map<Unit, nat>, releases: map<Unit, nat>, held: Holdings) {
    TokensCurrent(words, held) && OneHolder(held) && GenerationsCount(words, releases, held)
  }

  /** What a thread's locals satisfy on their own. */
  predicate LocalsOk(p: Thread) {
    match p
    case LoadCount(slot, _) => slot < MAX_THREADS
    case ObserveRegistry(slot, _) => slot < MAX_THREADS
    case ClaimRegistry(slot, _, seen) => slot < MAX_THREADS && !Odd(seen)
    case ReloadCount(slot, _, registryOdd) => slot < MAX_THREADS && registryOdd != 0
    case ObserveRing(slot, _, _, _) => slot < MAX_THREADS
    case ClaimRing(slot, _, _, _, seen) => slot < MAX_THREADS && !Odd(seen)
    case PrepareCrumb(slot, _, _, _, _) => slot < MAX_THREADS
    case WriteCrumb(slot, _, _, _, _, _) => slot < MAX_THREADS
    case StoreCount(slot, _, _) => slot < MAX_THREADS
    case EndRegistry(registryOdd, _) => registryOdd != 0
    case Observe(call) => !call.AddBreadcrumb?
    case Claim(call, seen) => !call.AddBreadcrumb? && !Odd(seen)
    case Prepare(call, _) => !call.AddBreadcrumb?
    case Write(call, _, _) => !call.AddBreadcrumb?
    case Refuse(call, _) => !call.AddBreadcrumb? && !call.PublishScreenshot?
    case _ => true
  }

  predicate Counting(p: Thread) {
    p.ObserveRing? || p.ClaimRing? || p.PrepareCrumb? || p.WriteCrumb? || p.StoreCount?
  }

  /** With the registry the loaded count is current; without it the slot was already registered. */
  ghost predicate CountKnown(ringCount: nat, p: Thread) {
    Counting(p) ==> if p.registryOdd != 0 then p.count == ringCount else p.slot < p.count <= ringCount
  }

  predicate Working(p: Thread) {
    p.PrepareCrumb? || p.WriteCrumb? || p.Prepare? || p.Write? || p.Refuse?
  }

  function WorkUnit(p: Thread): Unit
    requires Working(p)
  {
    if p.PrepareCrumb? || p.WriteCrumb? then Ring(p.slot) else UnitOf(p.call)
  }

  function Pending(p: Thread): Memory {
    if p.WriteCrumb? || p.Write? then p.pending else map[]
  }

  function Promised(p: Thread): seq<Call> {
    if p.WriteCrumb? then [AddBreadcrumb(p.slot, p.crumb)] else if p.Write? then [p.call] else []
  }

  /** Once its pending stores are done, the unit a thread works on shows the history it promises. */
  ghost predicate WorkInv(memory: map<Unit, Memory>, history: map<Unit, seq<Call>>, p: Thread) {
    Working(p) ==>
      Shows(WorkUnit(p), Cells(memory, WorkUnit(p)) + Pending(p), Log(history, WorkUnit(p)) + Promised(p))
  }

  ghost predicate ThreadInv(s: State, p: Thread) {
    && LocalsOk(p)
    && CountKnown(s.ringCount, p)
    && WorkInv(s.memory, s.history, p)
    && (p.StoreCount? ==> Log(s.history, Ring(p.slot)) != [])
  }

  ghost predicate ThreadsInv(s: State) {
    forall t :: 0 <= t < |s.threads| ==> ThreadInv(s, s.threads[t])
  }

  /** Each unit with an even generation shows exactly its completed history. */
  ghost predicate StableUnits(words: map<Unit, nat>, memory: map<Unit, Memory>, history: map<Unit, seq<Call>>) {
    forall u :: u != Registry && !Odd(Word(words, u)) ==> Shows(u, Cells(memory, u), Log(history, u))
  }

  /** The thread is about to store the registration of `slot`. */
  predicate Registers(p: Thread, slot: nat) {
    p.StoreCount? && p.slot == slot && p.count <= slot && p.registryOdd != 0
  }

  ghost predicate AboutToRegister(threads: seq<Thread>, slot: nat) {
    exists t :: 0 <= t < |threads| && Registers(threads[t], slot)
  }

  /** A ring with a completed crumb is registered or about to be, and the last registered ring has one. */
  ghost predicate RegistryInv(ringCount: nat, threads: seq<Thread>, history: map<Unit, seq<Call>>) {
    && ringCount <= MAX_THREADS
    && (ringCount > 0 ==> Log(history, Ring(ringCount - 1)) != [])
    && (forall slot :: 0 <= slot < MAX_THREADS && Log(history, Ring(slot)) != [] ==>
                         slot < ringCount || AboutToRegister(threads, slot))
  }

  /** Every release of a screenshot slot completes a publication. */
  ghost predicate ScreenshotsCount(releases: map<Unit, nat>, history: map<Unit, seq<Call>>) {
    forall u: Unit :: u.Screenshot? ==> Word(releases, u) == |Log(history, u)|
  }

  ghost predicate Inv(s: State) {
    && LockInv(s.generation, s.releases, Held(s.threads))
    && ThreadsInv(s)
    && StableUnits(s.generation, s.memory, s.history)
    && RegistryInv(s.ringCount, s.threads, s.history)
    && ScreenshotsCount(s.releases, s.history)
  }
}
