/**
  The clock of the ANR watchdog (src/event_loop.rs, src/watchdog.rs). Every spell of the
  monitor's own work is recorded with its instants and with what the watchdog was told;
  application time is wall-clock time outside those spells, and only it is told, once.
  Instants and durations are nanoseconds.
*/
module AnrClock {
  import opened Wrappers
  import opened Watchdog

  const NANOS_PER_MILLI := 1_000_000
  /** Instants count whole seconds in 63 bits. */
  const INSTANT_LIMIT := 0x8000_0000_0000_0000 * 1_000_000_000

  function SaturatingSince(later: nat, earlier: nat): nat {
    if later < earlier then 0 else later - earlier
  }

  function Millis(duration: nat): nat {
    duration / 1_000_000
  }

  /** The conversion of an elapsed time for a tick, which keeps the low 64 bits. */
  function TickMillis(duration: nat): nat {
    Millis(duration) % 0x1_0000_0000_0000_0000
  }

  /** The conversion for a rebase, which saturates. */
  function RebaseMillis(duration: nat): nat {
    if Millis(duration) > U64_MAX then U64_MAX else Millis(duration)
  }

  function ExcludeMonitorWork(last: nat, started: nat, finished: nat): nat {
    var adjusted := last + SaturatingSince(finished, started);
    if adjusted >= INSTANT_LIMIT || adjusted > finished then finished else adjusted
  }

  /** On ordered instants the elapsed time later measured is the application's, before and after the work. */
  lemma ExclusionIsExact(last: nat, started: nat, finished: nat, now: nat)
    requires last <= started <= finished <= now && finished < INSTANT_LIMIT
    ensures now - ExcludeMonitorWork(last, started, finished) == (started - last) + (now - finished)
  {
  }

  /** On any instants at all the baseline never passes the end of the work, and moves there when it cannot be exact. */
  lemma ExclusionNeverOvershoots(last: nat, started: nat, finished: nat)
    requires finished < INSTANT_LIMIT
    ensures ExcludeMonitorWork(last, started, finished) <= finished
    ensures ExcludeMonitorWork(last, started, finished) == last + SaturatingSince(finished, started) <==>
            last + SaturatingSince(finished, started) <= finished
  {
  }

  lemma MillisBelow(duration: nat)
    ensures TickMillis(duration) * NANOS_PER_MILLI <= duration
    ensures RebaseMillis(duration) * NANOS_PER_MILLI <= duration
  {
    var m := Millis(duration);
    assert m * NANOS_PER_MILLI <= duration;
    assert TickMillis(duration) <= m && RebaseMillis(duration) <= m;
  }

  /** One turn of the event loop, with the instants its clock reads. */
  datatype Turn =
    /** A wait that timed out; an ANR it detects is captured until `captured`, and then sampled again. */
    | Timeout(now: nat, sample: Option<nat>, sampled: nat, captured: nat, resample: Option<nat>)
    | Snapshot(started: nat, finished: nat, sample: Option<nat>)

  predicate Ordered(time: nat, turn: Turn) {
    match turn
    case Timeout(now, _, sampled, captured, _) => time <= now <= sampled <= captured < INSTANT_LIMIT
    case Snapshot(started, finished, _) => time <= started <= finished < INSTANT_LIMIT
  }

  function TurnEnd(turn: Turn): nat {
    match turn
    case Timeout(_, _, _, captured, _) => captured
    case Snapshot(_, finished, _) => finished
  }

  /** The turns read a clock that never goes back. */
  predicate Monotone(time: nat, turns: seq<Turn>)
    decreases |turns|
  {
    turns == [] || (Ordered(time, turns[0]) && Monotone(TurnEnd(turns[0]), turns[1..]))
  }

  // Spells of monitor work

  /** One spell of monitor work: what the watchdog was told when it began, and whether the time told about stays due. */
  datatype Spell = Spell(event: Event, began: nat, ended: nat, kept: bool)

  function Events(spells: seq<Spell>): (events: seq<Event>)
    ensures |events| == |spells| && forall i :: 0 <= i < |spells| ==> events[i] == spells[i].event
  {
    seq(|spells|, i requires 0 <= i < |spells| => spells[i].event)
  }

  /** When the application last got the machine back, before spell `n`. */
  function Resumed(start: nat, spells: seq<Spell>, n: nat): nat
    requires n <= |spells|
  {
    if n == 0 then start else spells[n - 1].ended
  }

  /** The time spells `from` up to `to` took. */
  function MonitorTime(spells: seq<Spell>, from: nat, to: nat): nat
    requires from <= to <= |spells|
  {
    if from == to then 0 else MonitorTime(spells, from, to - 1) + SaturatingSince(spells[to - 1].ended, spells[to - 1].began)
  }

  /** How long the application ran from the end of spell `from - 1` until `time`: wall-clock time less the monitor's. */
  function Running(start: nat, spells: seq<Spell>, from: nat, to: nat, time: nat): int
    requires from <= to <= |spells|
  {
    time - Resumed(start, spells, from) - MonitorTime(spells, from, to)
  }

  /** Application time not yet told after the first `n` spells. */
  function Due(start: nat, spells: seq<Spell>, n: nat, time: nat): nat
    requires n <= |spells|
  {
    SaturatingSince(time, Resumed(start, spells, n)) +
    if n > 0 && spells[n - 1].kept then Due(start, spells, n - 1, spells[n - 1].began) else 0
  }

  /** What a spell tells: a tick or a changed heartbeat all that is due, an unchanged one nothing yet. */
  predicate Tells(spell: Spell, due: nat) {
    match spell.event
    case Tick(_, elapsed) => elapsed == TickMillis(due) && !spell.kept
    case Rebase(_, elapsed) => elapsed == if spell.kept then 0 else RebaseMillis(due)
  }

  ghost predicate FairAt(c: Config, w: Watch, start: nat, spells: seq<Spell>, k: nat)
    requires k < |spells|
  {
    && Resumed(start, spells, k) <= spells[k].began <= spells[k].ended
    && Tells(spells[k], Due(start, spells, k, spells[k].began))
    && (spells[k].kept <==> Preserves(Run(c, w, Events(spells), k), spells[k].event))
  }

  ghost predicate Fair(c: Config, w: Watch, start: nat, spells: seq<Spell>) {
    forall k :: 0 <= k < |spells| ==> FairAt(c, w, start, spells, k)
  }

  // The spells of a sequence of turns

  /** The work from `started` to `finished` after which the heartbeat reads `sample`. */
  function WorkSpell(c: Config, w: Watch, start: nat, spells: seq<Spell>, started: nat, finished: nat, sample: Option<nat>): Spell {
    var kept := sample.Some? && sample == Run(c, w, Events(spells), |spells|).heartbeat;
    Spell(Rebase(sample, if kept then 0 else RebaseMillis(Due(start, spells, |spells|, started))), started, finished, kept)
  }

  /** The spells after a turn: each snapshot, each check that is due, and each capture of a detected hang. */
  function AfterTurn(c: Config, w: Watch, interval: nat, start: nat, spells: seq<Spell>, turn: Turn): seq<Spell> {
    match turn
    case Snapshot(started, finished, sample) =>
      spells + [WorkSpell(c, w, start, spells, started, finished, sample)]
    case Timeout(now, sample, sampled, captured, resample) =>
      var due := Due(start, spells, |spells|, now);
      if TickMillis(due) < interval then spells else
        var checked := spells + [Spell(Tick(sample, TickMillis(due)), now, sampled, false)];
        if FiredAt(c, w, Events(checked), |spells|).None? then checked
        else checked + [WorkSpell(c, w, start, checked, sampled, captured, resample)]
  }

  function AfterTurns(c: Config, w: Watch, interval: nat, start: nat, spells: seq<Spell>, turns: seq<Turn>): seq<Spell> {
    if turns == [] then spells
    else AfterTurn(c, w, interval, start, AfterTurns(c, w, interval, start, spells, turns[..|turns| - 1]), turns[|turns| - 1])
  }

  /** The monitor-owned time of a turn: a snapshot's, a due check's sampling, and the capture of a hang it detects. */
  function WorkOf(c: Config, w: Watch, interval: nat, start: nat, spells: seq<Spell>, turn: Turn): nat {
    match turn
    case Snapshot(started, finished, _) => SaturatingSince(finished, started)
    case Timeout(now, sample, sampled, captured, _) =>
      var elapsed := TickMillis(Due(start, spells, |spells|, now));
      if elapsed < interval then 0
      else SaturatingSince(sampled, now) +
           if Fired(c, Run(c, w, Events(spells), |spells|), Tick(sample, elapsed)).Some? then SaturatingSince(captured, sampled) else 0
  }

  function TotalWork(c: Config, w: Watch, interval: nat, start: nat, spells: seq<Spell>, turns: seq<Turn>): nat {
    if turns == [] then 0 else
      var before := turns[..|turns| - 1];
      TotalWork(c, w, interval, start, spells, before) +
      WorkOf(c, w, interval, start, AfterTurns(c, w, interval, start, spells, before), turns[|turns| - 1])
  }

  class AnrLoop {
    const config: Config
    const interval: nat
    const watchdog: WatchdogState
    var last: nat
    /** Where the clock and the watchdog started, and the monitor's work since. */
    ghost const start: nat
    ghost const initial: Watch
    ghost var spells: seq<Spell>

    /** The baseline leaves exactly the time due; each spell was told fairly, and the watchdog has heard them all. */
    ghost predicate Balanced(time: nat)
      reads this, watchdog
    {
      && last <= time && Resumed(start, spells, |spells|) <= time
      && time - last == Due(start, spells, |spells|, time)
      && watchdog.View() == Run(config, initial, Events(spells), |spells|)
      && Fair(config, initial, start, spells)
    }

    constructor (config: Config, interval: nat, warmup: nat, sample: Option<nat>, now: nat)
      ensures Balanced(now) && fresh(watchdog)
      ensures this.config == config && this.interval == interval && start == now && spells == [] && Fresh(initial)
      ensures initial.heartbeat == sample && initial.warmup == warmup
    {
      this.config, this.interval := config, interval;
      var w := new WatchdogState(warmup, sample);
      watchdog := w;
      initial := Watch(warmup, warmup, sample, 0, 0);
      last, start, spells := now, now, [];
    }

    /** Accounting for monitor-owned work between two instants. */
    method FinishMonitorWork(started: nat, sample: Option<nat>, finished: nat)
      requires Balanced(started) && started <= finished < INSTANT_LIMIT
      modifies this`last, this`spells, watchdog
      ensures Balanced(finished)
      ensures spells == old(spells) + [WorkSpell(config, initial, start, old(spells), started, finished, sample)]
    {
      var elapsed := SaturatingSince(started, last);
      ghost var spell := WorkSpell(config, initial, start, spells, started, finished, sample);
      var preserve := watchdog.RebaseAfterMonitorWork(sample, RebaseMillis(elapsed));
      assert watchdog.View() == After(config, old(watchdog.View()), spell.event) by {
        assert watchdog.View() == After(config, old(watchdog.View()), Rebase(sample, RebaseMillis(elapsed)));
      }
      SpellAdded(config, initial, start, spells, spell, finished);
      if preserve {
        last := ExcludeMonitorWork(last, started, finished);
      } else {
        last := finished;
      }
      spells := spells + [spell];
    }

    /** One inline ANR check; the time its sampling takes is the monitor's. */
    method Check(now: nat, sample: Option<nat>, sampled: nat) returns (detected: Option<nat>)
      requires Balanced(now) && now <= sampled
      modifies this`last, this`spells, watchdog
      ensures Balanced(sampled)
      ensures var elapsed := TickMillis(Due(start, old(spells), |old(spells)|, now));
              if elapsed < interval then spells == old(spells) && detected == None
              else && spells == old(spells) + [Spell(Tick(sample, elapsed), now, sampled, false)]
                   && detected == FiredAt(config, initial, Events(spells), |old(spells)|)
    {
      var elapsed := SaturatingSince(now, last);
      detected := None;
      if TickMillis(elapsed) >= interval {
        ghost var spell := Spell(Tick(sample, TickMillis(elapsed)), now, sampled, false);
        detected := watchdog.Update(sample, TickMillis(elapsed), config.threshold, config.cooldown);
        SpellAdded(config, initial, start, spells, spell, sampled);
        last := sampled;
        spells := spells + [spell];
      }
    }

    method Take(turn: Turn, ghost time: nat)
      requires Balanced(time) && Ordered(time, turn)
      modifies this`last, this`spells, watchdog
      ensures Balanced(TurnEnd(turn))
      ensures spells == AfterTurn(config, initial, interval, start, old(spells), turn)
    {
      match turn {
        case Timeout(now, sample, sampled, captured, resample) =>
          var detected := Check(now, sample, sampled);
          if detected.Some? {
            FinishMonitorWork(sampled, resample, captured);
          }
        case Snapshot(started, finished, sample) =>
          FinishMonitorWork(started, sample, finished);
      }
    }

    /**
      Any sequence of turns: the monitor's spells are exactly the turns' own, each tells the watchdog what
      was due and no more, and the baseline leaves exactly the application time not yet told.
    */
    method Turns(turns: seq<Turn>, time: nat) returns (end: nat)
      requires Balanced(time) && Monotone(time, turns)
      modifies this`last, this`spells, watchdog
      ensures Balanced(end) && time <= end
      ensures spells == AfterTurns(config, initial, interval, start, old(spells), turns)
      ensures MonitorTime(spells, 0, |spells|) ==
              MonitorTime(old(spells), 0, |old(spells)|) + TotalWork(config, initial, interval, start, old(spells), turns)
    {
      end := time;
      var i := 0;
      while i < |turns|
        invariant i <= |turns| && time <= end
        invariant Balanced(end) && Monotone(end, turns[i..])
        invariant spells == AfterTurns(config, initial, interval, start, old(spells), turns[..i])
      {
        var turn := turns[i];
        assert turns[i..][0] == turn && turns[i..][1..] == turns[i + 1..] && turns[..i + 1][..i] == turns[..i];
        Take(turn, end);
        end := TurnEnd(turn);
        i := i + 1;
      }
      assert turns[..|turns|] == turns;
      TurnsChargeTheirWork(config, initial, interval, start, old(spells), turns);
    }
  }

  // One more spell

  lemma {:induction false} PrefixKeeps(c: Config, w: Watch, start: nat, spells: seq<Spell>, spell: Spell, n: nat, time: nat)
    requires n <= |spells|
    ensures Due(start, spells + [spell], n, time) == Due(start, spells, n, time)
    ensures Run(c, w, Events(spells + [spell]), n) == Run(c, w, Events(spells), n)
    ensures MonitorTime(spells + [spell], 0, n) == MonitorTime(spells, 0, n)
  {
    if n > 0 {
      PrefixKeeps(c, w, start, spells, spell, n - 1, spells[n - 1].began);
    }
  }

  lemma FairPrefix(c: Config, w: Watch, start: nat, spells: seq<Spell>, spell: Spell, k: nat)
    requires k < |spells| && FairAt(c, w, start, spells, k)
    ensures FairAt(c, w, start, spells + [spell], k)
  {
    PrefixKeeps(c, w, start, spells, spell, k, spells[k].began);
  }

  /** A spell that tells what is due keeps the account fair, and leaves the watchdog as its event does. */
  lemma SpellAdded(c: Config, w: Watch, start: nat, spells: seq<Spell>, spell: Spell, time: nat)
    requires Fair(c, w, start, spells)
    requires Resumed(start, spells, |spells|) <= spell.began <= spell.ended <= time
    requires Tells(spell, Due(start, spells, |spells|, spell.began))
    requires spell.kept <==> Preserves(Run(c, w, Events(spells), |spells|), spell.event)
    ensures Fair(c, w, start, spells + [spell])
    ensures Run(c, w, Events(spells + [spell]), |spells| + 1) == After(c, Run(c, w, Events(spells), |spells|), spell.event)
    ensures FiredAt(c, w, Events(spells + [spell]), |spells|) == Fired(c, Run(c, w, Events(spells), |spells|), spell.event)
    ensures Due(start, spells + [spell], |spells| + 1, time) ==
            time - spell.ended + if spell.kept then Due(start, spells, |spells|, spell.began) else 0
  {
    var longer := spells + [spell];
    PrefixKeeps(c, w, start, spells, spell, |spells|, spell.began);
    forall k | 0 <= k < |longer|
      ensures FairAt(c, w, start, longer, k)
    {
      if k < |spells| {
        assert FairAt(c, w, start, spells, k);
        FairPrefix(c, w, start, spells, spell, k);
      }
    }
  }

  // What a fair account means

  /** The milliseconds spells `from` up to `to` told. */
  function Told(spells: seq<Spell>, from: nat, to: nat): nat
    requires from <= to <= |spells|
  {
    if from == to then 0 else Told(spells, from, to - 1) + spells[to - 1].event.elapsed
  }

  /** Application time is told at most once and the monitor's never: from any spell that settled the account on. */
  lemma {:induction false} ToldIsRunningTime(c: Config, w: Watch, start: nat, spells: seq<Spell>, from: nat, to: nat, time: nat)
    requires Fair(c, w, start, spells) && from <= to <= |spells| && Resumed(start, spells, to) <= time
    requires from > 0 ==> !spells[from - 1].kept
    ensures Told(spells, from, to) * NANOS_PER_MILLI + Due(start, spells, to, time) <= Running(start, spells, from, to, time)
  {
    if from < to {
      var spell := spells[to - 1];
      assert FairAt(c, w, start, spells, to - 1);
      ToldIsRunningTime(c, w, start, spells, from, to - 1, spell.began);
      MillisBelow(Due(start, spells, to - 1, spell.began));
    }
  }

  /** The application time settled by the first `n` spells. */
  function Settled(start: nat, spells: seq<Spell>, n: nat): nat
    requires n <= |spells|
  {
    if n == 0 then 0 else
      Settled(start, spells, n - 1) + if spells[n - 1].kept then 0 else Due(start, spells, n - 1, spells[n - 1].began)
  }

  /** All time is settled, still due, or the monitor's, and nothing is two of these. */
  lemma {:induction false} TimeIsConserved(c: Config, w: Watch, start: nat, spells: seq<Spell>, n: nat, time: nat)
    requires Fair(c, w, start, spells) && n <= |spells| && Resumed(start, spells, n) <= time
    ensures Settled(start, spells, n) + Due(start, spells, n, time) + MonitorTime(spells, 0, n) == time - start
  {
    if n > 0 {
      assert FairAt(c, w, start, spells, n - 1);
      TimeIsConserved(c, w, start, spells, n - 1, spells[n - 1].began);
    }
  }

  lemma TurnChargesItsWork(c: Config, w: Watch, interval: nat, start: nat, spells: seq<Spell>, turn: Turn)
    ensures var after := AfterTurn(c, w, interval, start, spells, turn);
            MonitorTime(after, 0, |after|) == MonitorTime(spells, 0, |spells|) + WorkOf(c, w, interval, start, spells, turn)
  {
    var after := AfterTurn(c, w, interval, start, spells, turn);
    if |after| > |spells| {
      PrefixKeeps(c, w, start, spells, after[|spells|], |spells|, 0);
      if |after| == |spells| + 2 {
        var checked := spells + [after[|spells|]];
        PrefixKeeps(c, w, start, checked, after[|spells| + 1], |checked|, 0);
        assert after == checked + [after[|spells| + 1]];
      }
    }
  }

  /** The monitor is charged for the turns exactly their own work. */
  lemma {:induction false} TurnsChargeTheirWork(c: Config, w: Watch, interval: nat, start: nat, spells: seq<Spell>, turns: seq<Turn>)
    ensures var after := AfterTurns(c, w, interval, start, spells, turns);
            MonitorTime(after, 0, |after|) == MonitorTime(spells, 0, |spells|) + TotalWork(c, w, interval, start, spells, turns)
  {
    if turns != [] {
      var before := turns[..|turns| - 1];
      TurnsChargeTheirWork(c, w, interval, start, spells, before);
      TurnChargesItsWork(c, w, interval, start, AfterTurns(c, w, interval, start, spells, before), turns[|turns| - 1]);
    }
  }

  lemma {:induction false} TickedWasTold(spells: seq<Spell>, from: nat, to: nat)
    requires from <= to <= |spells|
    ensures Ticked(Events(spells), from, to) <= Told(spells, from, to)
  {
    if from < to {
      TickedWasTold(spells, from, to - 1);
    }
  }

  lemma {:induction false} FedWasTold(c: Config, w: Watch, spells: seq<Spell>, from: nat, to: nat)
    requires from <= to <= |spells|
    ensures Fed(c, w, Events(spells), from, to) <= Told(spells, from, to)
  {
    if from < to {
      FedWasTold(c, w, spells, from, to - 1);
    }
  }

  lemma LastTold(c: Config, w: Watch, start: nat, spells: seq<Spell>, from: nat, k: nat)
    requires Fair(c, w, start, spells) && from <= k < |spells|
    requires from > 0 ==> !spells[from - 1].kept
    ensures Told(spells, from, k + 1) * NANOS_PER_MILLI <= Running(start, spells, from, k, spells[k].began)
  {
    assert FairAt(c, w, start, spells, k);
    ToldIsRunningTime(c, w, start, spells, from, k, spells[k].began);
    MillisBelow(Due(start, spells, k, spells[k].began));
  }

  /**
    A detected hang of `d` milliseconds is real: from the end of some spell on, every observation read the same
    ready heartbeat, and the application was running, outside all of the monitor's work, for at least `d`.
  */
  lemma DetectionNamesARunningHang(c: Config, w: Watch, start: nat, spells: seq<Spell>, k: nat) returns (j: nat)
    requires Fresh(w) && Fair(c, w, start, spells) && k < |spells| && FiredAt(c, w, Events(spells), k).Some?
    ensures j <= k && Stretch(c, w, Events(spells), j, k + 1, spells[k].event.sample) && spells[k].event.sample.Some?
    ensures var d := FiredAt(c, w, Events(spells), k).value;
            c.threshold <= d && d * NANOS_PER_MILLI <= Running(start, spells, j, k, spells[k].began)
  {
    j := FiringNamesAHang(c, w, Events(spells), k);
    if j > 0 {
      assert FairAt(c, w, start, spells, j - 1);
    }
    TickedWasTold(spells, j, k + 1);
    LastTold(c, w, start, spells, j, k);
  }

  /** Between two detections the application ran, outside the monitor's work, for the threshold and the shorter grace. */
  lemma DetectionsAreApart(c: Config, w: Watch, start: nat, spells: seq<Spell>, i: nat, k: nat)
    requires Fair(c, w, start, spells) && i < k < |spells|
    requires FiredAt(c, w, Events(spells), i).Some? && FiredAt(c, w, Events(spells), k).Some?
    ensures (c.threshold + Grace(c, w)) * NANOS_PER_MILLI <= Running(start, spells, i + 1, k, spells[k].began)
  {
    assert FairAt(c, w, start, spells, i);
    FiringsAreApart(c, w, Events(spells), i, k);
    FedWasTold(c, w, spells, i + 1, k + 1);
    LastTold(c, w, start, spells, i + 1, k);
  }

  // A silent application is detected

  /** The checks among spells `from` up to `to`. */
  function Checks(spells: seq<Spell>, from: nat, to: nat): nat
    requires from <= to <= |spells|
  {
    if from == to then 0 else Checks(spells, from, to - 1) + if spells[to - 1].event.Tick? then 1 else 0
  }

  /** No time due at a spell overflows the 64 bits of a tick. */
  ghost predicate DueFits(start: nat, spells: seq<Spell>, from: nat, to: nat)
    requires from <= to <= |spells|
  {
    forall k :: from <= k < to ==> Millis(Due(start, spells, k, spells[k].began)) <= U64_MAX
  }

  lemma MillisAbove(duration: nat)
    requires Millis(duration) <= U64_MAX
    ensures duration < (TickMillis(duration) + 1) * NANOS_PER_MILLI
  {
  }

  /** While the heartbeat is silent only the last fraction of a millisecond of each check is not told. */
  lemma {:induction false} RunningIsTicked(c: Config, w: Watch, start: nat, spells: seq<Spell>, from: nat, to: nat, time: nat)
    requires Fair(c, w, start, spells) && from <= to <= |spells| && Resumed(start, spells, to) <= time
    requires Silent(c, w, Events(spells), from, to) && DueFits(start, spells, from, to)
    ensures Running(start, spells, from, to, time) <=
            (Ticked(Events(spells), from, to) + Checks(spells, from, to)) * NANOS_PER_MILLI + Due(start, spells, to, time)
  {
    if from < to {
      var k := to - 1;
      var spell := spells[k];
      assert FairAt(c, w, start, spells, k);
      RunningIsTicked(c, w, start, spells, from, k, spell.began);
      if spell.event.Tick? {
        MillisAbove(Due(start, spells, k, spell.began));
      } else {
        SilenceKeepsHeartbeat(c, w, Events(spells), from, k);
      }
    }
  }

  lemma {:induction false} SilenceKeepsHeartbeat(c: Config, w: Watch, events: seq<Event>, from: nat, n: nat)
    requires from <= n <= |events| && Silent(c, w, events, from, n)
    ensures Run(c, w, events, n).heartbeat == Run(c, w, events, from).heartbeat
  {
    if n > from {
      SilenceKeepsHeartbeat(c, w, events, from, n - 1);
      assert events[n - 1].sample == Run(c, w, events, from).heartbeat;
    }
  }

  /**
    A hang is detected: if since some spell every observation read the same ready heartbeat, a check `k` ran, and
    the application had by then been running, outside all of the monitor's work, for the watchdog's patience and a
    millisecond for each check, then that check or an earlier one since detected it.
  */
  lemma SilenceIsDetected(c: Config, w: Watch, start: nat, spells: seq<Spell>, from: nat, k: nat, longest: nat) returns (i: nat)
    requires Fair(c, w, start, spells) && from <= k < |spells| && spells[k].event.Tick? && c.threshold <= U64_MAX
    requires Silent(c, w, Events(spells), from, k + 1) && TicksAtMost(Events(spells), from, k + 1, longest)
    requires DueFits(start, spells, from, k + 1)
    requires Running(start, spells, from, k, spells[k].began) >=
             (Patience(c, Run(c, w, Events(spells), from), longest) + Checks(spells, from, k + 1)) * NANOS_PER_MILLI
    ensures from <= i <= k && FiredAt(c, w, Events(spells), i).Some?
  {
    if forall j :: from <= j < k ==> FiredAt(c, w, Events(spells), j).None? {
      assert FairAt(c, w, start, spells, k);
      RunningIsTicked(c, w, start, spells, from, k, spells[k].began);
      MillisAbove(Due(start, spells, k, spells[k].began));
      i := SilenceFires(c, w, Events(spells), from, k + 1, longest);
    } else {
      i :| from <= i < k && FiredAt(c, w, Events(spells), i).Some?;
    }
  }
}
