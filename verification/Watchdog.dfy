/**
  The ANR watchdog (src/watchdog.rs): a saturating state machine fed with heartbeat
  samples and application time, and its timing over all runs.
*/
module Watchdog {
  import opened Wrappers

  const U64_MAX := 0xFFFF_FFFF_FFFF_FFFF

  function SaturatingAdd(a: nat, b: nat): nat {
    if a + b > U64_MAX then U64_MAX else a + b
  }

  function SaturatingSub(a: nat, b: nat): nat {
    if a < b then 0 else a - b
  }

  datatype Config = Config(threshold: nat, cooldown: nat)

  datatype Watch = Watch(initialWarmup: nat, warmup: nat, heartbeat: Option<nat>, hang: nat, cooldown: nat)

  /** A sample of the heartbeat: `None` while the producer is not ready. */
  datatype Event =
    | Tick(sample: Option<nat>, elapsed: nat)
    | Rebase(sample: Option<nat>, elapsed: nat)

  function Disarmed(w: Watch): Watch {
    Watch(w.initialWarmup, w.initialWarmup, None, 0, 0)
  }

  function Consumed(w: Watch, elapsed: nat): Watch {
    if w.warmup > 0 then w.(warmup := SaturatingSub(w.warmup, elapsed))
    else if w.cooldown > 0 then w.(cooldown := SaturatingSub(w.cooldown, elapsed))
    else w
  }

  function After(c: Config, w: Watch, event: Event): Watch {
    if event.sample.None? then Disarmed(w)
    else if w.heartbeat.None? then w.(heartbeat := event.sample)
    else match event
      case Rebase(sample, elapsed) =>
        if sample == w.heartbeat then w else Consumed(w, elapsed).(heartbeat := sample, hang := 0)
      case Tick(sample, elapsed) =>
        if w.warmup > 0 || w.cooldown > 0 then Consumed(w, elapsed).(heartbeat := sample, hang := 0)
        else if sample != w.heartbeat then w.(heartbeat := sample, hang := 0)
        else if SaturatingAdd(w.hang, elapsed) >= c.threshold then w.(hang := 0, cooldown := c.cooldown)
        else w.(hang := SaturatingAdd(w.hang, elapsed))
  }

  /** The hang duration reported by an event, if it fires. */
  function Fired(c: Config, w: Watch, event: Event): Option<nat> {
    if event.Tick? && event.sample.Some? && event.sample == w.heartbeat && w.warmup == 0 && w.cooldown == 0
       && SaturatingAdd(w.hang, event.elapsed) >= c.threshold
    then Some(SaturatingAdd(w.hang, event.elapsed)) else None
  }

  class WatchdogState {
    const initialWarmup: nat
    var warmup: nat
    var heartbeat: Option<nat>
    var hang: nat
    var cooldown: nat

    function View(): Watch
      reads this
    {
      Watch(initialWarmup, warmup, heartbeat, hang, cooldown)
    }

    constructor (warmupMs: nat, initialHeartbeat: Option<nat>)
      ensures View() == Watch(warmupMs, warmupMs, initialHeartbeat, 0, 0)
    {
      initialWarmup := warmupMs;
      warmup, heartbeat, hang, cooldown := warmupMs, initialHeartbeat, 0, 0;
    }

    method Disarm()
      modifies this
      ensures View() == Disarmed(old(View()))
    {
      warmup, heartbeat, hang, cooldown := initialWarmup, None, 0, 0;
    }

    method ConsumeActiveGrace(elapsed: nat)
      modifies this
      ensures View() == Consumed(old(View()), elapsed)
    {
      if warmup > 0 {
        warmup := SaturatingSub(warmup, elapsed);
      } else if cooldown > 0 {
        cooldown := SaturatingSub(cooldown, elapsed);
      }
    }

    /** Returns whether the elapsed clock keeps the time from before the monitor's own work. */
    method RebaseAfterMonitorWork(current: Option<nat>, elapsedBefore: nat) returns (preserve: bool)
      modifies this
      ensures forall c :: View() == After(c, old(View()), Rebase(current, elapsedBefore))
      ensures preserve <==> current.Some? && current == old(heartbeat)
    {
      if current.None? {
        Disarm();
        return false;
      }
      if heartbeat.None? {
        heartbeat := current;
        return false;
      }
      if heartbeat != current {
        ConsumeActiveGrace(elapsedBefore);
        heartbeat := current;
        hang := 0;
        return false;
      }
      return true;
    }

    method Update(current: Option<nat>, elapsed: nat, threshold: nat, cooldownMs: nat) returns (fired: Option<nat>)
      modifies this
      ensures View() == After(Config(threshold, cooldownMs), old(View()), Tick(current, elapsed))
      ensures fired == Fired(Config(threshold, cooldownMs), old(View()), Tick(current, elapsed))
    {
      fired := None;
      if current.None? {
        Disarm();
        return;
      }
      if heartbeat.None? {
        heartbeat := current;
        return;
      }
      if warmup > 0 {
        warmup := SaturatingSub(warmup, elapsed);
        heartbeat := current;
        hang := 0;
        return;
      }
      if cooldown > 0 {
        cooldown := SaturatingSub(cooldown, elapsed);
        heartbeat := current;
        hang := 0;
        return;
      }
      if current == heartbeat {
        hang := SaturatingAdd(hang, elapsed);
        if hang >= threshold {
          fired := Some(hang);
          cooldown := cooldownMs;
          hang := 0;
          heartbeat := current;
          return;
        }
      } else {
        hang := 0;
      }
      heartbeat := current;
    }
  }

  // Runs

  /** The watchdog after the first `n` events. */
  function Run(c: Config, w: Watch, events: seq<Event>, n: nat): Watch
    requires n <= |events|
  {
    if n == 0 then w else After(c, Run(c, w, events, n - 1), events[n - 1])
  }

  function FiredAt(c: Config, w: Watch, events: seq<Event>, i: nat): Option<nat>
    requires i < |events|
  {
    Fired(c, Run(c, w, events, i), events[i])
  }

  /** The time the ticks from `from` up to `to` add up to. */
  function Ticked(events: seq<Event>, from: nat, to: nat): nat
    requires from <= to <= |events|
  {
    if from == to then 0
    else Ticked(events, from, to - 1) + if events[to - 1].Tick? then events[to - 1].elapsed else 0
  }

  ghost predicate Fresh(w: Watch) {
    w.hang == 0 && w.cooldown == 0 && w.warmup == w.initialWarmup
  }

  ghost predicate SampleBefore(w: Watch, events: seq<Event>, j: nat, sample: Option<nat>)
    requires j <= |events|
  {
    if j == 0 then w.heartbeat == sample else events[j - 1].sample == sample
  }

  /**
    From the sample before event `j` up to event `n` every observation read `sample`, no tick was in
    warmup or cooldown.
  */
  ghost predicate Stretch(c: Config, w: Watch, events: seq<Event>, j: nat, n: nat, sample: Option<nat>)
    requires j <= n <= |events|
  {
    && SampleBefore(w, events, j, sample)
    && (forall k :: j <= k < n ==> events[k].sample == sample)
    && (forall k :: j <= k < n && events[k].Tick? ==>
          Run(c, w, events, k).warmup == 0 && Run(c, w, events, k).cooldown == 0)
  }

  /** A rebase that reads the heartbeat already seen leaves the elapsed clock running. */
  predicate Preserves(w: Watch, event: Event) {
    event.Rebase? && event.sample.Some? && event.sample == w.heartbeat
  }

  lemma StretchGrows(c: Config, w: Watch, events: seq<Event>, j: nat, n: nat, sample: Option<nat>)
    requires j <= n < |events| && Stretch(c, w, events, j, n, sample) && events[n].sample == sample
    requires events[n].Tick? ==> Run(c, w, events, n).warmup == 0 && Run(c, w, events, n).cooldown == 0
    ensures Stretch(c, w, events, j, n + 1, sample)
  {
    hide After;
  }

  lemma StretchStarts(c: Config, w: Watch, events: seq<Event>, n: nat)
    requires 0 < n <= |events|
    ensures Stretch(c, w, events, n, n, events[n - 1].sample)
  {
    hide After;
  }

  /** Whatever hang time has accumulated, it belongs to one uninterrupted stretch. */
  lemma {:induction false} HangIsAStretch(c: Config, w: Watch, events: seq<Event>, n: nat) returns (j: nat)
    requires Fresh(w) && n <= |events|
    ensures j <= n && (j > 0 ==> !Preserves(Run(c, w, events, j - 1), events[j - 1]))
    ensures var now := Run(c, w, events, n);
            && (now.heartbeat.None? ==> now.hang == 0)
            && (now.heartbeat.Some? ==>
                  && Stretch(c, w, events, j, n, now.heartbeat)
                  && now.hang == SaturatingAdd(0, Ticked(events, j, n)))
  {
    if n == 0 {
      j := 0;
    } else {
      hide Stretch;
      var i := HangIsAStretch(c, w, events, n - 1);
      var before := Run(c, w, events, n - 1);
      var event := events[n - 1];
      if before.heartbeat.Some? && event.sample == before.heartbeat
         && (event.Rebase? || (before.warmup == 0 && before.cooldown == 0 && FiredAt(c, w, events, n - 1).None?)) {
        StretchGrows(c, w, events, i, n - 1, event.sample);
        j := i;
      } else {
        StretchStarts(c, w, events, n);
        j := n;
      }
    }
  }

  /**
    A firing names a real hang: an earlier sample since which every observation read the same ready
    heartbeat, with `d` the saturated sum of the ticks since, none of them in warmup or cooldown.
  */
  lemma FiringNamesAHang(c: Config, w: Watch, events: seq<Event>, i: nat) returns (j: nat)
    requires Fresh(w) && i < |events| && FiredAt(c, w, events, i).Some?
    ensures j <= i && events[i].sample.Some? && (j > 0 ==> !Preserves(Run(c, w, events, j - 1), events[j - 1]))
    ensures Stretch(c, w, events, j, i + 1, events[i].sample)
    ensures FiredAt(c, w, events, i).value == SaturatingAdd(0, Ticked(events, j, i + 1))
    ensures FiredAt(c, w, events, i).value >= c.threshold
  {
    j := HangIsAStretch(c, w, events, i);
  }

  /** The application time events `from` up to `to` hand to the watchdog. */
  function Fed(c: Config, w: Watch, events: seq<Event>, from: nat, to: nat): nat
    requires from <= to <= |events|
  {
    if from == to then 0
    else Fed(c, w, events, from, to - 1) + if events[to - 1].Tick? || Changes(Run(c, w, events, to - 1), events[to - 1])
                                           then events[to - 1].elapsed else 0
  }

  /** A rebase that charges its elapsed time to a grace budget. */
  predicate Changes(w: Watch, event: Event) {
    event.Rebase? && event.sample.Some? && w.heartbeat.Some? && event.sample != w.heartbeat
  }

  function Grace(c: Config, w: Watch): nat {
    if w.initialWarmup < c.cooldown then w.initialWarmup else c.cooldown
  }

  /** After a firing, the time fed since covers the spent grace and the hang accumulated again. */
  lemma {:induction false} FedCoversHang(c: Config, w: Watch, events: seq<Event>, i: nat, n: nat)
    requires i < n <= |events| && FiredAt(c, w, events, i).Some?
    ensures var now := Run(c, w, events, n);
            && now.initialWarmup == w.initialWarmup
            && Fed(c, w, events, i + 1, n) + now.warmup + now.cooldown >= Grace(c, w) + now.hang
            && (now.warmup > 0 || now.cooldown > 0 ==> now.hang == 0)
  {
    WarmupIsKept(c, w, events, n);
    WarmupIsKept(c, w, events, n - 1);
    if n > i + 1 {
      FedCoversHang(c, w, events, i, n - 1);
    }
  }

  lemma {:induction false} WarmupIsKept(c: Config, w: Watch, events: seq<Event>, n: nat)
    requires n <= |events|
    ensures Run(c, w, events, n).initialWarmup == w.initialWarmup
  {
    if n > 0 {
      WarmupIsKept(c, w, events, n - 1);
    }
  }

  /** Two firings are at least the threshold and the shorter grace apart, across disarms and rebases. */
  lemma FiringsAreApart(c: Config, w: Watch, events: seq<Event>, i: nat, k: nat)
    requires i < k < |events| && FiredAt(c, w, events, i).Some? && FiredAt(c, w, events, k).Some?
    ensures Fed(c, w, events, i + 1, k + 1) >= c.threshold + Grace(c, w)
  {
    FedCoversHang(c, w, events, i, k);
  }

  // An unresponsive application

  /** From event `from` up to `to` every observation reads the heartbeat seen before, which is ready. */
  ghost predicate Silent(c: Config, w: Watch, events: seq<Event>, from: nat, to: nat)
    requires from <= to <= |events|
  {
    var heartbeat := Run(c, w, events, from).heartbeat;
    heartbeat.Some? && forall k :: from <= k < to ==> events[k].sample == heartbeat
  }

  ghost predicate TicksAtMost(events: seq<Event>, from: nat, to: nat, longest: nat)
    requires from <= to <= |events|
  {
    forall k :: from <= k < to && events[k].Tick? ==> events[k].elapsed <= longest
  }

  /** One longest tick for each grace period still to run: the tick that ends it counts for nothing. */
  function Slack(w: Watch, longest: nat): nat {
    (if w.warmup > 0 then longest else 0) + if w.cooldown > 0 then longest else 0
  }

  /** The ticked time within which a silent application is reported: what is left of both graces, and the threshold. */
  function Patience(c: Config, w: Watch, longest: nat): nat {
    w.warmup + w.cooldown + Slack(w, longest) + c.threshold
  }

  lemma {:induction false} SilenceAccumulates(c: Config, w: Watch, events: seq<Event>, from: nat, n: nat, longest: nat)
    requires from <= n <= |events| && Silent(c, w, events, from, n) && TicksAtMost(events, from, n, longest) && c.threshold <= U64_MAX
    requires forall k :: from <= k < n ==> FiredAt(c, w, events, k).None?
    ensures var was, now := Run(c, w, events, from), Run(c, w, events, n);
            && now.heartbeat == was.heartbeat
            && now.warmup <= was.warmup && now.cooldown <= was.cooldown
            && (now.warmup > 0 ==> now.cooldown == was.cooldown)
            && Ticked(events, from, n) + now.warmup + now.cooldown + Slack(now, longest) <=
               was.warmup + was.cooldown + Slack(was, longest) + now.hang
            && (now.warmup > 0 || now.cooldown > 0 ==> n == from || now.hang == 0 || Ticked(events, from, n) == 0)
  {
    if n > from {
      SilenceAccumulates(c, w, events, from, n - 1, longest);
      assert FiredAt(c, w, events, n - 1).None?;
      assert events[n - 1].sample == Run(c, w, events, from).heartbeat;
    }
  }

  /**
    With a silent heartbeat an armed watchdog, wherever it stands, fires no later than the tick that brings
    the ticked time to its patience.
  */
  lemma SilenceFires(c: Config, w: Watch, events: seq<Event>, from: nat, to: nat, longest: nat) returns (i: nat)
    requires from < to <= |events| && Silent(c, w, events, from, to) && TicksAtMost(events, from, to, longest) && c.threshold <= U64_MAX
    requires events[to - 1].Tick? && Ticked(events, from, to) >= Patience(c, Run(c, w, events, from), longest)
    ensures from <= i < to && FiredAt(c, w, events, i).Some?
  {
    var n := to - 1;
    if forall k :: from <= k < n ==> FiredAt(c, w, events, k).None? {
      SilenceAccumulates(c, w, events, from, n, longest);
      i := n;
    } else {
      i :| from <= i < n && FiredAt(c, w, events, i).Some?;
    }
  }
}
