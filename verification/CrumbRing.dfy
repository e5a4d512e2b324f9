/**
  One breadcrumb ring updated in place, as the owner of its seqlock updates it
  (producer/crash_monitor_producer.h). The ring refines the history of crumbs
  added to it.
*/
module CrumbRing {
  import opened SharedRegion

  class Ring {
    var buf: array<Crumb>
    var writeIdx: nat
    var count: nat
    var tid: nat

    /** The last 512 crumbs are in place, and the counters follow the history. */
    ghost predicate Holds(history: seq<Crumb>)
      reads this, buf
    {
      var n := |history|;
      && buf.Length == RING_CAPACITY
      && count == Wrap(n)
      && writeIdx == WriteIndex(n)
      && (n > 0 ==> tid == history[n - 1].threadId)
      && forall k :: 0 <= k < n && n - RING_CAPACITY <= k ==> buf[Slot(k)] == Stored(history[k])
    }

    constructor ()
      ensures Holds([]) && fresh(buf)
    {
      buf := new Crumb[RING_CAPACITY](_ => Crumb(0, 0, 0, 0, 0, [], []));
      writeIdx, count, tid := 0, 0, 0;
    }

    method Add(crumb: Crumb, ghost history: seq<Crumb>)
      requires Holds(history)
      modifies this`writeIdx, this`count, this`tid, buf
      ensures Holds(history + [crumb])
    {
      SlotOfNext(|history|);
      var index := Slot(writeIdx);
      ghost var before := buf[..];
      buf[index] := Stored(crumb);
      tid := crumb.threadId;
      writeIdx := index + 1;
      count := Wrap(count + 1);
      forall k | 0 <= k < |history| && |history| + 1 - RING_CAPACITY <= k
        ensures buf[Slot(k)] == Stored(history[k])
      {
        OlderSlotsDiffer(|history|, k);
        assert before[Slot(k)] == Stored(history[k]);
      }
    }

    /** The reader's backward scan from `write_idx` over the valid entries, dropping those never stamped. */
    method ReadNewestFirst(ghost history: seq<Crumb>) returns (crumbs: seq<Crumb>)
      requires Holds(history)
      ensures crumbs == NewestFirst(history, Valid(|history|))
      ensures |history| < 0x1_0000_0000 ==> crumbs == NewestFirst(history, Newest(|history|))
    {
      var held := if count < RING_CAPACITY then count else RING_CAPACITY;
      crumbs := [];
      WrapBelow(|history|);
      for back := 0 to held
        invariant crumbs == NewestFirst(history, back)
      {
        var slot := Slot(if writeIdx > back then writeIdx - back - 1 else RING_CAPACITY + writeIdx - back - 1);
        BackwardSlot(|history|, back);
        if buf[slot].timestamp != 0 {
          crumbs := crumbs + [buf[slot]];
        }
      }
    }
  }

  /** How many of `n` crumbs a full-width counter would offer. */
  function Newest(n: nat): nat {
    if n < RING_CAPACITY then n else RING_CAPACITY
  }

  /** How many the wrapping counter offers. */
  function Valid(n: nat): nat {
    Newest(Wrap(n))
  }

  ghost function NewestFirst(history: seq<Crumb>, k: nat): seq<Crumb>
    requires k <= |history|
  {
    if k == 0 then [] else
      var crumb := Stored(history[|history| - k]);
      NewestFirst(history, k - 1) + if crumb.timestamp != 0 then [crumb] else []
  }

  lemma WrapBelow(n: nat)
    ensures Wrap(n) <= n
    ensures n < 0x1_0000_0000 ==> Wrap(n) == n
  {
  }

  /** Counting back from the unreduced write index meets each ordinal's own slot. */
  lemma BackwardSlot(n: nat, back: nat)
    requires back < n && back < RING_CAPACITY
    ensures Slot(if WriteIndex(n) > back then WriteIndex(n) - back - 1 else RING_CAPACITY + WriteIndex(n) - back - 1)
            == Slot(n - 1 - back)
  {
    var q, r := (n - 1) / 512, (n - 1) % 512;
    assert n - 1 == 512 * q + r;
    if r < back {
      assert n - 1 - back == 512 * (q - 1) + (512 + r - back);
    } else {
      assert n - 1 - back == 512 * q + (r - back);
    }
  }
}
