/**
  Files under rewriting: every state the file system passes through is recorded, so
  that a promise can be made for an interruption at any point.
*/
module Evidence {
  import opened Wrappers

  function Lookup<P, C>(files: map<P, C>, p: P): Option<C> {
    if p in files then Some(files[p]) else None
  }

  /** Since `from` only the temporary file has come, changed or gone. */
  ghost predicate OnlyTemporary<P(!new), C(!new)>(base: map<P, C>, history: seq<map<P, C>>, from: nat, tmp: P) {
    forall k :: from <= k < |history| ==> history[k] - {tmp} == base
  }

  lemma NothingYet<P(!new), C(!new)>(base: map<P, C>, history: seq<map<P, C>>, from: nat, tmp: P, p: P, content: C)
    requires from == |history|
    ensures OnlyTemporary(base, history, from, tmp) && ReplacedWhole(base, history, from, p, content)
  {
  }

  lemma PutTemporary<P(!new), C(!new)>(base: map<P, C>, history: seq<map<P, C>>, from: nat, tmp: P, content: C)
    requires tmp !in base && OnlyTemporary(base, history, from, tmp)
    ensures OnlyTemporary(base, history + [base[tmp := content]], from, tmp)
  {
    assert base[tmp := content] - {tmp} == base;
  }

  lemma DropTemporary<P(!new), C(!new)>(base: map<P, C>, history: seq<map<P, C>>, from: nat, tmp: P)
    requires tmp !in base && OnlyTemporary(base, history, from, tmp)
    ensures OnlyTemporary(base, history + [base], from, tmp)
  {
    assert base - {tmp} == base;
  }

  lemma OthersKept<P(!new), C(!new)>(base: map<P, C>, files: map<P, C>, tmp: P, p: P)
    requires tmp != p && files - {tmp} == base
    ensures Lookup(files, p) == Lookup(base, p)
  {
    assert p in files <==> p in files - {tmp};
  }

  /** In every state since `from` the file is what it was or what it becomes, and every other file there was is kept. */
  ghost predicate ReplacedWhole<P(!new), C(!new)>(base: map<P, C>, history: seq<map<P, C>>, from: nat, p: P, content: C) {
    forall k :: from <= k < |history| ==>
      && (Lookup(history[k], p) == Lookup(base, p) || Lookup(history[k], p) == Some(content))
      && forall q :: q in base && q != p ==> q in history[k] && history[k][q] == base[q]
  }

  /** Work on a temporary file and one rename of it replace a file whole. */
  lemma RenameReplaces<P(!new), C(!new)>(base: map<P, C>, past: seq<map<P, C>>, history: seq<map<P, C>>, from: nat, tmp: P, p: P, content: C)
    requires tmp != p && tmp !in base && OnlyTemporary(base, past, from, tmp)
    requires history == past || history == past + [base[p := content]]
    ensures ReplacedWhole(base, history, from, p, content)
  {
    forall k | from <= k < |history|
      ensures Lookup(history[k], p) == Lookup(base, p) || Lookup(history[k], p) == Some(content)
      ensures forall q :: q in base && q != p ==> q in history[k] && history[k][q] == base[q]
    {
      if k < |past| {
        assert history[k] == past[k];
        forall q | q != tmp
          ensures Lookup(history[k], q) == Lookup(base, q)
        {
          OthersKept(base, history[k], tmp, q);
        }
      }
    }
  }

  class Disk<P(==), C> {
    var files: map<P, C>
    /** Every state so far, the present one last. */
    ghost var history: seq<map<P, C>>

    constructor (files: map<P, C>)
      ensures this.files == files && history == [files]
    {
      this.files := files;
      history := [files];
    }

    /** Creating a file, or adding to one being written. */
    method Put(p: P, content: C)
      modifies this
      ensures files == old(files)[p := content] && history == old(history) + [files]
    {
      files := files[p := content];
      history := history + [files];
    }

    /** One atomic rename; the caller says whether it may replace. */
    method Rename(from: P, to: P)
      requires from in files
      modifies this
      ensures files == (old(files) - {from})[to := old(files)[from]] && history == old(history) + [files]
    {
      files := (files - {from})[to := files[from]];
      history := history + [files];
    }

    method Remove(p: P)
      modifies this
      ensures files == old(files) - {p} && history == old(history) + [files]
    {
      files := files - {p};
      history := history + [files];
    }
  }
}
