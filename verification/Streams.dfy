/** Picking the events of one kind out of an output stream. */
module Streams {
  import opened Types
  import opened EngineSpec

  function ToSeq<T>(o: Option<T>): seq<T> {
    if o.Some? then [o.value] else []
  }

  function Pick<T>(outs: seq<Output>, f: Output -> Option<T>): seq<T> {
    if outs == [] then [] else Pick(outs[..|outs| - 1], f) + ToSeq(f(outs[|outs| - 1]))
  }

  lemma PickLast<T>(outs: seq<Output>, before: seq<Output>, last: Output, f: Output -> Option<T>)
    requires outs == before + [last]
    ensures Pick(outs, f) == Pick(before, f) + ToSeq(f(last))
  {
    assert outs[..|outs| - 1] == before;
  }

  ghost predicate PicksApart<T>(a: seq<Output>, b: seq<Output>, f: Output -> Option<T>) {
    Pick(a + b, f) == Pick(a, f) + Pick(b, f)
  }

  lemma Regroup<T>(x: seq<T>, y: seq<T>, z: seq<T>)
    ensures (x + y) + z == x + (y + z)
  {
  }

  lemma PickOneMore<T>(a: seq<Output>, b: seq<Output>, last: Output, f: Output -> Option<T>)
    requires PicksApart(a, b, f)
    ensures PicksApart(a, b + [last], f)
  {
    Regroup(a, b, [last]);
    PickLast(a + (b + [last]), a + b, last, f);
    PickLast(b + [last], b, last, f);
    Regroup(Pick(a, f), Pick(b, f), ToSeq(f(last)));
  }

  lemma {:induction false} PickApart<T>(a: seq<Output>, b: seq<Output>, f: Output -> Option<T>)
    ensures PicksApart(a, b, f)
  {
    if b == [] {
      assert a + b == a;
    } else {
      var n := |b| - 1;
      PickApart(a, b[..n], f);
      PickOneMore(a, b[..n], b[n], f);
      assert b[..n] + [b[n]] == b;
    }
  }

  lemma PickAppend<T>(a: seq<Output>, b: seq<Output>, f: Output -> Option<T>)
    ensures Pick(a + b, f) == Pick(a, f) + Pick(b, f)
  {
    PickApart(a, b, f);
  }

  lemma {:induction false} PickNothing<T>(outs: seq<Output>, f: Output -> Option<T>)
    requires forall i :: 0 <= i < |outs| ==> f(outs[i]).None?
    ensures Pick(outs, f) == []
  {
    if outs != [] {
      PickNothing(outs[..|outs| - 1], f);
    }
  }

  lemma PickOne<T>(o: Output, f: Output -> Option<T>)
    ensures Pick([o], f) == ToSeq(f(o))
  {
  }

  lemma {:induction false} AllUndo(orphans: seq<BufferedBlock>, head: Option<Height>)
    ensures |Undos(orphans, head)| == |orphans|
    ensures forall i :: 0 <= i < |orphans| ==>
      Undos(orphans, head)[i] == Undo(Emit(StepUndo, orphans[|orphans| - 1 - i], head))
  {
    if orphans != [] {
      AllUndo(orphans[..|orphans| - 1], head);
    }
  }

  lemma {:induction false} AllIrreversible(fired: seq<BufferedBlock>, head: Height)
    ensures |Irreversibles(fired, head)| == |fired|
    ensures forall i :: 0 <= i < |fired| ==> Irreversibles(fired, head)[i] == Finalize(fired[i], head)
  {
    if fired != [] {
      AllIrreversible(fired[..|fired| - 1], head);
    }
  }

  lemma {:induction false} AllResolved(forks: seq<ForkObservation>, head: Height)
    ensures |Resolutions(forks, head)| == |forks|
    ensures forall i :: 0 <= i < |forks| ==> Resolutions(forks, head)[i] == ForkResolved(forks[i], head)
  {
    if forks != [] {
      AllResolved(forks[..|forks| - 1], head);
    }
  }

  /** The three segments of an append, and the two of a settlement, one filter at a time. */
  lemma PickAppendOutputs<T>(s: State, b: Block, kept: nat, f: Output -> Option<T>)
    requires kept <= |s.canonical|
    ensures var orphans := s.canonical[kept..];
      var pushed := New(Emit(StepNew, Buffer(b, s.nextForkId), s.solidifiedHead));
      var fork := ForkObserved(ForkObservation(b.height, b.blockId, OrphanIds(orphans)));
      Pick(AppendOutputs(s, b, kept), f)
      == Pick(Undos(orphans, s.solidifiedHead), f) + ToSeq(f(pushed)) + (if orphans == [] then [] else ToSeq(f(fork)))
  {
  }

  lemma PickSettle<T>(s: State, f: Output -> Option<T>)
    ensures Pick(Settle(s).1, f) ==
      if s.solidifiedHead.None? then [] else
        var head := s.solidifiedHead.value;
        var n := ResolvedCount(s.forkHistory, head);
        Pick(Irreversibles(Finalizing(s.canonical, head, s.lastIrreversible), head), f)
        + Pick(Resolutions(s.forkHistory[..n], head), f)
  {
    if s.solidifiedHead.Some? {
      var head := s.solidifiedHead.value;
      var n := ResolvedCount(s.forkHistory, head);
      PickAppend(Irreversibles(Finalizing(s.canonical, head, s.lastIrreversible), head),
        Resolutions(s.forkHistory[..n], head), f);
    }
  }
}
