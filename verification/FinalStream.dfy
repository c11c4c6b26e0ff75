/** The exact content of the Irreversible stream for well-formed headers. */
module FinalStream {
  import opened Types
  import opened EngineSpec
  import opened Heads
  import opened Streams
  import opened Replay
  import opened Finality

  function AsIrreversible(o: Output): Option<BufferedBlock> {
    if o.Irreversible? then Some(o.streamable.block) else None
  }

  function Finals(outs: seq<Output>): seq<BufferedBlock> { Pick(outs, AsIrreversible) }

  /** The first `n` blocks of the chain, without those at the lost positions. */
  function Part(chain: seq<BufferedBlock>, n: nat, lost: set<nat>): seq<BufferedBlock>
    requires n <= |chain|
  {
    if n == 0 then [] else Part(chain, n - 1, lost) + (if n - 1 in lost then [] else [chain[n - 1]])
  }

  /** Chain positions the last step pruned while they were above the solidified head. */
  ghost function DroppedAbove(s: State, c: Consumer, s': State, c': Consumer): set<nat> {
    set i: nat | StartOf(s, c) <= i < StartOf(s', c') && i < |c'.chain| && Above(c'.chain[i].height, s'.solidifiedHead)
  }

  /** Chain positions pruned, at any point of the run, before the solidified head reached them. */
  ghost function Lost(cfg: Config, inputs: seq<Input>): set<nat> {
    if inputs == [] then {}
    else
      var before := inputs[..|inputs| - 1];
      Lost(cfg, before) + DroppedAbove(After(cfg, before), Consumed(cfg, before), After(cfg, inputs),
        Consumed(cfg, inputs))
  }

  /** No chain block at or below the solidified head was pruned before the head reached it. */
  ghost predicate NothingLost(cfg: Config, inputs: seq<Input>) {
    forall i: nat :: i in Lost(cfg, inputs) ==>
      i >= Reached(Consumed(cfg, inputs).chain, After(cfg, inputs).solidifiedHead)
  }

  /** Every pruned position is either lost or was reached; nothing else is lost. */
  ghost predicate LostIsPruned(start: int, reached: nat, lost: set<nat>) {
    && (forall i: nat :: i in lost ==> i < start)
    && (forall i: nat :: i < start ==> i in lost || i < reached)
  }

  // Parts

  lemma {:induction false} PartExtends(chain: seq<BufferedBlock>, p: nat, q: nat, start: nat, lost: set<nat>)
    requires p <= q <= |chain| && start <= |chain| && LostIsPruned(start, p, lost)
    ensures Part(chain, q, lost) == Part(chain, p, lost) + chain[Max(start, p)..Max(start, q)]
  {
    if p < q {
      PartExtends(chain, p, q - 1, start, lost);
      if q - 1 >= start {
        assert chain[Max(start, p)..q] == chain[Max(start, p)..q - 1] + [chain[q - 1]];
      }
    }
  }

  lemma {:induction false} PartOfPrefix(a: seq<BufferedBlock>, b: seq<BufferedBlock>, n: nat, lost: set<nat>)
    requires n <= |a| && n <= |b| && a[..n] == b[..n]
    ensures Part(a, n, lost) == Part(b, n, lost)
  {
    if n > 0 {
      assert a[..n - 1] == a[..n][..n - 1] && b[..n - 1] == b[..n][..n - 1];
      assert a[n - 1] == a[..n][n - 1] && b[n - 1] == b[..n][n - 1];
      PartOfPrefix(a, b, n - 1, lost);
    }
  }

  lemma {:induction false} PartIgnoresLater(chain: seq<BufferedBlock>, n: nat, lost: set<nat>, more: set<nat>)
    requires n <= |chain| && forall i :: i in more ==> i >= n
    ensures Part(chain, n, lost + more) == Part(chain, n, lost)
  {
    if n > 0 {
      PartIgnoresLater(chain, n - 1, lost, more);
    }
  }

  lemma {:induction false} PartLength(chain: seq<BufferedBlock>, n: nat, lost: set<nat>)
    requires n <= |chain|
    ensures |Part(chain, n, lost)| <= n
    ensures |Part(chain, n, lost)| == n <==> forall i: nat :: i in lost ==> i >= n
    ensures (forall i: nat :: i in lost ==> i >= n) ==> Part(chain, n, lost) == chain[..n]
  {
    if n > 0 {
      PartLength(chain, n - 1, lost);
      assert chain[..n] == chain[..n - 1] + [chain[n - 1]];
      if |Part(chain, n, lost)| == n {
        forall i: nat | i in lost ensures i >= n {
          assert i >= n - 1;
        }
      }
    }
  }

  lemma PartWhole(chain: seq<BufferedBlock>, n: nat, lost: set<nat>)
    requires n <= |chain|
    ensures Part(chain, n, lost) == chain[..n] <==> forall i: nat :: i in lost ==> i >= n
  {
    PartLength(chain, n, lost);
  }

  // Picks

  lemma {:induction false} PickFired(fired: seq<BufferedBlock>, head: Height)
    ensures Finals(Irreversibles(fired, head)) == fired
  {
    if fired != [] {
      var n := |fired| - 1;
      PickFired(fired[..n], head);
      PickAppend(Irreversibles(fired[..n], head), [Finalize(fired[n], head)], AsIrreversible);
      PickOne(Finalize(fired[n], head), AsIrreversible);
    }
  }

  lemma FinalsOfSettle(s: State)
    ensures Finals(Settle(s).1) ==
      if s.solidifiedHead.None? then [] else Finalizing(s.canonical, s.solidifiedHead.value, s.lastIrreversible)
  {
    PickSettle(s, AsIrreversible);
    if s.solidifiedHead.Some? {
      var head := s.solidifiedHead.value;
      var forks := s.forkHistory[..ResolvedCount(s.forkHistory, head)];
      PickFired(Finalizing(s.canonical, head, s.lastIrreversible), head);
      AllResolved(forks, head);
      PickNothing(Resolutions(forks, head), AsIrreversible);
    }
  }

  lemma FinalsOfAppend(s: State, b: Block, kept: nat)
    requires kept <= |s.canonical|
    ensures Finals(AppendOutputs(s, b, kept)) == []
  {
    PickAppendOutputs(s, b, kept, AsIrreversible);
    AllUndo(s.canonical[kept..], s.solidifiedHead);
    PickNothing(Undos(s.canonical[kept..], s.solidifiedHead), AsIrreversible);
  }

  lemma FinalsAppend(a: seq<Output>, b: seq<Output>)
    ensures Finals(a + b) == Finals(a) + Finals(b)
  {
    PickAppend(a, b, AsIrreversible);
  }

  // Steps

  ghost predicate Exact(s: State, c: Consumer, finals: seq<BufferedBlock>, lost: set<nat>) {
    var n := Reached(c.chain, s.solidifiedHead);
    finals == Part(c.chain, n, lost) && LostIsPruned(StartOf(s, c), n, lost)
  }

  lemma SettleExact(s: State, c: Consumer, p: nat, finals: seq<BufferedBlock>, lost: set<nat>)
    requires Sound(s, c) && MarkedAt(s, c, p) && p <= Reached(c.chain, s.solidifiedHead)
    requires finals == Part(c.chain, p, lost) && LostIsPruned(StartOf(s, c), p, lost)
    ensures Exact(s, c, finals + Finals(Settle(s).1), lost)
  {
    SettleMarks(s, c, p);
    FinalsOfSettle(s);
    PartExtends(c.chain, p, Reached(c.chain, s.solidifiedHead), StartOf(s, c), lost);
    if s.solidifiedHead.None? {
      assert finals + [] == finals;
    }
  }

  /** Pruning loses exactly the dropped blocks the head has not reached. */
  lemma PruneExact(s: State, c: Consumer, s': State, c': Consumer, finals: seq<BufferedBlock>, lost: set<nat>,
      dropped: set<nat>)
    requires Exact(s, c, finals, lost) && AllWellFormed(c.chain) && Linked(c.chain)
    requires c'.chain == c.chain && s'.solidifiedHead == s.solidifiedHead
      && StartOf(s, c) <= StartOf(s', c') <= |c.chain|
    requires dropped == DroppedAbove(s, c, s', c') && StartOf(s, c) >= 0
    ensures Exact(s', c', finals, lost + dropped)
  {
    LinkedIsContiguous(c.chain);
    var n := Reached(c.chain, s.solidifiedHead);
    PartIgnoresLater(c.chain, n, lost, dropped);
  }

  lemma CutKeeps(chain: seq<BufferedBlock>, cut: nat, nb: BufferedBlock, p: nat)
    requires p <= cut <= |chain|
    ensures (chain[..cut] + [nb])[..p] == chain[..p]
  {
  }

  lemma AppendExact(s: State, c: Consumer, b: Block, kept: nat, finals: seq<BufferedBlock>, lost: set<nat>)
    requires Marked(s, c) && MayAppend(s, b, kept) && WellFormedHeader(b.height, b.blockId, b.parentId)
    requires Exact(s, c, finals, lost)
    ensures var c1 := c.(chain := Grown(s, c, b, kept));
      Exact(Append(s, b, kept), c1, finals + Finals(Settle(Append(s, b, kept)).1), lost)
  {
    var c1 := c.(chain := Grown(s, c, b, kept));
    var p := Reached(c.chain, s.solidifiedHead);
    AppendMarks(s, c, b, kept);
    CutKeeps(c.chain, StartOf(s, c) + kept, Buffer(b, s.nextForkId), p);
    PartOfPrefix(c.chain, c1.chain, p, lost);
    SettleExact(Append(s, b, kept), c1, p, finals, lost);
  }

  lemma FinalsOfAdmit(cfg: Config, s: State, b: Block, kept: nat)
    requires kept <= |s.canonical|
    ensures Finals(Admit(cfg, s, b, kept).1.value) == Finals(Settle(Append(s, b, kept)).1)
  {
    FinalsOfAppend(s, b, kept);
    FinalsAppend(AppendOutputs(s, b, kept), Settle(Append(s, b, kept)).1);
  }

  lemma GrownSound(s: State, c: Consumer, b: Block, kept: nat)
    requires Marked(s, c) && MayAppend(s, b, kept) && WellFormedHeader(b.height, b.blockId, b.parentId)
    ensures var c1 := c.(chain := Grown(s, c, b, kept));
      AllWellFormed(c1.chain) && Linked(c1.chain) && StartOf(Append(s, b, kept), c1) == StartOf(s, c) >= 0
  {
    AppendMarks(s, c, b, kept);
  }

  lemma DroppedFromSame(s: State, c: Consumer, s1: State, c1: Consumer, s': State, c': Consumer)
    requires StartOf(s, c) == StartOf(s1, c1)
    ensures DroppedAbove(s, c, s', c') == DroppedAbove(s1, c1, s', c')
  {
  }

  lemma AdmitExact(cfg: Config, s: State, c: Consumer, b: Block, kept: nat, s': State, c': Consumer,
      finals: seq<BufferedBlock>, lost: set<nat>)
    requires Marked(s, c) && MayAppend(s, b, kept) && WellFormedHeader(b.height, b.blockId, b.parentId)
    requires Exact(s, c, finals, lost)
    requires c'.chain == Grown(s, c, b, kept) && s'.solidifiedHead == s.solidifiedHead
    requires StartOf(s, c) <= StartOf(s', c') <= |c'.chain|
    ensures Exact(s', c', finals + Finals(Settle(Append(s, b, kept)).1), lost + DroppedAbove(s, c, s', c'))
  {
    var s1 := Append(s, b, kept);
    var c1 := c.(chain := Grown(s, c, b, kept));
    AppendExact(s, c, b, kept, finals, lost);
    GrownSound(s, c, b, kept);
    DroppedFromSame(s, c, s1, c1, s', c');
    PruneExact(s1, c1, s', c', finals + Finals(Settle(s1).1), lost, DroppedAbove(s1, c1, s', c'));
  }

  lemma DeliverExact(cfg: Config, s: State, c: Consumer, b: Block, c': Consumer, finals: seq<BufferedBlock>,
      lost: set<nat>)
    requires cfg.Valid() && Marked(s, c) && WellFormedHeader(b.height, b.blockId, b.parentId)
    requires Exact(s, c, finals, lost) && Accept(cfg, s, b).1.Ok?
    requires var (s', r) := Accept(cfg, s, b);
      Coupled(s', c') && c'.chain == ChainAfter(s, c, Deliver(b), r) && StartOf(s, c) <= StartOf(s', c')
    ensures var (s', r) := Accept(cfg, s, b);
      Exact(s', c', finals + Finals(r.value), lost + DroppedAbove(s, c, s', c'))
  {
    AcceptAdmits(cfg, s, b);
    FinalsOfAdmit(cfg, s, b, KeptBy(s, b));
    AdmitExact(cfg, s, c, b, KeptBy(s, b), Accept(cfg, s, b).0, c', finals, lost);
  }

  lemma NothingDropped(s: State, c: Consumer, s': State, c': Consumer, finals: seq<BufferedBlock>, lost: set<nat>)
    requires StartOf(s, c) == StartOf(s', c') && Exact(s', c', finals, lost)
    ensures Exact(s', c', finals, lost + DroppedAbove(s, c, s', c'))
  {
    assert lost + DroppedAbove(s, c, s', c') == lost;
  }

  lemma SolidifyExact(s: State, c: Consumer, head: Height, c': Consumer, finals: seq<BufferedBlock>, lost: set<nat>)
    requires Marked(s, c) && Exact(s, c, finals, lost) && c'.chain == c.chain
    ensures var (s', outs) := SetSolidifiedHead(s, head);
      StartOf(s', c') == StartOf(s, c) && Exact(s', c', finals + Finals(outs), lost)
  {
    if s.solidifiedHead.Some? && head <= s.solidifiedHead.value {
      assert finals + [] == finals;
    } else {
      SettleExact(s.(solidifiedHead := Some(head)), c, Reached(c.chain, s.solidifiedHead), finals, lost);
    }
  }

  lemma TakeExact(cfg: Config, s: State, c: Consumer, input: Input, c': Consumer, finals: seq<BufferedBlock>,
      lost: set<nat>)
    requires cfg.Valid() && Marked(s, c) && WellFormedInput(input) && Exact(s, c, finals, lost)
    requires var (s', r) := Take(cfg, s, input);
      Coupled(s', c') && c'.chain == ChainAfter(s, c, input, r) && StartOf(s, c) <= StartOf(s', c')
    ensures var (s', r) := Take(cfg, s, input);
      Exact(s', c', finals + Finals(Emitted(r)), lost + DroppedAbove(s, c, s', c'))
  {
    match input
    case Solidify(head) =>
      SolidifyExact(s, c, head, c', finals, lost);
      NothingDropped(s, c, SetSolidifiedHead(s, head).0, c', finals + Finals(SetSolidifiedHead(s, head).1), lost);
    case Deliver(b) =>
      if Accept(cfg, s, b).1.Ok? {
        DeliverExact(cfg, s, c, b, c', finals, lost);
      } else {
        RefusalKeepsState(cfg, s, b);
        assert finals + [] == finals;
        NothingDropped(s, c, s, c', finals, lost);
      }
  }

  // Runs

  lemma {:induction false} RunExact(cfg: Config, inputs: seq<Input>)
    requires cfg.Valid() && WellFormedInputs(inputs)
    ensures Exact(After(cfg, inputs), Consumed(cfg, inputs), Finals(Emissions(cfg, inputs)), Lost(cfg, inputs))
  {
    if inputs != [] {
      var before := inputs[..|inputs| - 1];
      RunExact(cfg, before);
      RunMarked(cfg, before);
      RunStep(cfg, inputs);
      var s := After(cfg, before);
      FinalsAppend(Emissions(cfg, before), Emitted(Take(cfg, s, inputs[|inputs| - 1]).1));
      TakeExact(cfg, s, Consumed(cfg, before), inputs[|inputs| - 1], Consumed(cfg, inputs),
        Finals(Emissions(cfg, before)), Lost(cfg, before));
    }
  }

  lemma RunFinals(cfg: Config, inputs: seq<Input>)
    requires cfg.Valid() && WellFormedInputs(inputs)
    ensures var chain := Consumed(cfg, inputs).chain;
      Finals(Emissions(cfg, inputs)) == Part(chain, Reached(chain, After(cfg, inputs).solidifiedHead),
        Lost(cfg, inputs))
  {
    RunExact(cfg, inputs);
  }

  /** The whole Irreversible stream of a run is, in order and once each, the chain's blocks at or below
      the greatest head reported, except those pruned before the head reached them. */
  lemma IrreversibleStreamExact(cfg: Config, inputs: seq<Input>)
    requires cfg.Valid() && WellFormedInputs(inputs)
    ensures var (head, chain) := (GreatestHead(inputs), Consumed(cfg, inputs).chain);
      var n := Reached(chain, head);
      && Finals(Emissions(cfg, inputs)) == Part(chain, n, Lost(cfg, inputs))
      && (forall i: nat :: i < |chain| ==> (i < n <==> head.Some? && chain[i].height <= head.value))
  {
    HeadIsGreatest(cfg, inputs);
    RunFinals(cfg, inputs);
    RunMarked(cfg, inputs);
    LinkedIsContiguous(Consumed(cfg, inputs).chain);
  }

  /** The stream is the whole final prefix of the chain exactly when no block at or below the head was
      pruned too early; in particular when nothing was ever pruned above the head. */
  lemma IrreversibleStreamCompleteIff(cfg: Config, inputs: seq<Input>)
    requires cfg.Valid() && WellFormedInputs(inputs)
    ensures var chain := Consumed(cfg, inputs).chain;
      var n := Reached(chain, GreatestHead(inputs));
      Finals(Emissions(cfg, inputs)) == chain[..n] <==> NothingLost(cfg, inputs)
  {
    HeadIsGreatest(cfg, inputs);
    RunFinals(cfg, inputs);
    var (s, chain) := (After(cfg, inputs), Consumed(cfg, inputs).chain);
    PartWhole(chain, Reached(chain, s.solidifiedHead), Lost(cfg, inputs));
  }

  lemma AppendHasNew(s: State, b: Block, kept: nat)
    requires kept <= |s.canonical|
    ensures var outs := AppendOutputs(s, b, kept);
      && New(Emit(StepNew, Buffer(b, s.nextForkId), s.solidifiedHead)) in outs
      && forall o :: o in outs ==> !o.Irreversible?
  {
    var orphans := s.canonical[kept..];
    AllUndo(orphans, s.solidifiedHead);
    assert AppendOutputs(s, b, kept)[|orphans|] == New(Emit(StepNew, Buffer(b, s.nextForkId), s.solidifiedHead));
  }

  lemma FiredIsSettled(s: State, b: BufferedBlock)
    requires s.solidifiedHead.Some?
    ensures var head := s.solidifiedHead.value;
      b in Finalizing(s.canonical, head, s.lastIrreversible) <==> Finalize(b, head) in Settle(s).1
  {
    var head := s.solidifiedHead.value;
    var fired := Finalizing(s.canonical, head, s.lastIrreversible);
    var forks := s.forkHistory[..ResolvedCount(s.forkHistory, head)];
    AllIrreversible(fired, head);
    AllResolved(forks, head);
    assert Settle(s).1 == Irreversibles(fired, head) + Resolutions(forks, head);
    if b in fired {
      var i :| 0 <= i < |fired| && fired[i] == b;
      assert Irreversibles(fired, head)[i] == Finalize(b, head);
    }
  }

  /** The freshly appended block is fired exactly when it is at or below the head. */
  lemma ArrivalFires(s: State, c: Consumer, b: Block, kept: nat)
    requires Marked(s, c) && MayAppend(s, b, kept) && WellFormedHeader(b.height, b.blockId, b.parentId)
    requires s.solidifiedHead.Some?
    ensures var s1 := Append(s, b, kept);
      b.height <= s.solidifiedHead.value
      <==> Buffer(b, s.nextForkId) in Finalizing(s1.canonical, s.solidifiedHead.value, s1.lastIrreversible)
  {
    var c1 := c.(chain := Grown(s, c, b, kept));
    AppendMarks(s, c, b, kept);
    assert Tip(c1.chain) == Buffer(b, s.nextForkId);
    TipFires(Append(s, b, kept), c1, Reached(c.chain, s.solidifiedHead));
  }

  lemma TipFires(s: State, c: Consumer, p: nat)
    requires Sound(s, c) && MarkedAt(s, c, p) && p <= Reached(c.chain, s.solidifiedHead)
    requires p < |c.chain| && s.canonical != [] && s.solidifiedHead.Some?
    ensures Tip(c.chain).height <= s.solidifiedHead.value
      <==> Tip(c.chain) in Finalizing(s.canonical, s.solidifiedHead.value, s.lastIrreversible)
  {
    LinkedIsContiguous(c.chain);
    SettleMarks(s, c, p);
    TipInSlice(c.chain, Max(StartOf(s, c), p), Max(StartOf(s, c), Reached(c.chain, s.solidifiedHead)));
    assert c.chain[|c.chain| - 1].height == c.chain[0].height + |c.chain| - 1;
  }

  lemma TipInSlice(chain: seq<BufferedBlock>, lo: nat, hi: nat)
    requires Contiguous(chain) && lo <= hi <= |chain| && lo < |chain|
    ensures Tip(chain) in chain[lo..hi] <==> hi == |chain|
  {
  }

  /** One event comes before the other. */
  ghost predicate Precedes(first: Output, second: Output, outs: seq<Output>) {
    exists i, j :: 0 <= i < j < |outs| && outs[i] == first && outs[j] == second
  }

  lemma PrecedesAcross(first: Output, second: Output, a: seq<Output>, b: seq<Output>)
    requires first in a && second in b
    ensures Precedes(first, second, a + b)
  {
    var i :| 0 <= i < |a| && a[i] == first;
    var j :| 0 <= j < |b| && b[j] == second;
    assert (a + b)[i] == first && (a + b)[|a| + j] == second;
  }

  /** A block that is final on arrival is announced New with tier Finalized and, later in the same call,
      Irreversible; a block announced New with a lower tier is not. */
  lemma FinalOnArrival(cfg: Config, inputs: seq<Input>, b: Block)
    requires cfg.Valid() && WellFormedInputs(inputs) && WellFormedHeader(b.height, b.blockId, b.parentId)
    requires Accept(cfg, After(cfg, inputs), b).1.Ok?
    ensures var s := After(cfg, inputs);
      var outs := Accept(cfg, s, b).1.value;
      var pushed := Emit(StepNew, Buffer(b, s.nextForkId), s.solidifiedHead);
      && New(pushed) in outs
      && (if pushed.finality.tier == Finalized
          then s.solidifiedHead.Some? && Precedes(New(pushed), Finalize(pushed.block, s.solidifiedHead.value), outs)
          else forall o :: o in outs && o.Irreversible? ==> o.streamable.block != pushed.block)
  {
    RunMarked(cfg, inputs);
    AdmittedOnArrival(cfg, After(cfg, inputs), Consumed(cfg, inputs), b);
  }

  lemma AdmittedOnArrival(cfg: Config, s: State, c: Consumer, b: Block)
    requires Marked(s, c) && WellFormedHeader(b.height, b.blockId, b.parentId) && Accept(cfg, s, b).1.Ok?
    ensures var outs := Accept(cfg, s, b).1.value;
      var pushed := Emit(StepNew, Buffer(b, s.nextForkId), s.solidifiedHead);
      && New(pushed) in outs
      && (if s.solidifiedHead.Some? && b.height <= s.solidifiedHead.value
          then Precedes(New(pushed), Finalize(pushed.block, s.solidifiedHead.value), outs)
          else forall o :: o in outs && o.Irreversible? ==> o.streamable.block != pushed.block)
  {
    AcceptAdmits(cfg, s, b);
    var kept := KeptBy(s, b);
    var s1 := Append(s, b, kept);
    var (nb, head) := (Buffer(b, s.nextForkId), s.solidifiedHead);
    AppendHasNew(s, b, kept);
    if head.Some? {
      ArrivalFires(s, c, b, kept);
      FiredIsSettled(s1, nb);
      if b.height <= head.value {
        PrecedesAcross(New(Emit(StepNew, nb, head)), Finalize(nb, head.value), AppendOutputs(s, b, kept), Settle(s1).1);
      } else {
        SettleFinalizes(s1);
      }
    }
  }

  /** Every Irreversible event of a settlement is the finalization of its block under the head. */
  lemma SettleFinalizes(s: State)
    requires s.solidifiedHead.Some?
    ensures forall o :: o in Settle(s).1 && o.Irreversible? ==>
      o == Finalize(o.streamable.block, s.solidifiedHead.value)
  {
    var head := s.solidifiedHead.value;
    AllIrreversible(Finalizing(s.canonical, head, s.lastIrreversible), head);
    AllResolved(s.forkHistory[..ResolvedCount(s.forkHistory, head)], head);
  }
}
