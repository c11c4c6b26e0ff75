/** The audit ledger of forks: nothing observed is lost, reordered or altered on its way to resolution. */
module ForkLedger {
  import opened Types
  import opened EngineSpec
  import opened Streams
  import opened Replay

  function AsObserved(o: Output): Option<ForkObservation> {
    if o.ForkObserved? then Some(o.observed) else None
  }

  function AsResolved(o: Output): Option<ForkObservation> {
    if o.ForkResolved? then Some(o.resolved) else None
  }

  function AsUndone(o: Output): Option<BlockId> {
    if o.Undo? then Some(o.streamable.block.blockId) else None
  }

  function Observed(outs: seq<Output>): seq<ForkObservation> { Pick(outs, AsObserved) }

  function Resolved(outs: seq<Output>): seq<ForkObservation> { Pick(outs, AsResolved) }

  function Undone(outs: seq<Output>): seq<BlockId> { Pick(outs, AsUndone) }

  function Orphans(forks: seq<ForkObservation>): seq<BlockId> {
    if forks == [] then [] else Orphans(forks[..|forks| - 1]) + forks[|forks| - 1].orphanedTips
  }

  /** No resolution is announced before the head has reached the observed height. */
  ghost predicate ResolvedInTime(outs: seq<Output>) {
    forall i :: 0 <= i < |outs| && outs[i].ForkResolved? ==> outs[i].resolved.observedAtHeight <= outs[i].finalizedHead
  }

  ghost predicate FrontIsPending(s: State) {
    s.forkHistory != [] ==> Above(s.forkHistory[0].observedAtHeight, s.solidifiedHead)
  }

  /** The kept tip of an observation is on the chain, or a later observation lists it as an orphan. */
  ghost predicate Accounted(forks: seq<ForkObservation>, k: nat, chain: seq<BufferedBlock>)
    requires k < |forks|
  {
    forks[k].keptTip in Ids(chain) || exists m :: k < m < |forks| && forks[k].keptTip in forks[m].orphanedTips
  }

  ghost predicate AllAccounted(forks: seq<ForkObservation>, chain: seq<BufferedBlock>) {
    forall k :: 0 <= k < |forks| ==> Accounted(forks, k, chain)
  }

  ghost predicate Conserved(s: State, chain: seq<BufferedBlock>, outs: seq<Output>) {
    && Observed(outs) == Resolved(outs) + s.forkHistory
    && Orphans(Observed(outs)) == Undone(outs)
    && AllAccounted(Observed(outs), chain)
  }

  // One append

  lemma {:induction false} PickUndone(orphans: seq<BufferedBlock>, head: Option<Height>)
    ensures Undone(Undos(orphans, head)) == OrphanIds(orphans)
  {
    if orphans != [] {
      var first := Undo(Emit(StepUndo, Tip(orphans), head));
      PickUndone(orphans[..|orphans| - 1], head);
      PickAppend([first], Undos(orphans[..|orphans| - 1], head), AsUndone);
      PickOne(first, AsUndone);
    }
  }

  lemma {:induction false} OrphanIdsComplete(orphans: seq<BufferedBlock>, k: nat)
    requires k < |orphans|
    ensures orphans[k].blockId in OrphanIds(orphans)
  {
    if k < |orphans| - 1 {
      OrphanIdsComplete(orphans[..|orphans| - 1], k);
    }
  }

  function NewFork(b: Block, orphans: seq<BufferedBlock>): ForkObservation {
    ForkObservation(b.height, b.blockId, OrphanIds(orphans))
  }

  lemma AppendObserves(s: State, b: Block, kept: nat)
    requires kept <= |s.canonical|
    ensures Observed(AppendOutputs(s, b, kept)) ==
      if s.canonical[kept..] == [] then [] else [NewFork(b, s.canonical[kept..])]
  {
    var undos := Undos(s.canonical[kept..], s.solidifiedHead);
    AllUndo(s.canonical[kept..], s.solidifiedHead);
    PickAppendOutputs(s, b, kept, AsObserved);
    PickNothing(undos, AsObserved);
  }

  lemma AppendResolves(s: State, b: Block, kept: nat)
    requires kept <= |s.canonical|
    ensures Resolved(AppendOutputs(s, b, kept)) == []
  {
    var undos := Undos(s.canonical[kept..], s.solidifiedHead);
    AllUndo(s.canonical[kept..], s.solidifiedHead);
    PickAppendOutputs(s, b, kept, AsResolved);
    PickNothing(undos, AsResolved);
  }

  lemma AppendUndoes(s: State, b: Block, kept: nat)
    requires kept <= |s.canonical|
    ensures Undone(AppendOutputs(s, b, kept)) == OrphanIds(s.canonical[kept..])
  {
    PickAppendOutputs(s, b, kept, AsUndone);
    PickUndone(s.canonical[kept..], s.solidifiedHead);
  }

  lemma AppendPicks(s: State, b: Block, kept: nat)
    requires kept <= |s.canonical|
    ensures var outs := AppendOutputs(s, b, kept);
      var orphans := s.canonical[kept..];
      && Observed(outs) == (if orphans == [] then [] else [ForkObservation(b.height, b.blockId, OrphanIds(orphans))])
      && Resolved(outs) == []
      && Undone(outs) == OrphanIds(orphans)
  {
    AppendObserves(s, b, kept);
    AppendResolves(s, b, kept);
    AppendUndoes(s, b, kept);
  }

  lemma AppendOrphans(forks: seq<ForkObservation>, fork: ForkObservation)
    ensures Orphans(forks + [fork]) == Orphans(forks) + fork.orphanedTips
  {
  }

  /** An old kept tip survives the cut or is one of the new orphans. */
  lemma StillAccounted(forks: seq<ForkObservation>, k: nat, chain: seq<BufferedBlock>, cut: nat, nb: BufferedBlock,
      fork: ForkObservation)
    requires k < |forks| && Accounted(forks, k, chain) && cut <= |chain|
    requires fork.orphanedTips == OrphanIds(chain[cut..])
    ensures Accounted(if chain[cut..] == [] then forks else forks + [fork], k, chain[..cut] + [nb])
  {
    var grown := chain[..cut] + [nb];
    if forks[k].keptTip in Ids(chain) {
      var i :| 0 <= i < |chain| && chain[i].blockId == forks[k].keptTip;
      if i < cut {
        assert grown[i] == chain[i];
      } else {
        OrphanIdsComplete(chain[cut..], i - cut);
        assert (forks + [fork])[|forks|].orphanedTips == OrphanIds(chain[cut..]);
      }
    } else {
      var m :| k < m < |forks| && forks[k].keptTip in forks[m].orphanedTips;
      assert (forks + [fork])[m] == forks[m];
    }
  }

  /** The three picks of two streams in a row. */
  lemma LedgerAppend(a: seq<Output>, b: seq<Output>)
    ensures Observed(a + b) == Observed(a) + Observed(b)
    ensures Resolved(a + b) == Resolved(a) + Resolved(b)
    ensures Undone(a + b) == Undone(a) + Undone(b)
  {
    PickAppend(a, b, AsObserved);
    PickAppend(a, b, AsResolved);
    PickAppend(a, b, AsUndone);
  }

  lemma AllStillAccounted(forks: seq<ForkObservation>, chain: seq<BufferedBlock>, cut: nat, nb: BufferedBlock,
      fork: ForkObservation)
    requires AllAccounted(forks, chain)
    requires cut <= |chain| && fork.orphanedTips == OrphanIds(chain[cut..]) && fork.keptTip == nb.blockId
    ensures AllAccounted(if chain[cut..] == [] then forks else forks + [fork], chain[..cut] + [nb])
  {
    var forks' := if chain[cut..] == [] then forks else forks + [fork];
    var grown := chain[..cut] + [nb];
    assert nb in grown;
    forall k | 0 <= k < |forks'| ensures Accounted(forks', k, grown) {
      if k < |forks| {
        StillAccounted(forks, k, chain, cut, nb, fork);
      }
    }
  }

  lemma AppendKeepsQueue(s: State, outs: seq<Output>, b: Block, kept: nat)
    requires kept <= |s.canonical| && Observed(outs) == Resolved(outs) + s.forkHistory
    ensures var outs' := outs + AppendOutputs(s, b, kept);
      Observed(outs') == Resolved(outs') + Append(s, b, kept).forkHistory
  {
    var outs' := outs + AppendOutputs(s, b, kept);
    AppendPicks(s, b, kept);
    LedgerAppend(outs, AppendOutputs(s, b, kept));
    var more := if s.canonical[kept..] == [] then []
      else [ForkObservation(b.height, b.blockId, OrphanIds(s.canonical[kept..]))];
    assert Observed(outs') == Observed(outs) + more && Resolved(outs') == Resolved(outs) + [];
    QueueGrows(Observed(outs), Resolved(outs), s.forkHistory, more);
    assert Append(s, b, kept).forkHistory == s.forkHistory + more;
  }

  lemma QueueGrows(observed: seq<ForkObservation>, resolved: seq<ForkObservation>, queue: seq<ForkObservation>,
      more: seq<ForkObservation>)
    requires observed == resolved + queue
    ensures observed + more == (resolved + []) + (queue + more)
  {
  }

  lemma AppendKeepsOrphans(s: State, outs: seq<Output>, b: Block, kept: nat)
    requires kept <= |s.canonical| && Orphans(Observed(outs)) == Undone(outs)
    ensures var outs' := outs + AppendOutputs(s, b, kept); Orphans(Observed(outs')) == Undone(outs')
  {
    AppendPicks(s, b, kept);
    LedgerAppend(outs, AppendOutputs(s, b, kept));
    AppendOrphans(Observed(outs), ForkObservation(b.height, b.blockId, OrphanIds(s.canonical[kept..])));
    if s.canonical[kept..] == [] {
      assert Observed(outs) + [] == Observed(outs) && Undone(outs) + [] == Undone(outs);
    }
  }

  lemma ObservedAfterAppend(s: State, outs: seq<Output>, b: Block, kept: nat)
    requires kept <= |s.canonical|
    ensures Observed(outs + AppendOutputs(s, b, kept)) ==
      if s.canonical[kept..] == [] then Observed(outs)
      else Observed(outs) + [ForkObservation(b.height, b.blockId, OrphanIds(s.canonical[kept..]))]
  {
    AppendPicks(s, b, kept);
    LedgerAppend(outs, AppendOutputs(s, b, kept));
  }

  lemma AppendKeepsTips(s: State, c: Consumer, forks: seq<ForkObservation>, b: Block, kept: nat)
    requires kept <= |s.canonical| <= |c.chain| && s.canonical == c.chain[StartOf(s, c)..]
    requires AllAccounted(forks, c.chain)
    ensures AllAccounted(
      if s.canonical[kept..] == [] then forks
      else forks + [ForkObservation(b.height, b.blockId, OrphanIds(s.canonical[kept..]))], Grown(s, c, b, kept))
  {
    var orphans := s.canonical[kept..];
    assert orphans == c.chain[StartOf(s, c) + kept..];
    AllStillAccounted(forks, c.chain, StartOf(s, c) + kept, Buffer(b, s.nextForkId),
      ForkObservation(b.height, b.blockId, OrphanIds(orphans)));
  }

  lemma AppendConserves(s: State, c: Consumer, outs: seq<Output>, b: Block, kept: nat)
    requires Coupled(s, c) && MayAppend(s, b, kept) && Conserved(s, c.chain, outs)
    ensures Conserved(Append(s, b, kept), Grown(s, c, b, kept), outs + AppendOutputs(s, b, kept))
  {
    AppendKeepsQueue(s, outs, b, kept);
    AppendKeepsOrphans(s, outs, b, kept);
    AppendKeepsTips(s, c, Observed(outs), b, kept);
    ObservedAfterAppend(s, outs, b, kept);
  }

  // One settlement

  lemma {:induction false} PickResolved(forks: seq<ForkObservation>, head: Height)
    ensures Resolved(Resolutions(forks, head)) == forks
  {
    if forks != [] {
      var n := |forks| - 1;
      PickResolved(forks[..n], head);
      PickAppend(Resolutions(forks[..n], head), [ForkResolved(forks[n], head)], AsResolved);
      PickOne(ForkResolved(forks[n], head), AsResolved);
    }
  }

  lemma FiredPicks(fired: seq<BufferedBlock>, head: Height)
    ensures var outs := Irreversibles(fired, head); Observed(outs) == Resolved(outs) == [] && Undone(outs) == []
  {
  }

  lemma ResolvedPicks(forks: seq<ForkObservation>, head: Height)
    ensures var outs := Resolutions(forks, head); Observed(outs) == [] && Resolved(outs) == forks && Undone(outs) == []
  {
    var outs := Resolutions(forks, head);
    AllResolved(forks, head);
    PickNothing(outs, AsObserved);
    PickResolved(forks, head);
    PickNothing(outs, AsUndone);
  }

  lemma SettlementPicks(fired: seq<Output>, done: seq<Output>)
    requires Observed(fired) == [] && Undone(fired) == [] && Resolved(fired) == []
    requires Observed(done) == [] && Undone(done) == []
    ensures Observed(fired + done) == [] && Undone(fired + done) == [] && Resolved(fired + done) == Resolved(done)
  {
    LedgerAppend(fired, done);
  }

  lemma SettlePicks(s: State)
    ensures var (s', outs) := Settle(s);
      && Observed(outs) == [] && Undone(outs) == []
      && Resolved(outs) + s'.forkHistory == s.forkHistory
  {
    if s.solidifiedHead.Some? {
      var head := s.solidifiedHead.value;
      var fired := Finalizing(s.canonical, head, s.lastIrreversible);
      var n := ResolvedCount(s.forkHistory, head);
      FiredPicks(fired, head);
      ResolvedPicks(s.forkHistory[..n], head);
      SettlementPicks(Irreversibles(fired, head), Resolutions(s.forkHistory[..n], head));
    }
  }

  lemma SettleConserves(s: State, chain: seq<BufferedBlock>, outs: seq<Output>)
    requires Conserved(s, chain, outs)
    ensures Conserved(Settle(s).0, chain, outs + Settle(s).1)
  {
    var (s', more) := Settle(s);
    SettlePicks(s);
    LedgerAppend(outs, more);
    ConservedBySettle(Observed(outs), Resolved(outs), Resolved(more), s.forkHistory, s'.forkHistory);
    assert Observed(outs) + [] == Observed(outs) && Undone(outs) + [] == Undone(outs);
  }

  lemma ConservedBySettle(observed: seq<ForkObservation>, resolved: seq<ForkObservation>, more: seq<ForkObservation>,
      pending: seq<ForkObservation>, pending': seq<ForkObservation>)
    requires observed == resolved + pending && more + pending' == pending
    ensures observed == (resolved + more) + pending'
  {
  }

  lemma {:induction false} ResolvedCountExact(forks: seq<ForkObservation>, head: Height)
    ensures var n := ResolvedCount(forks, head);
      && (forall i :: 0 <= i < n ==> forks[i].observedAtHeight <= head)
      && (n < |forks| ==> forks[n].observedAtHeight > head)
  {
    if forks != [] && forks[0].observedAtHeight <= head {
      ResolvedCountExact(forks[1..], head);
    }
  }

  /** A settlement leaves a pending front and announces no resolution early. */
  lemma SettleInTime(s: State)
    ensures FrontIsPending(Settle(s).0) && ResolvedInTime(Settle(s).1)
  {
    if s.solidifiedHead.Some? {
      var head := s.solidifiedHead.value;
      var n := ResolvedCount(s.forkHistory, head);
      ResolvedCountExact(s.forkHistory, head);
      AllIrreversible(Finalizing(s.canonical, head, s.lastIrreversible), head);
      AllResolved(s.forkHistory[..n], head);
    }
  }

  lemma AppendInTime(s: State, b: Block, kept: nat)
    requires kept <= |s.canonical|
    ensures ResolvedInTime(AppendOutputs(s, b, kept))
  {
    AllUndo(s.canonical[kept..], s.solidifiedHead);
  }

  // Any step, any run

  lemma InTimeAppend(a: seq<Output>, b: seq<Output>)
    requires ResolvedInTime(a) && ResolvedInTime(b)
    ensures ResolvedInTime(a + b)
  {
  }

  lemma ConservedRegrouped(s: State, chain: seq<BufferedBlock>, outs: seq<Output>, a: seq<Output>, b: seq<Output>)
    requires Conserved(s, chain, (outs + a) + b)
    ensures Conserved(s, chain, outs + (a + b))
  {
    assert outs + (a + b) == (outs + a) + b;
  }

  lemma AdmitConserves(cfg: Config, s: State, c: Consumer, outs: seq<Output>, b: Block, kept: nat)
    requires cfg.Valid() && Coupled(s, c) && MayAppend(s, b, kept) && Conserved(s, c.chain, outs)
    ensures var (s', r) := Admit(cfg, s, b, kept);
      && Conserved(s', Grown(s, c, b, kept), outs + r.value)
      && FrontIsPending(s') && ResolvedInTime(r.value)
  {
    var s1 := Append(s, b, kept);
    var (a, tail) := (AppendOutputs(s, b, kept), Settle(s1).1);
    AppendConserves(s, c, outs, b, kept);
    SettleConserves(s1, Grown(s, c, b, kept), outs + a);
    ConservedRegrouped(Settle(s1).0, Grown(s, c, b, kept), outs, a, tail);
    AppendInTime(s, b, kept);
    SettleInTime(s1);
    InTimeAppend(a, tail);
  }

  lemma TakeConserves(cfg: Config, s: State, c: Consumer, outs: seq<Output>, input: Input)
    requires cfg.Valid() && Coupled(s, c) && FrontIsPending(s)
    requires Conserved(s, c.chain, outs)
    ensures var (s', r) := Take(cfg, s, input);
      && Conserved(s', ChainAfter(s, c, input, r), outs + Emitted(r))
      && FrontIsPending(s') && ResolvedInTime(Emitted(r))
  {
    assert outs + [] == outs;
    match input
    case Solidify(head) => SolidifyConserves(s, c.chain, outs, head);
    case Deliver(b) =>
      AcceptAdmits(cfg, s, b);
      if Accept(cfg, s, b).1.Ok? {
        AdmitConserves(cfg, s, c, outs, b, KeptBy(s, b));
      } else {
        RefusalKeepsState(cfg, s, b);
      }
  }

  lemma SolidifyConserves(s: State, chain: seq<BufferedBlock>, outs: seq<Output>, head: Height)
    requires Conserved(s, chain, outs) && FrontIsPending(s)
    ensures var (s', more) := SetSolidifiedHead(s, head);
      Conserved(s', chain, outs + more) && FrontIsPending(s') && ResolvedInTime(more)
  {
    if s.solidifiedHead.Some? && head <= s.solidifiedHead.value {
      assert outs + [] == outs;
    } else {
      SettleConserves(s.(solidifiedHead := Some(head)), chain, outs);
      SettleInTime(s.(solidifiedHead := Some(head)));
    }
  }

  /** Fork ledger conservation, over any run: what was observed is what was resolved followed by the
      pending queue, in order and field for field; the orphans listed are the blocks undone, in order;
      no resolution precedes the head; the queue's front is above the head; and every kept tip is still
      on the chain or listed as an orphan of a later observation. */
  lemma {:induction false} LedgerConserved(cfg: Config, inputs: seq<Input>)
    requires cfg.Valid()
    ensures var outs := Emissions(cfg, inputs);
      && Observed(outs) == Resolved(outs) + After(cfg, inputs).forkHistory
      && Orphans(Observed(outs)) == Undone(outs)
      && AllAccounted(Observed(outs), Consumed(cfg, inputs).chain)
      && FrontIsPending(After(cfg, inputs))
      && ResolvedInTime(outs)
  {
    if inputs != [] {
      var before := inputs[..|inputs| - 1];
      LedgerConserved(cfg, before);
      RunStep(cfg, inputs);
      TakeConserves(cfg, After(cfg, before), Consumed(cfg, before), Emissions(cfg, before), inputs[|inputs| - 1]);
    }
  }
}
