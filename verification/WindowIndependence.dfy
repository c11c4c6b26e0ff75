/** The buffer window is only a matter of reach: as long as the narrower engine finds every parent, a
    wider one tells consumers the same story. */
module WindowIndependence {
  import opened Types
  import opened EngineSpec
  import opened Streams
  import opened Replay
  import opened Finality

  /** Everything but the Irreversible events, with fork ids and finality envelopes. */
  function AsVisible(o: Output): Option<Output> {
    if o.Irreversible? then None else Some(o)
  }

  function Visible(outs: seq<Output>): seq<Output> { Pick(outs, AsVisible) }

  predicate MissesParent(r: Answer) {
    r.Err? && r.error.ParentNotInBuffer?
  }

  /** The engine finds the parent of every block of the run. */
  ghost predicate FindsParents(cfg: Config, inputs: seq<Input>) {
    inputs != [] ==>
      var before := inputs[..|inputs| - 1];
      FindsParents(cfg, before) && !MissesParent(Take(cfg, After(cfg, before), inputs[|inputs| - 1]).1)
  }

  /** Both accept and show the same events, or both refuse for the same reason. */
  ghost predicate SameAnswer(r1: Answer, r2: Answer) {
    if r1.Ok? then r2.Ok? && Visible(r1.value) == Visible(r2.value)
    else r2.Err? && match r1.error
      case ParentNotInBuffer(_, _, _, _) => r2.error.ParentNotInBuffer?
      case ReorgBelowFinality(height, _) => r2.error.ReorgBelowFinality? && r2.error.height == height
      case DuplicateBlock(id) => r2.error == DuplicateBlock(id)
  }

  /** Same chain, same head, same pending forks and fork ids; the first buffer may be shorter. */
  ghost predicate Twins(s1: State, c1: Consumer, s2: State, c2: Consumer) {
    && c1.chain == c2.chain
    && |s1.canonical| <= |s2.canonical|
    && s1.solidifiedHead == s2.solidifiedHead
    && s1.forkHistory == s2.forkHistory
    && s1.nextForkId == s2.nextForkId
  }

  lemma VisibleAppend(a: seq<Output>, b: seq<Output>)
    ensures Visible(a + b) == Visible(a) + Visible(b)
  {
    PickAppend(a, b, AsVisible);
  }

  lemma {:induction false} AllVisible(outs: seq<Output>)
    requires forall i :: 0 <= i < |outs| ==> !outs[i].Irreversible?
    ensures Visible(outs) == outs
  {
    if outs != [] {
      AllVisible(outs[..|outs| - 1]);
    }
  }

  /** Only the resolutions of a settlement are visible, and they depend on head and queue alone. */
  lemma VisibleSettle(s: State)
    ensures Visible(Settle(s).1) ==
      if s.solidifiedHead.None? then []
      else Resolutions(s.forkHistory[..ResolvedCount(s.forkHistory, s.solidifiedHead.value)], s.solidifiedHead.value)
  {
    if s.solidifiedHead.Some? {
      var head := s.solidifiedHead.value;
      var fired := Finalizing(s.canonical, head, s.lastIrreversible);
      var forks := s.forkHistory[..ResolvedCount(s.forkHistory, head)];
      AllIrreversible(fired, head);
      AllResolved(forks, head);
      PickNothing(Irreversibles(fired, head), AsVisible);
      AllVisible(Resolutions(forks, head));
      VisibleAppend(Irreversibles(fired, head), Resolutions(forks, head));
    }
  }

  lemma SuffixOfTwins(s1: State, c1: Consumer, s2: State, c2: Consumer)
    requires Coupled(s1, c1) && Coupled(s2, c2) && Twins(s1, c1, s2, c2)
    ensures var d := |s2.canonical| - |s1.canonical|; s1.canonical == s2.canonical[d..]
    ensures s1.canonical == [] <==> s2.canonical == []
  {
  }

  /** A well-formed child of a buffered block is higher than everything before that block. */
  lemma NotOlder(s: State, c: Consumer, b: Block, i: nat, j: nat)
    requires Marked(s, c) && j <= i < |s.canonical| && s.canonical[i].blockId == b.parentId
    requires WellFormedHeader(b.height, b.blockId, b.parentId)
    ensures s.canonical[j].blockId != b.blockId
  {
    LinkedIsContiguous(c.chain);
    var start := StartOf(s, c);
    assert s.canonical[i] == c.chain[start + i] && s.canonical[j] == c.chain[start + j];
    assert WellFormed(c.chain[start + i]) && WellFormed(c.chain[start + j]);
  }

  /** A block the narrower buffer does not hold, with a parent it holds, is not in the wider one. */
  lemma TwinNovelty(s1: State, s2: State, c2: Consumer, b: Block)
    requires Marked(s2, c2) && |s1.canonical| <= |s2.canonical|
    requires s1.canonical == s2.canonical[|s2.canonical| - |s1.canonical|..]
    requires WellFormedHeader(b.height, b.blockId, b.parentId)
    requires b.blockId !in Ids(s1.canonical) && b.parentId in Ids(s1.canonical)
    ensures b.blockId !in Ids(s2.canonical)
  {
    var d := |s2.canonical| - |s1.canonical|;
    var i := RPosition(s1.canonical, b.parentId);
    assert s2.canonical[d + i] == s1.canonical[i];
    forall j | 0 <= j < |s2.canonical| ensures s2.canonical[j].blockId != b.blockId {
      if j <= d + i {
        NotOlder(s2, c2, b, d + i, j);
      } else {
        assert s1.canonical[j - d] == s2.canonical[j] && s1.canonical[j - d].blockId in Ids(s1.canonical);
      }
    }
  }

  lemma TwinGuard(s1: State, c1: Consumer, s2: State, c2: Consumer, k1: nat, k2: nat)
    requires Marked(s1, c1) && Marked(s2, c2) && s1.solidifiedHead == s2.solidifiedHead
    requires k1 < |s1.canonical| && k2 < |s2.canonical| && s1.canonical[k1] == s2.canonical[k2]
    ensures Above(s1.canonical[k1].height, s1.lastIrreversible) <==> Above(s2.canonical[k2].height, s2.lastIrreversible)
  {
    GuardIsHead(s1, c1, k1);
    GuardIsHead(s2, c2, k2);
  }

  /** What one engine may append, the other may, at the same place of the chain. */
  lemma TwinsAgree(s1: State, c1: Consumer, s2: State, c2: Consumer, b: Block)
    requires Marked(s1, c1) && Marked(s2, c2) && Twins(s1, c1, s2, c2)
    requires WellFormedHeader(b.height, b.blockId, b.parentId)
    requires b.blockId !in Ids(s1.canonical) && b.parentId in Ids(s1.canonical)
    ensures KeptBy(s2, b) == KeptBy(s1, b) + |s2.canonical| - |s1.canonical|
    ensures s1.canonical[KeptBy(s1, b)..] == s2.canonical[KeptBy(s2, b)..]
    ensures b.blockId !in Ids(s2.canonical) && b.parentId in Ids(s2.canonical)
  {
    SuffixOfTwins(s1, c1, s2, c2);
    SuffixAgrees(s1, s2, c2, b);
  }

  lemma SuffixAgrees(s1: State, s2: State, c2: Consumer, b: Block)
    requires |s1.canonical| <= |s2.canonical| && s1.canonical == s2.canonical[|s2.canonical| - |s1.canonical|..]
    requires Marked(s2, c2) && WellFormedHeader(b.height, b.blockId, b.parentId)
    requires b.blockId !in Ids(s1.canonical) && b.parentId in Ids(s1.canonical)
    ensures KeptBy(s1, b) <= |s1.canonical| && KeptBy(s2, b) == KeptBy(s1, b) + |s2.canonical| - |s1.canonical|
    ensures s1.canonical[KeptBy(s1, b)..] == s2.canonical[KeptBy(s2, b)..]
    ensures b.blockId !in Ids(s2.canonical) && b.parentId in Ids(s2.canonical)
  {
    KeptTwins(s1, s2, b);
    TwinNovelty(s1, s2, c2, b);
    TailOfSuffix(s1.canonical, s2.canonical, KeptBy(s1, b));
  }

  lemma KeptTwins(s1: State, s2: State, b: Block)
    requires |s1.canonical| <= |s2.canonical| && s1.canonical == s2.canonical[|s2.canonical| - |s1.canonical|..]
    requires DistinctIds(s2.canonical) && b.parentId in Ids(s1.canonical)
    ensures b.parentId in Ids(s2.canonical) && KeptBy(s1, b) <= |s1.canonical|
    ensures KeptBy(s2, b) == KeptBy(s1, b) + |s2.canonical| - |s1.canonical|
  {
  }

  lemma TailOfSuffix(a: seq<BufferedBlock>, b: seq<BufferedBlock>, k: nat)
    requires k <= |a| <= |b| && a == b[|b| - |a|..]
    ensures a[k..] == b[k + |b| - |a|..]
  {
  }

  ghost predicate GuardFree(s: State, k: nat) {
    k < |s.canonical| ==> Above(s.canonical[k].height, s.lastIrreversible)
  }

  lemma MayAppendIffGuardFree(s: State, b: Block)
    requires b.blockId !in Ids(s.canonical) && b.parentId in Ids(s.canonical)
    ensures MayAppend(s, b, KeptBy(s, b)) <==> GuardFree(s, KeptBy(s, b))
  {
  }

  lemma TwinsMayAppend(s1: State, c1: Consumer, s2: State, c2: Consumer, b: Block)
    requires Marked(s1, c1) && Marked(s2, c2) && Twins(s1, c1, s2, c2)
    requires b.blockId !in Ids(s1.canonical) && b.parentId in Ids(s1.canonical)
    requires b.blockId !in Ids(s2.canonical) && b.parentId in Ids(s2.canonical)
    requires s1.canonical[KeptBy(s1, b)..] == s2.canonical[KeptBy(s2, b)..]
    ensures MayAppend(s1, b, KeptBy(s1, b)) <==> MayAppend(s2, b, KeptBy(s2, b))
  {
    var (k1, k2) := (KeptBy(s1, b), KeptBy(s2, b));
    MayAppendIffGuardFree(s1, b);
    MayAppendIffGuardFree(s2, b);
    if k1 < |s1.canonical| {
      assert s1.canonical[k1..][0] == s2.canonical[k2..][0];
      TwinGuard(s1, c1, s2, c2, k1, k2);
    }
  }

  /** Both engines admit on top of the same chain block, and show the same. */
  lemma AdmitTwins(cfg1: Config, s1: State, cfg2: Config, s2: State, b: Block, k1: nat, k2: nat)
    requires k1 <= |s1.canonical| && k2 <= |s2.canonical| && s1.canonical[k1..] == s2.canonical[k2..]
    requires s1.solidifiedHead == s2.solidifiedHead && s1.forkHistory == s2.forkHistory
      && s1.nextForkId == s2.nextForkId
    ensures SameAnswer(Admit(cfg1, s1, b, k1).1, Admit(cfg2, s2, b, k2).1)
    ensures var (t1, t2) := (Admit(cfg1, s1, b, k1).0, Admit(cfg2, s2, b, k2).0);
      t1.solidifiedHead == t2.solidifiedHead && t1.forkHistory == t2.forkHistory && t1.nextForkId == t2.nextForkId
  {
    VisibleAppend(AppendOutputs(s1, b, k1), Settle(Append(s1, b, k1)).1);
    VisibleAppend(AppendOutputs(s2, b, k2), Settle(Append(s2, b, k2)).1);
    VisibleSettle(Append(s1, b, k1));
    VisibleSettle(Append(s2, b, k2));
  }

  lemma AdmitLengths(cfg: Config, s: State, b: Block, kept: nat)
    requires kept <= |s.canonical|
    ensures |Admit(cfg, s, b, kept).0.canonical| == Min(cfg.bufferWindow, kept + 1)
  {
  }

  ghost predicate SameRegisters(s1: State, s2: State) {
    s1.solidifiedHead == s2.solidifiedHead && s1.forkHistory == s2.forkHistory && s1.nextForkId == s2.nextForkId
  }

  /** Refused for the same reason: the parent is in both buffers, so only the finality guard is left. */
  lemma RefusedTwins(cfg1: Config, s1: State, cfg2: Config, s2: State, b: Block)
    requires b.blockId !in Ids(s1.canonical) && b.parentId in Ids(s1.canonical) && Accept(cfg1, s1, b).1.Err?
    requires b.blockId !in Ids(s2.canonical) && b.parentId in Ids(s2.canonical) && Accept(cfg2, s2, b).1.Err?
    ensures Accept(cfg1, s1, b).0 == s1 && Accept(cfg2, s2, b).0 == s2
    ensures SameAnswer(Accept(cfg1, s1, b).1, Accept(cfg2, s2, b).1)
  {
  }

  lemma DuplicateTwins(cfg1: Config, s1: State, cfg2: Config, s2: State, b: Block)
    requires b.blockId in Ids(s1.canonical) && b.blockId in Ids(s2.canonical)
    ensures Accept(cfg1, s1, b) == (s1, Err(DuplicateBlock(b.blockId)))
    ensures Accept(cfg2, s2, b) == (s2, Err(DuplicateBlock(b.blockId)))
  {
  }

  /** Outcome of two steps: same answer, same registers, same chain, ordered buffers. */
  ghost predicate InStep(s1: State, c1: Consumer, s2: State, c2: Consumer, b: Block, t1: State, r1: Answer, t2: State,
      r2: Answer)
  {
    && SameAnswer(r1, r2) && SameRegisters(t1, t2) && |t1.canonical| <= |t2.canonical|
    && ChainAfter(s1, c1, Deliver(b), r1) == ChainAfter(s2, c2, Deliver(b), r2)
  }

  lemma AdmitInStep(cfg1: Config, s1: State, c1: Consumer, cfg2: Config, s2: State, c2: Consumer, b: Block)
    requires cfg1.bufferWindow <= cfg2.bufferWindow && Twins(s1, c1, s2, c2)
    requires KeptBy(s1, b) <= |s1.canonical| <= |c1.chain| && |s2.canonical| <= |c2.chain|
    requires KeptBy(s2, b) == KeptBy(s1, b) + |s2.canonical| - |s1.canonical|
    requires s1.canonical[KeptBy(s1, b)..] == s2.canonical[KeptBy(s2, b)..]
    ensures var (a1, a2) := (Admit(cfg1, s1, b, KeptBy(s1, b)), Admit(cfg2, s2, b, KeptBy(s2, b)));
      InStep(s1, c1, s2, c2, b, a1.0, a1.1, a2.0, a2.1)
  {
    AdmitTwins(cfg1, s1, cfg2, s2, b, KeptBy(s1, b), KeptBy(s2, b));
    AdmitLengths(cfg1, s1, b, KeptBy(s1, b));
    AdmitLengths(cfg2, s2, b, KeptBy(s2, b));
    GrownTwins(s1, c1, s2, c2, b, KeptBy(s1, b), KeptBy(s2, b));
  }

  lemma GrownTwins(s1: State, c1: Consumer, s2: State, c2: Consumer, b: Block, k1: nat, k2: nat)
    requires Twins(s1, c1, s2, c2)
    requires k1 <= |s1.canonical| <= |c1.chain| && k2 <= |s2.canonical| <= |c2.chain|
      && k2 == k1 + |s2.canonical| - |s1.canonical|
    ensures Grown(s1, c1, b, k1) == Grown(s2, c2, b, k2)
  {
  }

  /** The parent is buffered on both sides. */
  lemma ChildTwins(cfg1: Config, s1: State, c1: Consumer, cfg2: Config, s2: State, c2: Consumer, b: Block)
    requires cfg1.bufferWindow <= cfg2.bufferWindow
    requires Marked(s1, c1) && Marked(s2, c2) && Twins(s1, c1, s2, c2)
    requires WellFormedHeader(b.height, b.blockId, b.parentId)
    requires b.blockId !in Ids(s1.canonical) && b.parentId in Ids(s1.canonical)
    ensures var (a1, a2) := (Accept(cfg1, s1, b), Accept(cfg2, s2, b));
      InStep(s1, c1, s2, c2, b, a1.0, a1.1, a2.0, a2.1)
  {
    TwinsAgree(s1, c1, s2, c2, b);
    TwinsMayAppend(s1, c1, s2, c2, b);
    AcceptAdmits(cfg1, s1, b);
    AcceptAdmits(cfg2, s2, b);
    if MayAppend(s1, b, KeptBy(s1, b)) {
      AdmitInStep(cfg1, s1, c1, cfg2, s2, c2, b);
    } else {
      RefusedTwins(cfg1, s1, cfg2, s2, b);
    }
  }

  lemma FirstTwins(cfg1: Config, s1: State, c1: Consumer, cfg2: Config, s2: State, c2: Consumer, b: Block)
    requires cfg1.bufferWindow <= cfg2.bufferWindow && Twins(s1, c1, s2, c2)
    requires s1.canonical == [] && s2.canonical == []
    ensures var (a1, a2) := (Accept(cfg1, s1, b), Accept(cfg2, s2, b));
      InStep(s1, c1, s2, c2, b, a1.0, a1.1, a2.0, a2.1)
  {
    AdmitInStep(cfg1, s1, c1, cfg2, s2, c2, b);
  }

  lemma DeliverTwins(cfg1: Config, s1: State, c1: Consumer, cfg2: Config, s2: State, c2: Consumer, b: Block)
    requires cfg1.bufferWindow <= cfg2.bufferWindow
    requires Marked(s1, c1) && Marked(s2, c2) && Twins(s1, c1, s2, c2)
    requires WellFormedHeader(b.height, b.blockId, b.parentId)
    requires !MissesParent(Accept(cfg1, s1, b).1)
    ensures var (a1, a2) := (Accept(cfg1, s1, b), Accept(cfg2, s2, b));
      InStep(s1, c1, s2, c2, b, a1.0, a1.1, a2.0, a2.1)
  {
    SuffixOfTwins(s1, c1, s2, c2);
    if b.blockId in Ids(s1.canonical) {
      DuplicateTwins(cfg1, s1, cfg2, s2, b);
    } else if s1.canonical == [] {
      FirstTwins(cfg1, s1, c1, cfg2, s2, c2, b);
    } else {
      FoundParent(cfg1, s1, b);
      ChildTwins(cfg1, s1, c1, cfg2, s2, c2, b);
    }
  }

  lemma FoundParent(cfg: Config, s: State, b: Block)
    requires s.canonical != [] && b.blockId !in Ids(s.canonical)
    ensures MissesParent(Accept(cfg, s, b).1) <==> b.parentId !in Ids(s.canonical)
  {
  }

  lemma SolidifyTwins(s1: State, s2: State, head: Height)
    requires s1.solidifiedHead == s2.solidifiedHead && s1.forkHistory == s2.forkHistory
      && s1.nextForkId == s2.nextForkId
    ensures var ((t1, o1), (t2, o2)) := (SetSolidifiedHead(s1, head), SetSolidifiedHead(s2, head));
      && Visible(o1) == Visible(o2) && t1.canonical == s1.canonical && t2.canonical == s2.canonical
      && t1.solidifiedHead == t2.solidifiedHead && t1.forkHistory == t2.forkHistory && t1.nextForkId == t2.nextForkId
  {
    VisibleSettle(s1.(solidifiedHead := Some(head)));
    VisibleSettle(s2.(solidifiedHead := Some(head)));
  }

  /** Window independence: two engines with windows W1 <= W2, fed the same well-formed inputs, answer
      alike and show the same New, Undo, ForkObserved and ForkResolved events, with equal fork ids and
      finality envelopes, for as long as the narrower one never reports a missing parent. */
  lemma {:induction false} SameStory(cfg1: Config, cfg2: Config, inputs: seq<Input>)
    requires cfg1.Valid() && cfg2.Valid() && cfg1.bufferWindow <= cfg2.bufferWindow
    requires WellFormedInputs(inputs) && FindsParents(cfg1, inputs)
    ensures Visible(Emissions(cfg1, inputs)) == Visible(Emissions(cfg2, inputs))
    ensures inputs != [] ==>
      var (before, last) := (inputs[..|inputs| - 1], inputs[|inputs| - 1]);
      SameAnswer(Take(cfg1, After(cfg1, before), last).1, Take(cfg2, After(cfg2, before), last).1)
    ensures Twins(After(cfg1, inputs), Consumed(cfg1, inputs), After(cfg2, inputs), Consumed(cfg2, inputs))
  {
    if inputs != [] {
      var (before, last) := (inputs[..|inputs| - 1], inputs[|inputs| - 1]);
      SameStory(cfg1, cfg2, before);
      RunMarked(cfg1, before);
      RunMarked(cfg2, before);
      var (s1, s2) := (After(cfg1, before), After(cfg2, before));
      TakeTwins(cfg1, s1, Consumed(cfg1, before), cfg2, s2, Consumed(cfg2, before), last);
      RunStep(cfg1, inputs);
      RunStep(cfg2, inputs);
      VisibleAppend(Emissions(cfg1, before), Emitted(Take(cfg1, s1, last).1));
      VisibleAppend(Emissions(cfg2, before), Emitted(Take(cfg2, s2, last).1));
    }
  }

  lemma TakeTwins(cfg1: Config, s1: State, c1: Consumer, cfg2: Config, s2: State, c2: Consumer, input: Input)
    requires cfg1.Valid() && cfg2.Valid() && cfg1.bufferWindow <= cfg2.bufferWindow
    requires Marked(s1, c1) && Marked(s2, c2) && Twins(s1, c1, s2, c2) && WellFormedInput(input)
    requires !MissesParent(Take(cfg1, s1, input).1)
    ensures var ((t1, r1), (t2, r2)) := (Take(cfg1, s1, input), Take(cfg2, s2, input));
      && SameAnswer(r1, r2) && Visible(Emitted(r1)) == Visible(Emitted(r2))
      && ChainAfter(s1, c1, input, r1) == ChainAfter(s2, c2, input, r2)
      && t1.solidifiedHead == t2.solidifiedHead && t1.forkHistory == t2.forkHistory && t1.nextForkId == t2.nextForkId
      && |t1.canonical| <= |t2.canonical|
  {
    match input
    case Solidify(head) => SolidifyTwins(s1, s2, head);
    case Deliver(b) => DeliverTwins(cfg1, s1, c1, cfg2, s2, c2, b);
  }
}
