/** Finality for well-formed headers: the watermark in closed form, the exact reorg guard, and the
    exact content of the Irreversible stream. */
module Finality {
  import opened Types
  import opened EngineSpec
  import opened Heads
  import opened Streams
  import opened Replay

  ghost predicate Contiguous(chain: seq<BufferedBlock>) {
    forall i {:trigger chain[i]} :: 0 <= i < |chain| ==> chain[i].height == chain[0].height + i
  }

  ghost predicate AllWellFormed(chain: seq<BufferedBlock>) {
    forall i :: 0 <= i < |chain| ==> WellFormed(chain[i])
  }

  /** Parent links carry heights, so a linked chain of well-formed blocks has consecutive heights. */
  lemma {:induction false} LinkedIsContiguous(chain: seq<BufferedBlock>)
    requires Linked(chain) && AllWellFormed(chain)
    ensures Contiguous(chain)
  {
    if |chain| > 1 {
      var n := |chain| - 1;
      var shorter := chain[..n];
      forall i | 0 < i < n ensures IsChild(shorter, i) {
        assert IsChild(chain, i);
      }
      forall i | 0 <= i < n ensures WellFormed(shorter[i]) {
        assert WellFormed(chain[i]);
      }
      LinkedIsContiguous(shorter);
      assert IsChild(chain, n);
      assert WellFormed(chain[n]) && WellFormed(chain[n - 1]);
      assert chain[n - 1].height == shorter[n - 1].height;
      forall i | 0 <= i < |chain| ensures chain[i].height == chain[0].height + i {
        if i < n {
          assert chain[i] == shorter[i];
        }
      }
    }
  }

  /** How many blocks of a contiguous chain are at or below the height. */
  function Reached(chain: seq<BufferedBlock>, h: Option<Height>): (n: nat)
    ensures n <= |chain|
  {
    if chain == [] || h.None? then 0 else Min(|chain|, Max(0, h.value - chain[0].height + 1))
  }

  /** What a walk from position `k` finalizes is one slice of the chain. */
  lemma {:induction false} FinalizingSlice(chain: seq<BufferedBlock>, k: nat, head: Height, mark: Option<Height>)
    requires Contiguous(chain) && k <= |chain|
    ensures var hi := Max(k, Reached(chain, Some(head)));
      var lo := Min(hi, Max(k, Reached(chain, mark)));
      Finalizing(chain[k..], head, mark) == chain[lo..hi]
    decreases |chain| - k
  {
    if k < |chain| && chain[k].height <= head {
      assert chain[k..][0] == chain[k] && chain[k..][1..] == chain[k + 1..];
      if Above(chain[k].height, mark) {
        FinalizingSlice(chain, k + 1, head, Some(chain[k].height));
        var hi := Max(k, Reached(chain, Some(head)));
        assert chain[k..hi] == [chain[k]] + chain[k + 1..hi];
      } else {
        FinalizingSlice(chain, k + 1, head, mark);
      }
    }
  }

  /** The watermark sits on the last of the first `p` chain blocks, or below the buffer. */
  ghost predicate MarkedAt(s: State, c: Consumer, p: nat) {
    MarkedOn(c.chain, StartOf(s, c), p, s.lastIrreversible)
  }

  ghost predicate MarkedOn(chain: seq<BufferedBlock>, start: int, p: nat, mark: Option<Height>) {
    && p <= |chain|
    && (chain == [] ==> mark.None?)
    && if p > 0 && p > start then mark == Some(chain[p - 1].height) else Reached(chain, mark) <= start
  }

  ghost predicate Sound(s: State, c: Consumer) {
    Coupled(s, c) && AllWellFormed(c.chain)
  }

  /** The closed form of the watermark, relative to the replayed chain. */
  ghost predicate Marked(s: State, c: Consumer) {
    Sound(s, c) && MarkedAt(s, c, Reached(c.chain, s.solidifiedHead))
  }

  lemma MarkReached(s: State, c: Consumer, p: nat)
    requires Sound(s, c) && MarkedAt(s, c, p)
    ensures Max(StartOf(s, c), Reached(c.chain, s.lastIrreversible)) == Max(StartOf(s, c), p)
  {
    LinkedIsContiguous(c.chain);
  }

  /** A settlement finalizes exactly the chain blocks between the old reach and the new one. */
  lemma SettleMarks(s: State, c: Consumer, p: nat)
    requires Sound(s, c) && MarkedAt(s, c, p) && p <= Reached(c.chain, s.solidifiedHead)
    ensures var s' := Settle(s).0;
      var n := Reached(c.chain, s.solidifiedHead);
      && (s.solidifiedHead.Some? ==>
          Finalizing(s.canonical, s.solidifiedHead.value, s.lastIrreversible)
          == c.chain[Max(StartOf(s, c), p)..Max(StartOf(s, c), n)])
      && s'.canonical == s.canonical && MarkedAt(s', c, n)
  {
    LinkedIsContiguous(c.chain);
    if s.solidifiedHead.Some? {
      MarkReached(s, c, p);
      FinalizingSlice(c.chain, StartOf(s, c), s.solidifiedHead.value, s.lastIrreversible);
    }
  }

  /** The cut of an accepted append lies above everything finalized. */
  lemma CutAboveReach(s: State, c: Consumer, b: Block, kept: nat, p: nat)
    requires Sound(s, c) && MarkedAt(s, c, p) && MayAppend(s, b, kept)
    ensures p <= StartOf(s, c) + kept
  {
    var cut := StartOf(s, c) + kept;
    LinkedIsContiguous(c.chain);
    if kept < |s.canonical| {
      assert s.canonical[kept] == c.chain[cut];
    }
  }

  lemma GrownWellFormed(s: State, c: Consumer, b: Block, kept: nat)
    requires Coupled(s, c) && AllWellFormed(c.chain) && kept <= |s.canonical|
    requires WellFormedHeader(b.height, b.blockId, b.parentId)
    ensures AllWellFormed(Grown(s, c, b, kept))
  {
  }

  lemma AppendMarks(s: State, c: Consumer, b: Block, kept: nat)
    requires Marked(s, c) && MayAppend(s, b, kept)
    requires WellFormedHeader(b.height, b.blockId, b.parentId)
    ensures var p := Reached(c.chain, s.solidifiedHead);
      var c1 := c.(chain := Grown(s, c, b, kept));
      && Sound(Append(s, b, kept), c1)
      && MarkedAt(Append(s, b, kept), c1, p) && p <= Reached(c1.chain, s.solidifiedHead)
      && p <= StartOf(s, c) + kept
  {
    AppendAccepted(s, c, b, kept);
    GrownWellFormed(s, c, b, kept);
    CutAboveReach(s, c, b, kept, Reached(c.chain, s.solidifiedHead));
    LinkedIsContiguous(c.chain);
    LinkedIsContiguous(Grown(s, c, b, kept));
    GrownMarkedAt(s, c, b, kept);
  }

  lemma GrownMarkedAt(s: State, c: Consumer, b: Block, kept: nat)
    requires Marked(s, c) && kept <= |s.canonical| && (s.canonical != [] ==> kept > 0)
    requires Contiguous(c.chain) && Contiguous(Grown(s, c, b, kept))
    requires Reached(c.chain, s.solidifiedHead) <= StartOf(s, c) + kept
    ensures MarkedAt(Append(s, b, kept), c.(chain := Grown(s, c, b, kept)), Reached(c.chain, s.solidifiedHead))
    ensures Reached(c.chain, s.solidifiedHead) <= Reached(Grown(s, c, b, kept), s.solidifiedHead)
  {
    var (start, p) := (StartOf(s, c), Reached(c.chain, s.solidifiedHead));
    ReachGrown(c.chain, start + kept, Buffer(b, s.nextForkId), s.solidifiedHead);
    assert StartOf(Append(s, b, kept), c.(chain := Grown(s, c, b, kept))) == start;
    MarkedOnGrown(c.chain, start, start + kept, Buffer(b, s.nextForkId), p, s.lastIrreversible);
  }

  lemma MarkedOnGrown(chain: seq<BufferedBlock>, start: nat, cut: nat, nb: BufferedBlock, p: nat, mark: Option<Height>)
    requires MarkedOn(chain, start, p, mark) && p <= cut && start <= cut <= |chain|
    requires Contiguous(chain) && Contiguous(chain[..cut] + [nb])
    requires chain != [] ==> start < cut
    ensures MarkedOn(chain[..cut] + [nb], start, p, mark)
  {
  }

  /** Putting a block on top of a cut above the reach moves the reach by at most that block. */
  lemma ReachGrown(chain: seq<BufferedBlock>, cut: nat, nb: BufferedBlock, h: Option<Height>)
    requires cut <= |chain| && Reached(chain, h) <= cut
    requires Contiguous(chain) && Contiguous(chain[..cut] + [nb])
    requires chain != [] ==> cut > 0
    ensures var grown := chain[..cut] + [nb];
      && Reached(chain, h) <= Reached(grown, h) <= Reached(chain, h) + 1
      && (Reached(chain, h) < cut ==> Reached(grown, h) == Reached(chain, h))
      && (Reached(chain, h) > 0 ==> grown[Reached(chain, h) - 1] == chain[Reached(chain, h) - 1])
  {
  }

  lemma PruneMarks(s: State, c: Consumer, window: nat, p: nat)
    requires Sound(s, c) && MarkedAt(s, c, p) && window > 0
    ensures var s' := s.(canonical := Prune(window, s.canonical)); MarkedAt(s', c, p)
  {
    var s' := s.(canonical := Prune(window, s.canonical));
    LinkedIsContiguous(c.chain);
    MarkReached(s, c, p);
  }

  // Steps and runs

  lemma SettledConsumer(s: State, c: Consumer)
    requires Coupled(s, c)
    ensures var fed := Feed(c, Settle(s).1);
      fed.Some? && fed.value.chain == c.chain && Coupled(Settle(s).0, fed.value)
  {
    SettleAccepted(s, c);
  }

  lemma AdmitMarks(cfg: Config, s: State, c: Consumer, b: Block, kept: nat, c': Consumer)
    requires cfg.Valid() && Marked(s, c) && MayAppend(s, b, kept)
    requires WellFormedHeader(b.height, b.blockId, b.parentId)
    requires c'.chain == Grown(s, c, b, kept) && Coupled(Admit(cfg, s, b, kept).0, c')
    ensures Marked(Admit(cfg, s, b, kept).0, c')
  {
    var c1 := c.(chain := Grown(s, c, b, kept));
    var s1 := Append(s, b, kept);
    var p := Reached(c.chain, s.solidifiedHead);
    AppendMarks(s, c, b, kept);
    SettleMarks(s1, c1, p);
    SettledConsumer(s1, c1);
    var c2 := Feed(c1, Settle(s1).1).value;
    PruneMarks(Settle(s1).0, c2, cfg.bufferWindow, Reached(c1.chain, s.solidifiedHead));
    GrownWellFormed(s, c, b, kept);
  }

  lemma SolidifyMarks(s: State, c: Consumer, head: Height, c': Consumer)
    requires Marked(s, c) && (s.solidifiedHead.Some? ==> s.solidifiedHead.value <= head)
    requires var s1 := s.(solidifiedHead := Some(head)); c'.chain == c.chain && Coupled(Settle(s1).0, c')
    ensures Marked(Settle(s.(solidifiedHead := Some(head))).0, c')
  {
    SettleMarks(s.(solidifiedHead := Some(head)), c, Reached(c.chain, s.solidifiedHead));
  }

  lemma DeliverMarks(cfg: Config, s: State, c: Consumer, b: Block, c': Consumer)
    requires cfg.Valid() && Marked(s, c) && WellFormedHeader(b.height, b.blockId, b.parentId)
    requires Accept(cfg, s, b).1.Ok?
    requires Coupled(Accept(cfg, s, b).0, c') && c'.chain == ChainAfter(s, c, Deliver(b), Accept(cfg, s, b).1)
    ensures Marked(Accept(cfg, s, b).0, c')
  {
    AcceptAdmits(cfg, s, b);
    AdmitMarks(cfg, s, c, b, KeptBy(s, b), c');
  }

  lemma TakeMarks(cfg: Config, s: State, c: Consumer, input: Input, c': Consumer)
    requires cfg.Valid() && Marked(s, c) && WellFormedInput(input)
    requires var (s', r) := Take(cfg, s, input); Coupled(s', c') && c'.chain == ChainAfter(s, c, input, r)
    ensures Marked(Take(cfg, s, input).0, c')
  {
    match input
    case Solidify(head) =>
      if !(s.solidifiedHead.Some? && head <= s.solidifiedHead.value) {
        SolidifyMarks(s, c, head, c');
      }
    case Deliver(b) =>
      if Accept(cfg, s, b).1.Ok? {
        DeliverMarks(cfg, s, c, b, c');
      } else {
        RefusalKeepsState(cfg, s, b);
      }
  }

  /** The watermark in closed form, at every point of every well-formed run. */
  lemma {:induction false} RunMarked(cfg: Config, inputs: seq<Input>)
    requires cfg.Valid() && WellFormedInputs(inputs)
    ensures Marked(After(cfg, inputs), Consumed(cfg, inputs))
  {
    if inputs != [] {
      var before := inputs[..|inputs| - 1];
      RunMarked(cfg, before);
      RunStep(cfg, inputs);
      TakeMarks(cfg, After(cfg, before), Consumed(cfg, before), inputs[|inputs| - 1], Consumed(cfg, inputs));
    }
  }

  lemma MarkedIsMin(s: State, c: Consumer)
    requires Marked(s, c) && s.canonical != []
    ensures s.solidifiedHead.Some? && s.canonical[0].height <= s.solidifiedHead.value
      ==> s.lastIrreversible == Some(Min(s.solidifiedHead.value, Tip(s.canonical).height))
    ensures s.lastIrreversible.Some? ==> s.lastIrreversible.value <= Tip(s.canonical).height
  {
    var (start, n) := (StartOf(s, c), |c.chain|);
    LinkedIsContiguous(c.chain);
    assert s.canonical[0] == c.chain[start] && Tip(s.canonical) == c.chain[n - 1];
    assert c.chain[start].height == c.chain[0].height + start && c.chain[n - 1].height == c.chain[0].height + n - 1;
    var p := Reached(c.chain, s.solidifiedHead);
    if p > start {
      assert c.chain[p - 1].height == c.chain[0].height + p - 1;
    }
  }

  /** Whenever the greatest head reported is at or above the buffer's front, the watermark is the lower of that
      head and the tip; and it never lies above the tip. */
  lemma WatermarkClosedForm(cfg: Config, inputs: seq<Input>)
    requires cfg.Valid() && WellFormedInputs(inputs) && After(cfg, inputs).canonical != []
    ensures var (s, head) := (After(cfg, inputs), GreatestHead(inputs));
      var tip := Tip(s.canonical).height;
      && (head.Some? && s.canonical[0].height <= head.value ==> s.lastIrreversible == Some(Min(head.value, tip)))
      && (s.lastIrreversible.Some? ==> s.lastIrreversible.value <= tip)
  {
    HeadIsGreatest(cfg, inputs);
    RunMarked(cfg, inputs);
    MarkedIsMin(After(cfg, inputs), Consumed(cfg, inputs));
  }

  /** Being above the watermark is being above the solidified head, for any block of the buffer. */
  lemma GuardIsHead(s: State, c: Consumer, i: nat)
    requires Marked(s, c) && i < |s.canonical|
    ensures Above(s.canonical[i].height, s.lastIrreversible) <==> Above(s.canonical[i].height, s.solidifiedHead)
    ensures HeightOf(s.canonical[i].blockId) == s.canonical[i].height
    ensures i > 0 ==> s.canonical[i].height == s.canonical[i - 1].height + 1
  {
    LinkedIsContiguous(c.chain);
    MarkReached(s, c, Reached(c.chain, s.solidifiedHead));
    var k := StartOf(s, c) + i;
    assert s.canonical[i] == c.chain[k] && WellFormed(c.chain[k]);
    if i > 0 {
      assert s.canonical[i - 1] == c.chain[k - 1];
    }
  }

  /** A block that branches below the tip is accepted exactly when its earliest orphan is strictly above
      the greatest head reported; the replacement is then above the head too. */
  lemma ReorgAcceptedIffAboveHead(cfg: Config, inputs: seq<Input>, b: Block)
    requires cfg.Valid() && WellFormedInputs(inputs)
    requires WellFormedHeader(b.height, b.blockId, b.parentId)
    requires var s := After(cfg, inputs);
      b.blockId !in Ids(s.canonical) && b.parentId in Ids(s.canonical) && b.parentId != Tip(s.canonical).blockId
    ensures var s := After(cfg, inputs);
      var first := s.canonical[RPosition(s.canonical, b.parentId) + 1];
      && first.height == b.height
      && (Accept(cfg, s, b).1.Ok? <==> Above(first.height, GreatestHead(inputs)))
  {
    HeadIsGreatest(cfg, inputs);
    RunMarked(cfg, inputs);
    var (s, c) := (After(cfg, inputs), Consumed(cfg, inputs));
    ReorgGuard(cfg, s, c, b);
  }

  lemma ReorgGuard(cfg: Config, s: State, c: Consumer, b: Block)
    requires Marked(s, c) && WellFormedHeader(b.height, b.blockId, b.parentId)
    requires b.blockId !in Ids(s.canonical) && b.parentId in Ids(s.canonical)
    requires RPosition(s.canonical, b.parentId) + 1 < |s.canonical|
    ensures var first := s.canonical[RPosition(s.canonical, b.parentId) + 1];
      && first.height == b.height
      && (Accept(cfg, s, b).1.Ok? <==> Above(first.height, s.solidifiedHead))
  {
    var i := RPosition(s.canonical, b.parentId);
    GuardIsHead(s, c, i);
    GuardIsHead(s, c, i + 1);
    AcceptAdmits(cfg, s, b);
  }

  ghost predicate UndosAreSeen(outs: seq<Output>) {
    forall i :: 0 <= i < |outs| && outs[i].Undo? ==> outs[i].streamable.finality.tier == Seen
  }

  lemma SettleHasNoBlocks(s: State)
    ensures forall i :: 0 <= i < |Settle(s).1| ==> Settle(s).1[i].Irreversible? || Settle(s).1[i].ForkResolved?
  {
    if s.solidifiedHead.Some? {
      var head := s.solidifiedHead.value;
      AllIrreversible(Finalizing(s.canonical, head, s.lastIrreversible), head);
      AllResolved(s.forkHistory[..ResolvedCount(s.forkHistory, head)], head);
    }
  }

  lemma AppendUndosSeen(s: State, c: Consumer, b: Block, kept: nat)
    requires Marked(s, c) && MayAppend(s, b, kept)
    ensures UndosAreSeen(AppendOutputs(s, b, kept))
  {
    var orphans := s.canonical[kept..];
    AllUndo(orphans, s.solidifiedHead);
    LinkedIsContiguous(c.chain);
    CutAboveReach(s, c, b, kept, Reached(c.chain, s.solidifiedHead));
    forall i | 0 <= i < |orphans| ensures Above(orphans[i].height, s.solidifiedHead) {
      assert orphans[i] == c.chain[StartOf(s, c) + kept + i];
    }
  }

  lemma SeenJoin(a: seq<Output>, b: seq<Output>)
    requires UndosAreSeen(a) && UndosAreSeen(b)
    ensures UndosAreSeen(a + b)
  {
  }

  lemma SettleUndosSeen(s: State)
    ensures UndosAreSeen(Settle(s).1)
  {
    SettleHasNoBlocks(s);
  }

  lemma TakeUndosSeen(cfg: Config, s: State, c: Consumer, input: Input)
    requires Marked(s, c)
    ensures UndosAreSeen(Emitted(Take(cfg, s, input).1))
  {
    match input
    case Solidify(head) => SettleUndosSeen(s.(solidifiedHead := Some(head)));
    case Deliver(b) =>
      AcceptAdmits(cfg, s, b);
      if Accept(cfg, s, b).1.Ok? {
        var s1 := Append(s, b, KeptBy(s, b));
        AppendUndosSeen(s, c, b, KeptBy(s, b));
        SettleUndosSeen(s1);
        SeenJoin(AppendOutputs(s, b, KeptBy(s, b)), Settle(s1).1);
      }
  }

  /** Every Undo of every well-formed run carries tier Seen. */
  lemma {:induction false} EveryUndoIsSeen(cfg: Config, inputs: seq<Input>)
    requires cfg.Valid() && WellFormedInputs(inputs)
    ensures UndosAreSeen(Emissions(cfg, inputs))
  {
    if inputs != [] {
      var (before, last) := (inputs[..|inputs| - 1], inputs[|inputs| - 1]);
      EveryUndoIsSeen(cfg, before);
      RunMarked(cfg, before);
      TakeUndosSeen(cfg, After(cfg, before), Consumed(cfg, before), last);
      SeenJoin(Emissions(cfg, before), Emitted(Take(cfg, After(cfg, before), last).1));
    }
  }
}
