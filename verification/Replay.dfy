/** A consumer that folds the engine's events and refuses anything inconsistent, and the theorem that
    it never refuses what an engine emits, on any run and for arbitrary header heights. */
module Replay {
  import opened Types
  import opened EngineSpec

  /** What a consumer holds: the unpruned chain, how much of it is final, the last final height. */
  datatype Consumer = Consumer(chain: seq<BufferedBlock>, locked: nat, mark: Option<Height>)

  const START := Consumer([], 0, None)

  /** The event is tagged with its step and carries its own block's cursor. */
  predicate Framed(s: StreamableBlock, step: Step) {
    s.step == step && s.cursor == CursorOf(s.block)
  }

  /** One past the last position of the block, or 0. */
  function EndOf(chain: seq<BufferedBlock>, b: BufferedBlock): (n: nat)
    ensures n <= |chain|
  {
    if chain == [] then 0 else if Tip(chain) == b then |chain| else EndOf(chain[..|chain| - 1], b)
  }

  /** New pushes a child of the top; Undo pops exactly the top, never a final block; Irreversible
      names a block on the chain past every final one, at a greater height. */
  function Apply(c: Consumer, o: Output): Option<Consumer> {
    match o
    case New(s) =>
      if Framed(s, StepNew) && (c.chain == [] || s.block.parentId == Tip(c.chain).blockId)
      then Some(c.(chain := c.chain + [s.block])) else None
    case Undo(s) =>
      if Framed(s, StepUndo) && |c.chain| > c.locked && Tip(c.chain) == s.block
      then Some(c.(chain := c.chain[..|c.chain| - 1])) else None
    case Irreversible(s) =>
      var end := EndOf(c.chain, s.block);
      if Framed(s, StepIrreversible) && end > c.locked && Above(s.block.height, c.mark)
      then Some(Consumer(c.chain, end, Some(s.block.height))) else None
    case ForkObserved(_) => Some(c)
    case ForkResolved(_, _) => Some(c)
  }

  function Feed(c: Consumer, outs: seq<Output>): Option<Consumer>
    decreases |outs|
  {
    if outs == [] then Some(c)
    else
      match Apply(c, outs[0])
      case None => None
      case Some(c') => Feed(c', outs[1..])
  }

  lemma {:induction false} FeedAppend(c: Consumer, a: seq<Output>, b: seq<Output>)
    ensures Feed(c, a + b) == (if Feed(c, a).None? then None else Feed(Feed(c, a).value, b))
    decreases |a|
  {
    if a == [] {
      assert a + b == b;
    } else {
      assert (a + b)[1..] == a[1..] + b;
      var next := Apply(c, a[0]);
      if next.Some? {
        FeedAppend(next.value, a[1..], b);
      }
    }
  }

  lemma FeedOne(c: Consumer, o: Output)
    ensures Feed(c, [o]) == Apply(c, o)
  {
  }

  /** A prefix of accepted events is accepted. */
  lemma FeedPrefix(c: Consumer, outs: seq<Output>, n: nat)
    requires n <= |outs| && Feed(c, outs).Some?
    ensures Feed(c, outs[..n]).Some?
    ensures Feed(Feed(c, outs[..n]).value, outs[n..]) == Feed(c, outs)
  {
    assert outs[..n] + outs[n..] == outs;
    FeedAppend(c, outs[..n], outs[n..]);
  }

  /** Whatever is final stays on the chain, in place, however the stream goes on. */
  lemma {:induction false} FeedKeepsFinal(c: Consumer, outs: seq<Output>)
    requires c.locked <= |c.chain| && Feed(c, outs).Some?
    ensures var c' := Feed(c, outs).value;
      c.locked <= c'.locked <= |c'.chain| && c.chain[..c.locked] == c'.chain[..c.locked]
    decreases |outs|
  {
    if outs != [] {
      var c1 := Apply(c, outs[0]).value;
      assert c.chain[..c.locked] == c1.chain[..c.locked];
      FeedKeepsFinal(c1, outs[1..]);
      var c' := Feed(c1, outs[1..]).value;
      assert c1.chain[..c.locked] == c1.chain[..c1.locked][..c.locked];
      assert c'.chain[..c.locked] == c'.chain[..c1.locked][..c.locked];
    }
  }

  // The engine against the consumer

  function StartOf(s: State, c: Consumer): int {
    |c.chain| - |s.canonical|
  }

  predicate IsChild(chain: seq<BufferedBlock>, i: nat)
    requires 0 < i < |chain|
  {
    chain[i].parentId == chain[i - 1].blockId
  }

  ghost predicate Linked(chain: seq<BufferedBlock>) {
    forall i :: 0 < i < |chain| ==> IsChild(chain, i)
  }

  predicate IsMarked(chain: seq<BufferedBlock>, i: nat, mark: Option<Height>)
    requires i < |chain|
  {
    !Above(chain[i].height, mark)
  }

  /** Every buffered block at or before the final point is at or below the watermark. */
  ghost predicate Guarded(chain: seq<BufferedBlock>, start: int, locked: nat, mark: Option<Height>) {
    forall i :: 0 <= i < |chain| && start <= i < locked ==> IsMarked(chain, i, mark)
  }

  /** The buffer is a suffix of the replayed chain, non-empty unless the chain is. */
  ghost predicate Coupled(s: State, c: Consumer) {
    && 0 <= StartOf(s, c)
    && s.canonical == c.chain[StartOf(s, c)..]
    && (s.canonical == [] ==> c.chain == [])
    && Linked(c.chain)
    && DistinctIds(s.canonical)
    && c.locked <= |c.chain|
    && c.mark == s.lastIrreversible
    && Guarded(c.chain, StartOf(s, c), c.locked, c.mark)
  }

  lemma {:induction false} EndOfDistinct(chain: seq<BufferedBlock>, start: nat, k: nat)
    requires start <= k < |chain| && DistinctIds(chain[start..])
    ensures EndOf(chain, chain[k]) == k + 1
  {
    var n := |chain| - 1;
    if k < n {
      assert Differ(chain[start..], k - start, n - start);
      var shorter := chain[..n];
      forall i, j | 0 <= i < j < n - start ensures Differ(shorter[start..], i, j) {
        assert Differ(chain[start..], i, j);
      }
      EndOfDistinct(shorter, start, k);
    }
  }

  /** Orphans above the final point are undone one by one off the top. */
  lemma {:induction false} FeedUndos(c: Consumer, kept: nat, head: Option<Height>)
    requires c.locked <= kept <= |c.chain|
    ensures Feed(c, Undos(c.chain[kept..], head)) == Some(c.(chain := c.chain[..kept]))
    decreases |c.chain|
  {
    var orphans := c.chain[kept..];
    if orphans == [] {
      assert c.chain[..kept] == c.chain;
    } else {
      var n := |c.chain| - 1;
      var c1 := c.(chain := c.chain[..n]);
      var first := Undo(Emit(StepUndo, Tip(orphans), head));
      assert Apply(c, first) == Some(c1);
      assert c1.chain[kept..] == orphans[..|orphans| - 1];
      assert c1.chain[..kept] == c.chain[..kept];
      FeedUndos(c1, kept, head);
      FeedHead(c, first, Undos(orphans[..|orphans| - 1], head));
    }
  }

  lemma FeedHead(c: Consumer, o: Output, rest: seq<Output>)
    requires Apply(c, o).Some?
    ensures Feed(c, [o] + rest) == Feed(Apply(c, o).value, rest)
  {
  }

  lemma {:induction false} IrreversiblesHead(fired: seq<BufferedBlock>, head: Height)
    requires fired != []
    ensures Irreversibles(fired, head) == [Finalize(fired[0], head)] + Irreversibles(fired[1..], head)
  {
    var n := |fired| - 1;
    if n > 0 {
      IrreversiblesHead(fired[..n], head);
      assert fired[1..][..n - 1] == fired[..n][1..];
    } else {
      assert fired[..0] == [] && fired[1..] == [];
    }
  }

  /** Everything buffered before position `k` is at or below the watermark. */
  ghost predicate Walked(chain: seq<BufferedBlock>, start: nat, k: nat, mark: Option<Height>)
    requires k <= |chain|
  {
    forall i :: start <= i < k ==> IsMarked(chain, i, mark)
  }

  lemma FireAccepted(c: Consumer, start: nat, k: nat, head: Height)
    requires start <= k < |c.chain| && c.locked <= |c.chain|
    requires DistinctIds(c.chain[start..])
    requires Guarded(c.chain, start, c.locked, c.mark) && Walked(c.chain, start, k, c.mark)
    requires Above(c.chain[k].height, c.mark)
    ensures var c1 := Consumer(c.chain, k + 1, Some(c.chain[k].height));
      && Apply(c, Finalize(c.chain[k], head)) == Some(c1) && c.locked <= k
      && Guarded(c.chain, start, k + 1, c1.mark) && Walked(c.chain, start, k + 1, c1.mark)
  {
    EndOfDistinct(c.chain, start, k);
    assert k < c.locked ==> IsMarked(c.chain, k, c.mark);
    var mark := Some(c.chain[k].height);
    forall i | start <= i < k + 1 ensures IsMarked(c.chain, i, mark) {
      assert i < k ==> IsMarked(c.chain, i, c.mark);
    }
  }

  /** The walk of `Finalizing` from position `k` on is accepted: each fired block lies past every final one. */
  lemma {:induction false} FeedFinalizing(c: Consumer, start: nat, k: nat, head: Height)
    requires start <= k <= |c.chain| && c.locked <= |c.chain|
    requires DistinctIds(c.chain[start..])
    requires Guarded(c.chain, start, c.locked, c.mark) && Walked(c.chain, start, k, c.mark)
    ensures var fired := Finalizing(c.chain[k..], head, c.mark);
      var r := Feed(c, Irreversibles(fired, head));
      && r.Some? && r.value.chain == c.chain && r.value.mark == MarkAfter(fired, c.mark)
      && c.locked <= r.value.locked <= |c.chain|
      && Guarded(c.chain, start, r.value.locked, r.value.mark)
    decreases |c.chain| - k
  {
    var blocks := c.chain[k..];
    if blocks != [] && c.chain[k].height <= head {
      assert blocks[0] == c.chain[k];
      assert blocks[1..] == c.chain[k + 1..];
      if !Above(c.chain[k].height, c.mark) {
        FeedFinalizing(c, start, k + 1, head);
      } else {
        FireAccepted(c, start, k, head);
        var c1 := Consumer(c.chain, k + 1, Some(c.chain[k].height));
        FeedFinalizing(c1, start, k + 1, head);
        FeedFired(c, c1, c.chain[k], Finalizing(c.chain[k + 1..], head, c1.mark), head);
      }
    }
  }

  lemma FeedFired(c: Consumer, c1: Consumer, b: BufferedBlock, rest: seq<BufferedBlock>, head: Height)
    requires Apply(c, Finalize(b, head)) == Some(c1) && c1.mark == Some(b.height)
    ensures Feed(c, Irreversibles([b] + rest, head)) == Feed(c1, Irreversibles(rest, head))
    ensures MarkAfter([b] + rest, c.mark) == MarkAfter(rest, c1.mark)
  {
    IrreversiblesHead([b] + rest, head);
    assert ([b] + rest)[1..] == rest;
    FeedHead(c, Finalize(b, head), Irreversibles(rest, head));
  }

  lemma {:induction false} FeedResolutions(c: Consumer, forks: seq<ForkObservation>, head: Height)
    ensures Feed(c, Resolutions(forks, head)) == Some(c)
  {
    if forks != [] {
      var n := |forks| - 1;
      FeedResolutions(c, forks[..n], head);
      FeedAppend(c, Resolutions(forks[..n], head), [ForkResolved(forks[n], head)]);
      FeedOne(c, ForkResolved(forks[n], head));
    }
  }

  lemma SettleAccepted(s: State, c: Consumer)
    requires Coupled(s, c)
    ensures var (s', outs) := Settle(s);
      var r := Feed(c, outs);
      && r.Some? && r.value.chain == c.chain && r.value.locked >= c.locked
      && s'.canonical == s.canonical && Coupled(s', r.value)
  {
    if s.solidifiedHead.Some? {
      var head := s.solidifiedHead.value;
      var start := StartOf(s, c);
      var fired := Finalizing(s.canonical, head, s.lastIrreversible);
      var forks := s.forkHistory[..ResolvedCount(s.forkHistory, head)];
      FeedFinalizing(c, start, start, head);
      var c1 := Feed(c, Irreversibles(fired, head)).value;
      FeedResolutions(c1, forks, head);
      FeedAppend(c, Irreversibles(fired, head), Resolutions(forks, head));
    }
  }

  /** The chain once a block is put on top of the first `kept` buffered ones. */
  function Grown(s: State, c: Consumer, b: Block, kept: nat): seq<BufferedBlock>
    requires kept <= |s.canonical| <= |c.chain|
  {
    c.chain[..StartOf(s, c) + kept] + [Buffer(b, s.nextForkId)]
  }

  /** `kept` is where the engine may append: on the parent, with no orphan at or below the watermark. */
  ghost predicate MayAppend(s: State, b: Block, kept: nat) {
    && kept <= |s.canonical|
    && b.blockId !in Ids(s.canonical)
    && (s.canonical != [] ==> kept > 0 && s.canonical[kept - 1].blockId == b.parentId)
    && (kept < |s.canonical| ==> Above(s.canonical[kept].height, s.lastIrreversible))
  }

  lemma LinkedGrown(chain: seq<BufferedBlock>, cut: nat, nb: BufferedBlock)
    requires Linked(chain) && cut <= |chain| && (cut > 0 ==> nb.parentId == chain[cut - 1].blockId)
    ensures Linked(chain[..cut] + [nb])
  {
    var grown := chain[..cut] + [nb];
    forall i | 0 < i < |grown| ensures IsChild(grown, i) {
      if i < cut {
        assert IsChild(chain, i) && grown[i] == chain[i] && grown[i - 1] == chain[i - 1];
      }
    }
  }

  lemma GuardedGrown(chain: seq<BufferedBlock>, start: nat, cut: nat, locked: nat, mark: Option<Height>,
      nb: BufferedBlock)
    requires Guarded(chain, start, locked, mark) && locked <= cut <= |chain|
    ensures Guarded(chain[..cut] + [nb], start, locked, mark)
  {
    var grown := chain[..cut] + [nb];
    forall i | 0 <= i < |grown| && start <= i < locked ensures IsMarked(grown, i, mark) {
      assert IsMarked(chain, i, mark);
    }
  }

  lemma SuffixGrown(chain: seq<BufferedBlock>, start: nat, kept: nat, nb: BufferedBlock)
    requires start + kept <= |chain|
    ensures (chain[..start + kept] + [nb])[start..] == chain[start..][..kept] + [nb]
  {
  }

  /** The first orphan lies past the final point, and the new block is a child of what is kept. */
  lemma CutIsFree(s: State, c: Consumer, b: Block, kept: nat)
    requires Coupled(s, c) && MayAppend(s, b, kept)
    ensures c.locked <= StartOf(s, c) + kept
    ensures StartOf(s, c) + kept > 0 ==> b.parentId == c.chain[StartOf(s, c) + kept - 1].blockId
  {
    var cut := StartOf(s, c) + kept;
    if cut < |c.chain| {
      assert s.canonical[kept] == c.chain[cut];
      assert cut < c.locked ==> IsMarked(c.chain, cut, c.mark);
    }
    if kept > 0 {
      assert s.canonical[kept - 1] == c.chain[cut - 1];
    }
  }

  lemma AppendFed(c: Consumer, orphans: seq<BufferedBlock>, cut: nat, nb: BufferedBlock, head: Option<Height>,
      tail: seq<Output>)
    requires c.locked <= cut <= |c.chain| && orphans == c.chain[cut..]
    requires cut > 0 ==> nb.parentId == c.chain[cut - 1].blockId
    requires |tail| <= 1 && (tail != [] ==> tail[0].ForkObserved?)
    ensures Feed(c, Undos(orphans, head) + [New(Emit(StepNew, nb, head))] + tail)
         == Some(c.(chain := c.chain[..cut] + [nb]))
  {
    FeedUndos(c, cut, head);
    var c1 := c.(chain := c.chain[..cut]);
    var pushed := New(Emit(StepNew, nb, head));
    FeedOne(c1, pushed);
    FeedAppend(c, Undos(orphans, head), [pushed]);
    FeedAppend(c, Undos(orphans, head) + [pushed], tail);
    if tail != [] {
      assert tail == [tail[0]];
      FeedOne(c1.(chain := c1.chain + [nb]), tail[0]);
    }
  }

  lemma AppendCoupled(s: State, c: Consumer, b: Block, kept: nat)
    requires Coupled(s, c) && MayAppend(s, b, kept)
    ensures Coupled(Append(s, b, kept), c.(chain := Grown(s, c, b, kept)))
  {
    var start := StartOf(s, c);
    var nb := Buffer(b, s.nextForkId);
    CutIsFree(s, c, b, kept);
    LinkedGrown(c.chain, start + kept, nb);
    DistinctGrown(s.canonical, kept, nb);
    GuardedGrown(c.chain, start, start + kept, c.locked, c.mark, nb);
    SuffixGrown(c.chain, start, kept, nb);
  }

  lemma AppendFeeds(s: State, c: Consumer, b: Block, kept: nat, cut: nat)
    requires kept <= |s.canonical| <= |c.chain| && cut == StartOf(s, c) + kept
    requires s.canonical[kept..] == c.chain[cut..]
    requires c.locked <= cut && (cut > 0 ==> b.parentId == c.chain[cut - 1].blockId)
    ensures Feed(c, AppendOutputs(s, b, kept)) == Some(c.(chain := Grown(s, c, b, kept)))
  {
    var orphans := s.canonical[kept..];
    AppendFed(c, orphans, cut, Buffer(b, s.nextForkId), s.solidifiedHead,
      if orphans == [] then [] else [ForkObserved(ForkObservation(b.height, b.blockId, OrphanIds(orphans)))]);
  }

  lemma AppendAccepted(s: State, c: Consumer, b: Block, kept: nat)
    requires Coupled(s, c) && MayAppend(s, b, kept)
    ensures Feed(c, AppendOutputs(s, b, kept)) == Some(c.(chain := Grown(s, c, b, kept)))
    ensures Coupled(Append(s, b, kept), c.(chain := Grown(s, c, b, kept)))
  {
    AppendCoupled(s, c, b, kept);
    CutIsFree(s, c, b, kept);
    AppendFeeds(s, c, b, kept, StartOf(s, c) + kept);
  }

  lemma PruneCoupled(s: State, c: Consumer, window: nat)
    requires Coupled(s, c) && window > 0
    ensures var s' := s.(canonical := Prune(window, s.canonical));
      Coupled(s', c) && StartOf(s, c) <= StartOf(s', c)
  {
    var s' := s.(canonical := Prune(window, s.canonical));
    var drop := |s.canonical| - |s'.canonical|;
    assert s'.canonical == s.canonical[drop..];
    forall i, j | 0 <= i < j < |s'.canonical| ensures Differ(s'.canonical, i, j) {
      assert Differ(s.canonical, i + drop, j + drop);
    }
  }

  /** One step of the engine, whatever it is, keeps the coupling and is accepted by the consumer. */
  lemma TakeAccepted(cfg: Config, s: State, c: Consumer, input: Input)
    requires cfg.Valid() && Coupled(s, c)
    ensures var (s', r) := Take(cfg, s, input);
      var fed := Feed(c, Emitted(r));
      && fed.Some? && Coupled(s', fed.value)
      && StartOf(s, c) <= StartOf(s', fed.value)
      && SameUpTo(c.chain, fed.value.chain, StartOf(s, c) + 1)
      && fed.value.chain == ChainAfter(s, c, input, r)
  {
    match input
    case Solidify(head) =>
      if !(s.solidifiedHead.Some? && head <= s.solidifiedHead.value) {
        SettleAccepted(s.(solidifiedHead := Some(head)), c);
      }
    case Deliver(b) =>
      if Accept(cfg, s, b).1.Ok? {
        DeliverAccepted(cfg, s, c, b);
      } else {
        RefusalKeepsState(cfg, s, b);
      }
  }

  lemma DeliverAccepted(cfg: Config, s: State, c: Consumer, b: Block)
    requires cfg.Valid() && Coupled(s, c) && Accept(cfg, s, b).1.Ok?
    ensures var (s', r) := Accept(cfg, s, b);
      var fed := Feed(c, r.value);
      && fed.Some? && Coupled(s', fed.value)
      && StartOf(s, c) <= StartOf(s', fed.value)
      && SameUpTo(c.chain, fed.value.chain, StartOf(s, c) + 1)
      && fed.value.chain == Grown(s, c, b, KeptBy(s, b)) && KeptBy(s, b) <= |s.canonical| <= |c.chain|
  {
    AcceptAdmits(cfg, s, b);
    AdmitAccepted(cfg, s, c, b, KeptBy(s, b));
  }

  /** How many buffered blocks an accepted block leaves in place. */
  function KeptBy(s: State, b: Block): nat {
    if b.parentId in Ids(s.canonical) then RPosition(s.canonical, b.parentId) + 1 else 0
  }

  /** The chain after a step, given whether the step was refused. */
  function ChainAfter(s: State, c: Consumer, input: Input, r: Answer): seq<BufferedBlock> {
    if input.Deliver? && r.Ok? && KeptBy(s, input.block) <= |s.canonical| <= |c.chain|
    then Grown(s, c, input.block, KeptBy(s, input.block))
    else c.chain
  }

  ghost predicate SameUpTo(a: seq<BufferedBlock>, b: seq<BufferedBlock>, n: int) {
    forall i {:trigger a[i]} {:trigger b[i]} :: 0 <= i < n && i < |a| ==> i < |b| && a[i] == b[i]
  }

  /** An acceptance is exactly an append on top of the parent, and it may happen there. */
  lemma AcceptAdmits(cfg: Config, s: State, b: Block)
    requires DistinctIds(s.canonical)
    ensures var kept := KeptBy(s, b);
      Accept(cfg, s, b).1.Ok? <==> MayAppend(s, b, kept)
    ensures Accept(cfg, s, b).1.Ok? ==> Accept(cfg, s, b) == Admit(cfg, s, b, KeptBy(s, b))
  {
    if b.blockId !in Ids(s.canonical) && b.parentId in Ids(s.canonical) {
      if b.parentId == Tip(s.canonical).blockId {
        TipAdmits(cfg, s, b);
      } else {
        ReorgAdmits(cfg, s, b);
      }
    } else {
      OtherAdmits(cfg, s, b);
    }
  }

  lemma TipAdmits(cfg: Config, s: State, b: Block)
    requires b.blockId !in Ids(s.canonical) && s.canonical != [] && b.parentId == Tip(s.canonical).blockId
    ensures b.parentId in Ids(s.canonical) && KeptBy(s, b) == |s.canonical| && MayAppend(s, b, KeptBy(s, b))
    ensures Accept(cfg, s, b) == Admit(cfg, s, b, KeptBy(s, b))
  {
    assert Tip(s.canonical) in s.canonical;
    assert RPosition(s.canonical, b.parentId) == |s.canonical| - 1;
  }

  lemma ReorgAdmits(cfg: Config, s: State, b: Block)
    requires b.blockId !in Ids(s.canonical) && b.parentId in Ids(s.canonical) && b.parentId != Tip(s.canonical).blockId
    ensures Accept(cfg, s, b).1.Ok? <==> MayAppend(s, b, KeptBy(s, b))
    ensures Accept(cfg, s, b).1.Ok? ==> Accept(cfg, s, b) == Admit(cfg, s, b, KeptBy(s, b))
  {
    assert Accept(cfg, s, b) == HandleReorg(cfg, s, b);
    assert KeptBy(s, b) == RPosition(s.canonical, b.parentId) + 1;
  }

  /** Duplicates, the very first block, and blocks without a parent in the buffer. */
  lemma OtherAdmits(cfg: Config, s: State, b: Block)
    requires b.blockId in Ids(s.canonical) || b.parentId !in Ids(s.canonical)
    ensures Accept(cfg, s, b).1.Ok? <==> MayAppend(s, b, KeptBy(s, b))
    ensures Accept(cfg, s, b).1.Ok? ==> Accept(cfg, s, b) == Admit(cfg, s, b, KeptBy(s, b))
  {
    if s.canonical != [] {
      assert Tip(s.canonical) in s.canonical;
    }
  }

  /** A refused block leaves the engine as it was. */
  lemma RefusalKeepsState(cfg: Config, s: State, b: Block)
    requires Accept(cfg, s, b).1.Err?
    ensures Accept(cfg, s, b).0 == s
  {
  }

  lemma AdmitAccepted(cfg: Config, s: State, c: Consumer, b: Block, kept: nat)
    requires cfg.Valid() && Coupled(s, c) && MayAppend(s, b, kept)
    ensures var (s', r) := Admit(cfg, s, b, kept);
      var fed := Feed(c, r.value);
      && fed.Some? && Coupled(s', fed.value)
      && fed.value.chain == Grown(s, c, b, kept)
      && StartOf(s, c) <= StartOf(s', fed.value)
  {
    AppendAccepted(s, c, b, kept);
    var s1 := Append(s, b, kept);
    var c1 := c.(chain := Grown(s, c, b, kept));
    SettleAccepted(s1, c1);
    var (s2, tail) := Settle(s1);
    FeedAppend(c, AppendOutputs(s, b, kept), tail);
    PruneCoupled(s2, Feed(c1, tail).value, cfg.bufferWindow);
  }

  // Whole runs

  /** Everything a consumer knows after a run. */
  ghost function Consumed(cfg: Config, inputs: seq<Input>): Consumer {
    var fed := Feed(START, Emissions(cfg, inputs));
    if fed.Some? then fed.value else START
  }

  /** Consumer replay, over any run of any inputs: no event is ever refused, and the engine's buffer
      is a non-empty suffix of the replayed chain. */
  lemma {:induction false} ReplayNeverFails(cfg: Config, inputs: seq<Input>)
    requires cfg.Valid()
    ensures Feed(START, Emissions(cfg, inputs)).Some?
    ensures Coupled(After(cfg, inputs), Consumed(cfg, inputs))
    decreases |inputs|, 1
  {
    if inputs != [] {
      RunStep(cfg, inputs);
    }
  }

  /** What the last input of a run does to the run so far. */
  lemma RunStep(cfg: Config, inputs: seq<Input>)
    requires cfg.Valid() && inputs != []
    ensures var before := inputs[..|inputs| - 1];
      var last := inputs[|inputs| - 1];
      var (s, c) := (After(cfg, before), Consumed(cfg, before));
      var (s', r) := Take(cfg, s, last);
      var c' := Consumed(cfg, inputs);
      && After(cfg, inputs) == s'
      && Emissions(cfg, inputs) == Emissions(cfg, before) + Emitted(r)
      && Feed(START, Emissions(cfg, inputs)) == Some(c')
      && Feed(c, Emitted(r)) == Some(c')
      && Coupled(s, c) && Coupled(s', c')
      && StartOf(s, c) <= StartOf(s', c')
      && SameUpTo(c.chain, c'.chain, StartOf(s, c) + 1)
      && c'.chain == ChainAfter(s, c, last, r)
    decreases |inputs|, 0
  {
    var before := inputs[..|inputs| - 1];
    ReplayNeverFails(cfg, before);
    var (s, c) := (After(cfg, before), Consumed(cfg, before));
    TakeAccepted(cfg, s, c, inputs[|inputs| - 1]);
    FeedAppend(START, Emissions(cfg, before), Emitted(Take(cfg, s, inputs[|inputs| - 1]).1));
  }

  /** A longer run emits a longer stream. */
  lemma {:induction false} EmissionsExtend(cfg: Config, inputs: seq<Input>, n: nat)
    requires n <= |inputs|
    ensures Emissions(cfg, inputs[..n]) <= Emissions(cfg, inputs)
  {
    if n < |inputs| {
      var before := inputs[..|inputs| - 1];
      EmissionsExtend(cfg, before, n);
      assert before[..n] == inputs[..n];
    } else {
      assert inputs[..n] == inputs;
    }
  }

  /** The pruned point never moves back, and everything up to and including the oldest block of the
      buffer is on the chain of every continuation: no Undo ever crosses it. */
  lemma {:induction false} PrunedPointIsPermanent(cfg: Config, inputs: seq<Input>, n: nat)
    requires cfg.Valid() && n <= |inputs|
    ensures var (s, c) := (After(cfg, inputs[..n]), Consumed(cfg, inputs[..n]));
      var (s', c') := (After(cfg, inputs), Consumed(cfg, inputs));
      && 0 <= StartOf(s, c) <= StartOf(s', c')
      && SameUpTo(c.chain, c'.chain, StartOf(s, c) + 1)
  {
    ReplayNeverFails(cfg, inputs[..n]);
    if n < |inputs| {
      var before := inputs[..|inputs| - 1];
      assert before[..n] == inputs[..n];
      PrunedPointIsPermanent(cfg, before, n);
      RunStep(cfg, inputs);
    } else {
      assert inputs[..n] == inputs;
    }
  }

  /** Irreversible is never undone: what a run has finalized stays on the chain, in the same place,
      on every continuation, for arbitrary header heights. */
  lemma IrreversibleIsNeverUndone(cfg: Config, inputs: seq<Input>, n: nat)
    requires cfg.Valid() && n <= |inputs|
    ensures var (c, c') := (Consumed(cfg, inputs[..n]), Consumed(cfg, inputs));
      c.locked <= c'.locked <= |c'.chain| && c.locked <= |c.chain| && c.chain[..c.locked] == c'.chain[..c.locked]
  {
    ReplayNeverFails(cfg, inputs[..n]);
    ReplayNeverFails(cfg, inputs);
    EmissionsExtend(cfg, inputs, n);
    var (a, b) := (Emissions(cfg, inputs[..n]), Emissions(cfg, inputs));
    FeedPrefix(START, b, |a|);
    assert b[..|a|] == a;
    FeedKeepsFinal(Consumed(cfg, inputs[..n]), b[|a|..]);
  }
}
