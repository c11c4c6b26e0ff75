/** What one engine call emits and leaves behind, field by field, and what that means for a whole run. */
module CallLaws {
  import opened Types
  import opened EngineSpec
  import opened Heads
  import opened Streams
  import opened Replay

  // The events of a call

  /** The buffered form of a delivered block: everything it came with, and a fork id. */
  predicate IsBuffered(x: BufferedBlock, b: Block) {
    && x.height == b.height && x.blockId == b.blockId && x.parentId == b.parentId
    && x.payload.transactions == b.payload.transactions && x.payload.txInfos == b.payload.txInfos
  }

  /** Step, cursor and finality envelope of a New or an Undo under a head. */
  predicate Tagged(s: StreamableBlock, step: Step, head: Option<Height>) {
    && s.step == step && s.cursor.height == s.block.height && s.cursor.blockId == s.block.blockId
    && s.finality.solidifiedHead == head
    && s.finality.tier == (if head.Some? && s.block.height <= head.value then Finalized else Seen)
  }

  predicate Undoes(o: Output, x: BufferedBlock, head: Option<Height>) {
    o.Undo? && o.streamable.block == x && Tagged(o.streamable, StepUndo, head)
  }

  predicate Announces(o: Output, b: Block, forkId: u32, head: Option<Height>) {
    && o.New? && IsBuffered(o.streamable.block, b) && o.streamable.block.forkId == forkId
    && Tagged(o.streamable, StepNew, head)
  }

  /** The `i`-th orphan above the kept blocks, tip first. */
  function Orphan(buffer: seq<BufferedBlock>, i: nat): BufferedBlock
    requires i < |buffer|
  {
    buffer[|buffer| - 1 - i]
  }

  /** The observation of a fork: the new block's height and id, and the ids of the `m` blocks undone, in order. */
  ghost predicate Observes(o: Output, buffer: seq<BufferedBlock>, m: nat, b: Block)
    requires m <= |buffer|
  {
    && o.ForkObserved? && o.observed.observedAtHeight == b.height && o.observed.keptTip == b.blockId
    && |o.observed.orphanedTips| == m
    && forall i :: 0 <= i < m ==> o.observed.orphanedTips[i] == Orphan(buffer, i).blockId
  }

  /** A finalization or a resolution under the head. */
  predicate SettledBy(o: Output, head: Height) {
    match o
    case Irreversible(s) =>
      && s.step == StepIrreversible && s.cursor.height == s.block.height && s.cursor.blockId == s.block.blockId
      && s.finality.tier == Finalized && s.finality.solidifiedHead == Some(head)
    case ForkResolved(_, under) => under == head
    case New(_) => false
    case Undo(_) => false
    case ForkObserved(_) => false
  }

  /** First finalizations, then resolutions, all under the head; without a head, nothing. */
  ghost predicate Settled(outs: seq<Output>, head: Option<Height>) {
    && (head.None? ==> outs == [])
    && (head.Some? ==> forall j :: 0 <= j < |outs| ==> SettledBy(outs[j], head.value))
    && forall i, j :: 0 <= i < j < |outs| && outs[j].Irreversible? ==> outs[i].Irreversible?
  }

  /** The events of an accepted block, in order: an Undo for each orphan, tip first, its own New, the fork
      observed if anything was orphaned, and what the head settles. */
  ghost predicate IsCall(outs: seq<Output>, buffer: seq<BufferedBlock>, kept: nat, b: Block, forkId: u32,
      head: Option<Height>)
    requires kept <= |buffer|
  {
    var m := |buffer| - kept;
    var n := if m > 0 then m + 2 else 1;
    && n <= |outs|
    && (forall i :: 0 <= i < m ==> Undoes(outs[i], Orphan(buffer, i), head))
    && Announces(outs[m], b, forkId, head)
    && (m > 0 ==> Observes(outs[m + 1], buffer, m, b))
    && Settled(outs[n..], head)
  }

  /** The buffer afterwards: the newest blocks of what was kept and the new one, as many as the window holds. */
  ghost predicate IsWindow(buffer': seq<BufferedBlock>, buffer: seq<BufferedBlock>, kept: nat, x: BufferedBlock,
      window: nat)
    requires kept <= |buffer|
  {
    var grown := buffer[..kept] + [x];
    |buffer'| == Min(window, kept + 1) && buffer' == grown[kept + 1 - |buffer'|..]
  }

  /** The block goes right after its parent; the very first block starts the buffer. */
  predicate GoesAfter(buffer: seq<BufferedBlock>, kept: nat, b: Block) {
    kept <= |buffer| && if buffer == [] then kept == 0 else kept > 0 && buffer[kept - 1].blockId == b.parentId
  }

  lemma {:induction false} OrphanIdsAt(orphans: seq<BufferedBlock>)
    ensures |OrphanIds(orphans)| == |orphans|
    ensures forall i :: 0 <= i < |orphans| ==> OrphanIds(orphans)[i] == orphans[|orphans| - 1 - i].blockId
  {
    if orphans != [] {
      OrphanIdsAt(orphans[..|orphans| - 1]);
    }
  }

  lemma SettleIsSettled(s: State)
    ensures Settled(Settle(s).1, s.solidifiedHead)
  {
    if s.solidifiedHead.Some? {
      var head := s.solidifiedHead.value;
      AllIrreversible(Finalizing(s.canonical, head, s.lastIrreversible), head);
      AllResolved(s.forkHistory[..ResolvedCount(s.forkHistory, head)], head);
    }
  }

  lemma AppendIsCall(s: State, b: Block, kept: nat, tail: seq<Output>)
    requires kept <= |s.canonical| && Settled(tail, s.solidifiedHead)
    ensures IsCall(AppendOutputs(s, b, kept) + tail, s.canonical, kept, b, s.nextForkId, s.solidifiedHead)
  {
    var orphans := s.canonical[kept..];
    var outs := AppendOutputs(s, b, kept);
    AllUndo(orphans, s.solidifiedHead);
    OrphanIdsAt(orphans);
    assert forall i :: 0 <= i < |orphans| ==> Orphan(s.canonical, i) == orphans[|orphans| - 1 - i];
    assert (outs + tail)[|outs|..] == tail;
  }

  /** Everything an accepted block does to an engine in state `s`: its events, the buffer, and nothing else but the
      fork id counter. */
  ghost predicate Accepts(cfg: Config, s: State, b: Block, kept: nat, s': State, outs: seq<Output>) {
    && GoesAfter(s.canonical, kept, b)
    && IsCall(outs, s.canonical, kept, b, s.nextForkId, s.solidifiedHead)
    && IsWindow(s'.canonical, s.canonical, kept, outs[|s.canonical| - kept].streamable.block, cfg.bufferWindow)
    && s'.solidifiedHead == s.solidifiedHead && s'.nextForkId == (s.nextForkId + 1) % 0x1_0000_0000
  }

  lemma AdmitAccepts(cfg: Config, s: State, b: Block, kept: nat)
    requires GoesAfter(s.canonical, kept, b)
    ensures var (s', r) := Admit(cfg, s, b, kept); r.Ok? && Accepts(cfg, s, b, kept, s', r.value)
  {
    var s1 := Append(s, b, kept);
    SettleIsSettled(s1);
    AppendIsCall(s, b, kept, Settle(s1).1);
    AllUndo(s.canonical[kept..], s.solidifiedHead);
  }

  lemma KeptGoesAfter(cfg: Config, s: State, b: Block)
    requires DistinctIds(s.canonical) && Accept(cfg, s, b).1.Ok?
    ensures GoesAfter(s.canonical, KeptBy(s, b), b) && Accept(cfg, s, b) == Admit(cfg, s, b, KeptBy(s, b))
  {
    AcceptAdmits(cfg, s, b);
  }

  /** What an accepted block does, after any run: what it emits, in order and field by field, where it goes, and
      which blocks stay buffered. */
  lemma AcceptedCall(cfg: Config, inputs: seq<Input>, b: Block) returns (kept: nat)
    requires cfg.Valid() && Accept(cfg, After(cfg, inputs), b).1.Ok?
    ensures var (s', r) := Accept(cfg, After(cfg, inputs), b);
      Accepts(cfg, After(cfg, inputs), b, kept, s', r.value)
  {
    var s := After(cfg, inputs);
    ReplayNeverFails(cfg, inputs);
    KeptGoesAfter(cfg, s, b);
    kept := KeptBy(s, b);
    AdmitAccepts(cfg, s, b, kept);
  }

  // What is refused

  ghost predicate Buffered(buffer: seq<BufferedBlock>, id: BlockId) {
    exists i :: 0 <= i < |buffer| && buffer[i].blockId == id
  }

  /** A reorg onto the parent would undo a block at or below the watermark. */
  ghost predicate UndoesFinal(s: State, b: Block) {
    && s.lastIrreversible.Some?
    && exists i :: 0 < i < |s.canonical| && s.canonical[i - 1].blockId == b.parentId
        && s.canonical[i].height <= s.lastIrreversible.value
  }

  lemma IdsAreBuffered(buffer: seq<BufferedBlock>, id: BlockId)
    ensures id in Ids(buffer) <==> Buffered(buffer, id)
  {
    if id in Ids(buffer) {
      var x :| x in buffer && x.blockId == id;
      var i :| 0 <= i < |buffer| && buffer[i] == x;
    }
    if i :| 0 <= i < |buffer| && buffer[i].blockId == id {
      assert buffer[i] in buffer;
    }
  }

  lemma OnlyPosition(buffer: seq<BufferedBlock>, id: BlockId, i: nat)
    requires DistinctIds(buffer) && i < |buffer| && buffer[i].blockId == id && id in Ids(buffer)
    ensures RPosition(buffer, id) == i
  {
    var j := RPosition(buffer, id);
    assert i < j ==> Differ(buffer, i, j);
  }

  /** The answer of the engine to a block, after any run: which error it is and what it says, or acceptance. A
      refused block changes nothing. */
  ghost predicate Answers(cfg: Config, s: State, b: Block, s': State, r: Answer) {
    var tip := if s.canonical == [] then 0 else s.canonical[|s.canonical| - 1].height;
    if Buffered(s.canonical, b.blockId) then r == Err(DuplicateBlock(b.blockId)) && s' == s
    else if s.canonical != [] && !Buffered(s.canonical, b.parentId) then
      r == Err(ParentNotInBuffer(b.height, b.parentId, tip, cfg.bufferWindow)) && s' == s
    else if UndoesFinal(s, b) then r == Err(ReorgBelowFinality(b.height, s.lastIrreversible.value)) && s' == s
    else r.Ok?
  }

  lemma StepAnswers(cfg: Config, s: State, b: Block)
    requires DistinctIds(s.canonical)
    ensures Answers(cfg, s, b, Accept(cfg, s, b).0, Accept(cfg, s, b).1)
  {
    IdsAreBuffered(s.canonical, b.blockId);
    IdsAreBuffered(s.canonical, b.parentId);
    if !Buffered(s.canonical, b.blockId) && Buffered(s.canonical, b.parentId) {
      var i := RPosition(s.canonical, b.parentId);
      UndoesFinalAt(s, b, i);
      ParentAnswers(cfg, s, b, i);
    }
  }

  lemma UndoesFinalAt(s: State, b: Block, i: nat)
    requires DistinctIds(s.canonical) && b.parentId in Ids(s.canonical) && i == RPosition(s.canonical, b.parentId)
    ensures UndoesFinal(s, b) <==> i + 1 < |s.canonical| && !Above(s.canonical[i + 1].height, s.lastIrreversible)
  {
    if UndoesFinal(s, b) {
      var j :| 0 < j < |s.canonical| && s.canonical[j - 1].blockId == b.parentId
        && s.canonical[j].height <= s.lastIrreversible.value;
      OnlyPosition(s.canonical, b.parentId, j - 1);
    }
  }

  lemma ParentAnswers(cfg: Config, s: State, b: Block, i: nat)
    requires DistinctIds(s.canonical) && b.blockId !in Ids(s.canonical) && b.parentId in Ids(s.canonical)
    requires i == RPosition(s.canonical, b.parentId)
    ensures Accept(cfg, s, b) == ReorgAt(cfg, s, b, i + 1)
  {
    if b.parentId == Tip(s.canonical).blockId {
      OnlyPosition(s.canonical, b.parentId, |s.canonical| - 1);
    }
  }

  lemma AnswersExactly(cfg: Config, inputs: seq<Input>, b: Block)
    requires cfg.Valid()
    ensures var (s', r) := Accept(cfg, After(cfg, inputs), b); Answers(cfg, After(cfg, inputs), b, s', r)
  {
    ReplayNeverFails(cfg, inputs);
    StepAnswers(cfg, After(cfg, inputs), b);
  }

  // A reported head

  /** What a reported head does, after any run: one above every head before it settles the buffer under it; any
      other does nothing. */
  lemma HeadCall(cfg: Config, inputs: seq<Input>, head: Height)
    ensures var s := After(cfg, inputs);
      var (s', outs) := SetSolidifiedHead(s, head);
      if forall h: Height :: Solidify(h) in inputs ==> h < head
      then
        && s'.solidifiedHead == Some(head) && Settled(outs, Some(head))
        && s'.canonical == s.canonical && s'.nextForkId == s.nextForkId
      else s' == s && outs == []
  {
    HeadIsGreatest(cfg, inputs);
    var s := After(cfg, inputs);
    SettleIsSettled(s.(solidifiedHead := Some(head)));
    if s.solidifiedHead.Some? && s.solidifiedHead.value < head {
      assert forall h: Height :: Solidify(h) in inputs ==> h < head;
    }
  }

  // Whole runs

  function NewsIn(outs: seq<Output>): nat {
    if outs == [] then 0 else NewsIn(outs[..|outs| - 1]) + (if outs[|outs| - 1].New? then 1 else 0)
  }

  lemma {:induction false} NewsInAppend(a: seq<Output>, b: seq<Output>)
    ensures NewsIn(a + b) == NewsIn(a) + NewsIn(b)
  {
    if b == [] {
      assert a + b == a;
    } else {
      var n := |b| - 1;
      assert (a + b)[..|a + b| - 1] == a + b[..n];
      NewsInAppend(a, b[..n]);
    }
  }

  /** A number as the 32-bit counter shows it. */
  predicate Shows(id: u32, n: nat) {
    id == n % 0x1_0000_0000
  }

  lemma ShowsNext(id: u32, n: nat)
    requires Shows(id, n)
    ensures Shows((id + 1) % 0x1_0000_0000, n + 1)
  {
  }

  /** Each New event is numbered by the New events before it, `from` more than these. */
  predicate Numbered(outs: seq<Output>, from: nat) {
    if outs == [] then true
    else
      var (before, last) := (outs[..|outs| - 1], outs[|outs| - 1]);
      Numbered(before, from) && (last.New? ==> Shows(last.streamable.block.forkId, from + NewsIn(before)))
  }

  lemma {:induction false} NumberedAppend(a: seq<Output>, b: seq<Output>, from: nat)
    requires Numbered(a, from) && Numbered(b, from + NewsIn(a))
    ensures Numbered(a + b, from)
  {
    if b == [] {
      assert a + b == a;
    } else {
      var before := b[..|b| - 1];
      assert (a + b)[..|a + b| - 1] == a + before;
      NumberedAppend(a, before, from);
      NewsInAppend(a, before);
    }
  }

  lemma {:induction false} NoNewsNumbered(outs: seq<Output>, from: nat)
    requires forall i :: 0 <= i < |outs| ==> !outs[i].New?
    ensures Numbered(outs, from) && NewsIn(outs) == 0
  {
    if outs != [] {
      NoNewsNumbered(outs[..|outs| - 1], from);
    }
  }

  lemma OneNumbered(o: Output, from: nat)
    requires o.New? && Shows(o.streamable.block.forkId, from)
    ensures Numbered([o], from) && NewsIn([o]) == 1
  {
    assert [o][..0] == [];
  }

  /** The sequence is numbered from `from` on and has `k` New events. */
  predicate Counts(outs: seq<Output>, from: nat, k: nat) {
    Numbered(outs, from) && NewsIn(outs) == k
  }

  lemma CountsJoin(a: seq<Output>, b: seq<Output>, from: nat, j: nat, k: nat)
    requires Counts(a, from, j) && Counts(b, from + j, k)
    ensures Counts(a + b, from, j + k)
  {
    NumberedAppend(a, b, from);
    NewsInAppend(a, b);
  }

  lemma LoneNew(before: seq<Output>, o: Output, after: seq<Output>, from: nat)
    requires o.New? && Shows(o.streamable.block.forkId, from)
    requires forall i :: 0 <= i < |before| ==> !before[i].New?
    requires forall i :: 0 <= i < |after| ==> !after[i].New?
    ensures Counts(before + [o] + after, from, 1)
  {
    NoNewsNumbered(before, from);
    NoNewsNumbered(after, from + 1);
    OneNumbered(o, from);
    CountsJoin(before, [o], from, 0, 1);
    CountsJoin(before + [o], after, from, 1, 0);
  }

  /** One call has exactly one New event. */
  lemma CallNumbered(outs: seq<Output>, buffer: seq<BufferedBlock>, kept: nat, b: Block, forkId: u32, from: nat,
      head: Option<Height>)
    requires kept <= |buffer| && IsCall(outs, buffer, kept, b, forkId, head) && Shows(forkId, from)
    ensures Counts(outs, from, 1)
  {
    var m := |buffer| - kept;
    var n := if m > 0 then m + 2 else 1;
    forall i | 0 <= i < |outs| && i != m ensures !outs[i].New? {
      if i < m {
        assert Undoes(outs[i], Orphan(buffer, i), head);
      } else if i >= n {
        assert outs[n..][i - n] == outs[i];
      }
    }
    assert outs == outs[..m] + [outs[m]] + outs[m + 1..];
    LoneNew(outs[..m], outs[m], outs[m + 1..], from);
  }

  lemma SettledHasNoNews(outs: seq<Output>, head: Option<Height>, from: nat)
    requires Settled(outs, head)
    ensures NewsIn(outs) == 0 && Numbered(outs, from)
  {
    forall i | 0 <= i < |outs| ensures !outs[i].New? {
      assert SettledBy(outs[i], head.value);
    }
    NoNewsNumbered(outs, from);
  }

  /** What one step adds to the numbering. */
  ghost predicate CountsOn(id: u32, n: nat, outs: seq<Output>) {
    Numbered(outs, n) && Shows(id, n + NewsIn(outs))
  }

  lemma AcceptedCounts(cfg: Config, s: State, b: Block, kept: nat, s': State, outs: seq<Output>, n: nat)
    requires Accepts(cfg, s, b, kept, s', outs) && Shows(s.nextForkId, n)
    ensures CountsOn(s'.nextForkId, n, outs)
  {
    CallNumbered(outs, s.canonical, kept, b, s.nextForkId, n, s.solidifiedHead);
    ShowsNext(s.nextForkId, n);
  }

  lemma RefusedCounts(id: u32, n: nat)
    requires Shows(id, n)
    ensures CountsOn(id, n, [])
  {
  }

  lemma DeliverCounts(cfg: Config, inputs: seq<Input>, b: Block, n: nat)
    requires cfg.Valid() && Shows(After(cfg, inputs).nextForkId, n)
    ensures var (s', r) := Accept(cfg, After(cfg, inputs), b); CountsOn(s'.nextForkId, n, Emitted(r))
  {
    var s := After(cfg, inputs);
    var (s', r) := Accept(cfg, s, b);
    if r.Ok? {
      var kept := AcceptedCall(cfg, inputs, b);
      AcceptedCounts(cfg, s, b, kept, s', r.value, n);
    } else {
      RefusalKeepsState(cfg, s, b);
      RefusedCounts(s.nextForkId, n);
    }
  }

  lemma SettledCounts(id: u32, head: Height, outs: seq<Output>, n: nat)
    requires Settled(outs, Some(head)) && Shows(id, n)
    ensures CountsOn(id, n, outs)
  {
    SettledHasNoNews(outs, Some(head), n);
  }

  lemma SolidifyCounts(cfg: Config, inputs: seq<Input>, head: Height, n: nat)
    requires Shows(After(cfg, inputs).nextForkId, n)
    ensures var (s', outs) := SetSolidifiedHead(After(cfg, inputs), head); CountsOn(s'.nextForkId, n, outs)
  {
    HeadCall(cfg, inputs, head);
    var (s', outs) := SetSolidifiedHead(After(cfg, inputs), head);
    if outs == [] {
      RefusedCounts(s'.nextForkId, n);
    } else {
      SettledCounts(s'.nextForkId, head, outs, n);
    }
  }

  lemma StepCounts(cfg: Config, inputs: seq<Input>, input: Input, n: nat)
    requires cfg.Valid() && Shows(After(cfg, inputs).nextForkId, n)
    ensures var (s', r) := Take(cfg, After(cfg, inputs), input); CountsOn(s'.nextForkId, n, Emitted(r))
  {
    match input
    case Solidify(head) => SolidifyCounts(cfg, inputs, head, n);
    case Deliver(b) => DeliverCounts(cfg, inputs, b, n);
  }

  lemma CountsAppend(id: u32, a: seq<Output>, b: seq<Output>)
    requires Numbered(a, 0) && CountsOn(id, NewsIn(a), b)
    ensures CountsOn(id, 0, a + b)
  {
    NumberedAppend(a, b, 0);
    NewsInAppend(a, b);
  }

  /** Over every run, the fork id of each New event is the number of New events before it, modulo 2^32, and the
      counter stands at their total. */
  lemma {:induction false} ForkIdsCount(cfg: Config, inputs: seq<Input>)
    requires cfg.Valid()
    ensures CountsOn(After(cfg, inputs).nextForkId, 0, Emissions(cfg, inputs))
  {
    if inputs != [] {
      var (before, last) := (inputs[..|inputs| - 1], inputs[|inputs| - 1]);
      ForkIdsCount(cfg, before);
      var more := Emitted(Take(cfg, After(cfg, before), last).1);
      StepCounts(cfg, before, last, NewsIn(Emissions(cfg, before)));
      CountsAppend(After(cfg, inputs).nextForkId, Emissions(cfg, before), more);
    }
  }

  /** The block is one that was delivered. */
  ghost predicate WasDelivered(inputs: seq<Input>, x: BufferedBlock) {
    exists k :: 0 <= k < |inputs| && inputs[k].Deliver? && IsBuffered(x, inputs[k].block)
  }

  lemma StillDelivered(inputs: seq<Input>, n: nat, x: BufferedBlock)
    requires n <= |inputs| && WasDelivered(inputs[..n], x)
    ensures WasDelivered(inputs, x)
  {
    var k :| 0 <= k < n && inputs[..n][k].Deliver? && IsBuffered(x, inputs[..n][k].block);
    assert inputs[k] == inputs[..n][k];
  }

  ghost predicate AllDelivered(inputs: seq<Input>, chain: seq<BufferedBlock>) {
    forall i :: 0 <= i < |chain| ==> WasDelivered(inputs, chain[i])
  }

  /** A chain that is cut and grown by the last block delivered. */
  lemma GrownDelivered(inputs: seq<Input>, n: nat, chain: seq<BufferedBlock>, cut: nat, x: BufferedBlock)
    requires n + 1 == |inputs| && AllDelivered(inputs[..n], chain) && cut <= |chain|
    requires inputs[n].Deliver? && IsBuffered(x, inputs[n].block)
    ensures AllDelivered(inputs, chain[..cut] + [x])
  {
    forall i | 0 <= i < cut ensures WasDelivered(inputs, chain[i]) {
      StillDelivered(inputs, n, chain[i]);
    }
  }

  lemma SameDelivered(inputs: seq<Input>, n: nat, chain: seq<BufferedBlock>)
    requires n <= |inputs| && AllDelivered(inputs[..n], chain)
    ensures AllDelivered(inputs, chain)
  {
    forall i | 0 <= i < |chain| ensures WasDelivered(inputs, chain[i]) {
      StillDelivered(inputs, n, chain[i]);
    }
  }

  lemma StepDelivered(inputs: seq<Input>, n: nat, s: State, c: Consumer, r: Answer)
    requires n + 1 == |inputs| && AllDelivered(inputs[..n], c.chain) && 0 <= StartOf(s, c)
    ensures AllDelivered(inputs, ChainAfter(s, c, inputs[n], r))
  {
    var last := inputs[n];
    if last.Deliver? && r.Ok? && KeptBy(s, last.block) <= |s.canonical| {
      var cut := StartOf(s, c) + KeptBy(s, last.block);
      GrownDelivered(inputs, n, c.chain, cut, Buffer(last.block, s.nextForkId));
    } else {
      SameDelivered(inputs, n, c.chain);
    }
  }

  /** Over every run, each block of the chain is one that was delivered, with all it came with. */
  lemma {:induction false} ChainIsDelivered(cfg: Config, inputs: seq<Input>)
    requires cfg.Valid()
    ensures AllDelivered(inputs, Consumed(cfg, inputs).chain)
  {
    if inputs != [] {
      var n := |inputs| - 1;
      var (s, c) := (After(cfg, inputs[..n]), Consumed(cfg, inputs[..n]));
      ChainIsDelivered(cfg, inputs[..n]);
      RunStep(cfg, inputs);
      StepDelivered(inputs, n, s, c, Take(cfg, s, inputs[n]).1);
    }
  }
}
