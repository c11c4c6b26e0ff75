/** Concrete reorgs during a request: an orphan that stays with the subscriber, and an Undo of a block it was never
    sent. */
module ReorgWitnesses {
  import opened Types
  import opened EngineSpec
  import opened Replay
  import opened Cache
  import opened CacheChain
  import opened Archiver
  import opened Backfill
  import opened Hub
  import opened Pipeline
  import opened Delivery
  import opened Handoff
  import opened Holdings
  import opened Witnesses

  // A block and its replacement

  /** `b` and `c` are both children of `a`. */
  ghost predicate Siblings(a: Block, b: Block, c: Block) {
    && WellFormedHeader(a.height, a.blockId, a.parentId)
    && WellFormedHeader(b.height, b.blockId, b.parentId)
    && WellFormedHeader(c.height, c.blockId, c.parentId)
    && b.parentId == a.blockId && c.parentId == a.blockId && b.blockId != c.blockId
  }

  lemma SiblingHeights(a: Block, b: Block, c: Block)
    requires Siblings(a, b, c)
    ensures b.height == c.height == a.height + 1 && b.blockId != a.blockId && c.blockId != a.blockId
  {
    ChildDiffers(a, b);
    ChildDiffers(a, c);
  }

  function Undone(b: BufferedBlock): Output {
    Undo(Emit(StepUndo, b, None))
  }

  function Observed(b: BufferedBlock, c: Block): Output {
    ForkObserved(ForkObservation(c.height, c.blockId, [b.blockId]))
  }

  /** What the engine emits when `c` replaces `b`. */
  function Replacement(b: BufferedBlock, c: Block): seq<Output> {
    [Undone(b), Pushed(Buffer(c, 2), None), Observed(b, c)]
  }

  function TwoBlocks(x: BufferedBlock, y: BufferedBlock): State {
    State([x, y], None, None, [], 2)
  }

  lemma TakeSibling(cfg: Config, a: Block, b: Block, c: Block)
    requires cfg.Valid() && Siblings(a, b, c)
    ensures Take(cfg, TwoBlocks(Buffer(a, 0), Buffer(b, 1)), Deliver(c)).1 == Ok(Replacement(Buffer(b, 1), c))
  {
    var (x, y, z) := (Buffer(a, 0), Buffer(b, 1), Buffer(c, 2));
    var s := TwoBlocks(x, y);
    SiblingHeights(a, b, c);
    assert s.canonical[1..] == [y] && s.canonical[..1] == [x];
    assert Ids(s.canonical) == {a.blockId, b.blockId};
    assert RPosition([x, y], a.blockId) == 0;
    assert OrphanIds([y]) == [b.blockId] && Undos([y], None) == [Undone(y)];
    assert AppendOutputs(s, c, 1) == Replacement(y, c);
    assert Settle(Append(s, c, 1)).1 == [];
    assert Replacement(y, c) + [] == Replacement(y, c);
    assert Take(cfg, s, Deliver(c)) == Admit(cfg, s, c, 1);
  }

  // Two blocks broadcast

  ghost function TwoPushed(p: Setup, a: Block, b: Block): Sys {
    var (x, y) := (Buffer(a, 0), Buffer(b, 1));
    var (ox, oy) := (Pushed(x, None), Pushed(y, None));
    Sys(TwoBlocks(x, y), [], None, [], Write(p.capacity, map[x.height := (x.blockId, x)], oy),
      HubState([ox, oy], [0], [[ox, oy]]), [], map[], Idle, [Deliver(a), Deliver(b)])
  }

  lemma ReachTwoPushed(p: Setup, a: Block, b: Block) returns (actions: seq<Action>)
    requires p.cfg.Valid() && p.cfg.bufferWindow >= 2 && p.capacity > 0
    requires b.parentId == a.blockId && b.blockId != a.blockId
    ensures Reaches(p, actions, TwoPushed(p, a, b))
  {
    var (x, y) := (Buffer(a, 0), Buffer(b, 1));
    var o := Pushed(y, None);
    actions := ReachBroadcast(p, a);
    TakeChild(p.cfg, x, b, None, 1);
    assert Prune(p.cfg.bufferWindow, [x, y]) == [x, y];
    actions := Publish(p, actions, OneBroadcast(a), Deliver(b), o);
    var s := Published(p, OneBroadcast(a), Deliver(b), o);
    actions := PumpOne(p, actions, s, o);
    CarryOnce(Pushed(x, None), o);
  }

  // Draining what is pending

  lemma DrainOne(p: Setup, before: seq<Action>, s: Sys) returns (actions: seq<Action>, s': Sys)
    requires Reaches(p, before, s) && s.unsent.None? && s.channel == [] && s.pending != []
    ensures Reaches(p, actions, s')
    ensures s' == s.(pending := s.pending[1..], cache := s'.cache, hub := Carry(s.hub, s.pending[0]))
  {
    var o := s.pending[0];
    actions := OneStep(p, before, s, WriteCache);
    var s1 := Do(p, s, WriteCache);
    actions := OneStep(p, actions, s1, Send);
    var s2 := Do(p, s1, Send);
    assert s2.channel == [o] && [o][1..] == [];
    actions := OneStep(p, actions, s2, Pump);
    s' := Do(p, s2, Pump);
  }

  lemma DrainThree(p: Setup, before: seq<Action>, s: Sys, o1: Output, o2: Output, o3: Output)
    returns (actions: seq<Action>, s': Sys)
    requires Reaches(p, before, s) && s.unsent.None? && s.channel == [] && s.pending == [o1, o2, o3]
    ensures Reaches(p, actions, s')
    ensures s' == s.(pending := [], cache := s'.cache, hub := Carry(Carry(Carry(s.hub, o1), o2), o3))
  {
    var s1, s2: Sys;
    actions, s1 := DrainOne(p, before, s);
    assert s1.pending == [o2, o3];
    actions, s2 := DrainOne(p, actions, s1);
    assert s2.pending == [o3];
    actions, s' := DrainOne(p, actions, s2);
  }

  lemma CarryThree(ox: Output, oy: Output, o1: Output, o2: Output, o3: Output)
    ensures Carry(Carry(Carry(HubState([ox, oy], [0, 2], [[ox, oy], []]), o1), o2), o3)
      == HubState([ox, oy, o1, o2, o3], [0, 2], [[ox, oy, o1, o2, o3], [o1, o2, o3]])
  {
    var h := HubState([ox, oy], [0, 2], [[ox, oy], []]);
    assert [ox, oy] + [o1] == [ox, oy, o1] && [] + [o1] == [o1];
    assert Carry(h, o1) == HubState([ox, oy, o1], [0, 2], [[ox, oy, o1], [o1]]);
    assert [ox, oy, o1] + [o2] == [ox, oy, o1, o2] && [o1] + [o2] == [o1, o2];
    assert Carry(Carry(h, o1), o2) == HubState([ox, oy, o1, o2], [0, 2], [[ox, oy, o1, o2], [o1, o2]]);
    assert [ox, oy, o1, o2] + [o3] == [ox, oy, o1, o2, o3] && [o1, o2] + [o3] == [o1, o2, o3];
  }

  /** The chain after the replacement. */
  lemma FeedReplacement(x: BufferedBlock, y: BufferedBlock, c: Block, outs: seq<Output>)
    requires y.parentId == x.blockId && c.parentId == x.blockId
    requires outs == [Pushed(x, None), Pushed(y, None)] + Replacement(y, c)
    ensures Feed(START, outs).Some? && Feed(START, outs).value.chain == [x, Buffer(c, 2)]
  {
    var z := Buffer(c, 2);
    var (c0, c1) := (Consumer([x], 0, None), Consumer([x, y], 0, None));
    assert [] + [x] == [x] && [x] + [y] == [x, y] && [x, y][..1] == [x] && [x] + [z] == [x, z];
    assert Apply(START, outs[0]) == Some(c0) && Apply(c0, outs[1]) == Some(c1);
    assert Apply(c1, outs[2]) == Some(c0);
    assert Apply(c0, outs[3]) == Some(Consumer([x, z], 0, None));
    assert outs[1..][1..] == outs[2..] && outs[2..][1..] == outs[3..] && outs[3..][1..] == outs[4..]
      && outs[4..][1..] == [];
    assert Feed(START, outs) == Feed(c0, outs[1..]);
    assert Feed(c0, outs[1..]) == Feed(c1, outs[2..]);
    assert Feed(c1, outs[2..]) == Feed(c0, outs[3..]);
    assert Feed(c0, outs[3..]) == Feed(Consumer([x, z], 0, None), outs[4..]);
    assert Feed(Consumer([x, z], 0, None), outs[4..]) == Feed(Consumer([x, z], 0, None), []);
  }

  // An orphan that stays

  /** A request served the second block from the cache. */
  ghost function AnsweredOne(p: Setup, a: Block, b: Block): Sys {
    var (x, y) := (Buffer(a, 0), Buffer(b, 1));
    var (ox, oy) := (Pushed(x, None), Pushed(y, None));
    TwoPushed(p, a, b).(hub := HubState([ox, oy], [0, 2], [[ox, oy], []]),
      phase := Serving(Seat(1, 2), Some((y.height, y.height)), 2, Reading(Detached, 0, None), [], 2, None,
        [CachedResponse(p.encode, y, None)]))
  }

  lemma ReachOne(p: Setup, a: Block, b: Block) returns (actions: seq<Action>)
    requires p.cfg.Valid() && p.cfg.bufferWindow >= 2 && p.capacity == 1 && p.start == b.height
    requires b.parentId == a.blockId && b.blockId != a.blockId && b.height == a.height + 1
    ensures Reaches(p, actions, AnsweredOne(p, a, b))
  {
    var (x, y, s0) := (Buffer(a, 0), Buffer(b, 1), TwoPushed(p, a, b));
    var s: Sys;
    actions := ReachTwoPushed(p, a, b);
    WriteOnly(y, None, map[x.height := (x.blockId, x)], 1);
    OneCached(p.encode, y, [], b.height, None);
    actions, s := ServeNow(p, actions, s0, Detached, None, [], [CachedResponse(p.encode, y, None)]);
    assert |Written(s0)| == 2;
    assert s == AnsweredOne(p, a, b);
  }

  /** After the replacement was heard. */
  ghost predicate Replaced(p: Setup, s: Sys, a: Block, b: Block, c: Block) {
    var y := Buffer(b, 1);
    && s.history == [Deliver(a), Deliver(b), Deliver(c)] && s.phase == AnsweredOne(p, a, b).phase
    && s.hub.history == [Pushed(Buffer(a, 0), None), Pushed(y, None)] + Replacement(y, c)
    && Heard(s.hub, s.phase.seat) == Replacement(y, c)
  }

  /** The call that replaces the block, before anything of it is cached. */
  ghost function Replacing(p: Setup, a: Block, b: Block, c: Block): Sys {
    AnsweredOne(p, a, b).(engine := Take(p.cfg, TwoBlocks(Buffer(a, 0), Buffer(b, 1)), Deliver(c)).0,
      pending := Replacement(Buffer(b, 1), c), history := [Deliver(a), Deliver(b), Deliver(c)])
  }

  lemma ReachReplacing(p: Setup, a: Block, b: Block, c: Block) returns (actions: seq<Action>)
    requires p.cfg.Valid() && p.cfg.bufferWindow >= 2 && p.capacity == 1 && p.start == b.height && Siblings(a, b, c)
    ensures Reaches(p, actions, Replacing(p, a, b, c))
  {
    SiblingHeights(a, b, c);
    actions := ReachOne(p, a, b);
    TakeSibling(p.cfg, a, b, c);
    actions := OneStep(p, actions, AnsweredOne(p, a, b), Call(Deliver(c)));
    assert [Deliver(a), Deliver(b)] + [Deliver(c)] == [Deliver(a), Deliver(b), Deliver(c)];
  }

  lemma ReachReplaced(p: Setup, a: Block, b: Block, c: Block) returns (actions: seq<Action>, s: Sys)
    requires p.cfg.Valid() && p.cfg.bufferWindow >= 2 && p.capacity == 1 && p.start == b.height && Siblings(a, b, c)
    ensures Reaches(p, actions, s) && Replaced(p, s, a, b, c)
  {
    var (y, z) := (Buffer(b, 1), Buffer(c, 2));
    actions := ReachReplacing(p, a, b, c);
    actions, s := DrainThree(p, actions, Replacing(p, a, b, c), Undone(y), Pushed(z, None), Observed(y, c));
    CarryThree(Pushed(Buffer(a, 0), None), Pushed(y, None), Undone(y), Pushed(z, None), Observed(y, c));
  }

  /** The live filter drops the Undo and the New: both are at the height of the backfill's tip. */
  lemma ReplacementIsFiltered(encode: Encoder, y: BufferedBlock, c: Block)
    requires c.height == y.height
    ensures LiveTail(encode, Replacement(y, c), Some(y.height)) == []
  {
    var outs := Replacement(y, c);
    assert outs[..2] == [outs[0], outs[1]] && outs[..1] == [outs[0]] && outs[..2][..1] == [outs[0]];
    assert [outs[0]][..0] == [] && outs[..2] + [outs[2]] == outs && [outs[0]] + [outs[1]] == outs[..2]
      && [] + [outs[0]] == [outs[0]];
    LiveTailOne(encode, [], outs[0], Some(y.height));
    LiveTailOne(encode, [outs[0]], outs[1], Some(y.height));
    LiveTailOne(encode, outs[..2], outs[2], Some(y.height));
  }

  lemma FoldSingle(r: Response)
    requires r.step == StepNew
    ensures Folds([r], [NameOf(r)])
  {
    assert [] + [r] == [r] && [] + [NameOf(r)] == [NameOf(r)];
    FoldOne([], r);
  }

  /** A block is cached and served; then it is replaced. The subscriber is sent neither the Undo nor the
      replacement: it keeps the orphan, at whose height the chain has another block. */
  lemma OrphanStays(p: Setup, a: Block, b: Block, c: Block) returns (actions: seq<Action>)
    requires p.cfg.Valid() && p.cfg.bufferWindow >= 2 && p.capacity == 1 && p.start == b.height && Siblings(a, b, c)
    ensures var s := Exec(p, actions);
      && ServedWarm(p, s) && ChainHeard(s) == [Buffer(a, 0), Buffer(c, 2)]
      && Folds(Delivered(p, s), [(b.height, b.blockId)])
      && !HoldsChain(p, s)
  {
    var s: Sys;
    SiblingHeights(a, b, c);
    actions, s := ReachReplaced(p, a, b, c);
    OrphanHeld(p, s, a, b, c);
  }

  lemma OrphanHeld(p: Setup, s: Sys, a: Block, b: Block, c: Block)
    requires p.cfg.Valid() && p.capacity == 1 && p.start == b.height && Siblings(a, b, c) && Replaced(p, s, a, b, c)
    ensures ServedWarm(p, s) && ChainHeard(s) == [Buffer(a, 0), Buffer(c, 2)]
    ensures Folds(Delivered(p, s), [(b.height, b.blockId)]) && !HoldsChain(p, s)
  {
    var (x, y) := (Buffer(a, 0), Buffer(b, 1));
    SiblingHeights(a, b, c);
    assert WellFormedInput(s.history[0]) && WellFormedInput(s.history[1]) && WellFormedInput(s.history[2]);
    FeedReplacement(x, y, c, s.hub.history);
    assert s.hub.history[..|s.hub.history|] == s.hub.history;
    OrphanDelivered(p.encode, y, c);
    OrphanMissed(x, c, b);
  }

  lemma OrphanDelivered(encode: Encoder, y: BufferedBlock, c: Block)
    requires c.height == y.height
    ensures Folds(Shipped(encode, [] + [CachedResponse(encode, y, None)], Replacement(y, c)), [(y.height, y.blockId)])
  {
    var row := CachedResponse(encode, y, None);
    ReplacementIsFiltered(encode, y, c);
    assert [] + [row] == [row] && [row] + [] == [row];
    FoldSingle(row);
  }

  lemma OrphanMissed(x: BufferedBlock, c: Block, b: Block)
    requires c.height == b.height == x.height + 1 && c.blockId != b.blockId
    ensures NewNames([]) + ChainNames(FromHeight([x, Buffer(c, 2)], b.height)) != [(b.height, b.blockId)]
  {
    var z := Buffer(c, 2);
    assert FromHeight([x, z], b.height) == [z];
    ChainNamesOne([], z);
    assert [] + [z] == [z];
    assert (NewNames([]) + ChainNames([z]))[0] == (c.height, c.blockId);
  }

  // An Undo of a block that was never sent

  lemma TwoCached(x: BufferedBlock, y: BufferedBlock, capacity: nat)
    requires capacity >= 2 && y.height == x.height + 1 && y.blockId != x.blockId
    ensures var one: Cached := map[x.height := (x.blockId, x)];
      Write(capacity, Write(capacity, one, Pushed(y, None)), Undone(y)) == one
  {
    var one: Cached := map[x.height := (x.blockId, x)];
    var both: Cached := map[x.height := (x.blockId, x), y.height := (y.blockId, y)];
    assert Updated(one, y.height, y.blockId, y) == both;
    assert KeysAbove(both, x.height) == {y.height} && KeysAbove(both, y.height) == {};
    assert Newest(both, capacity) == both;
  }

  /** The cache has been given the Undo of the second block, which is not yet broadcast; a request was served the
      first. */
  ghost function AnsweredFirst(p: Setup, a: Block, b: Block, c: Block): Sys {
    var (x, y) := (Buffer(a, 0), Buffer(b, 1));
    var (ox, oy) := (Pushed(x, None), Pushed(y, None));
    Undoing(p, a, b, c).(hub := HubState([ox, oy], [0, 2], [[ox, oy], []]),
      phase := Serving(Seat(1, 2), Some((x.height, x.height)), 3, Reading(Detached, 0, None), [], 3, None,
        [CachedResponse(p.encode, x, None)]))
  }

  ghost function Undoing(p: Setup, a: Block, b: Block, c: Block): Sys {
    var (x, y) := (Buffer(a, 0), Buffer(b, 1));
    TwoPushed(p, a, b).(engine := Take(p.cfg, TwoBlocks(x, y), Deliver(c)).0, pending := Replacement(y, c)[1..],
      unsent := Some(Undone(y)), cache := map[x.height := (x.blockId, x)],
      history := [Deliver(a), Deliver(b), Deliver(c)])
  }

  lemma ReachUndoing(p: Setup, a: Block, b: Block, c: Block) returns (actions: seq<Action>)
    requires p.cfg.Valid() && p.cfg.bufferWindow >= 2 && p.capacity >= 2 && Siblings(a, b, c)
    ensures Reaches(p, actions, Undoing(p, a, b, c))
  {
    var (x, y, s) := (Buffer(a, 0), Buffer(b, 1), TwoPushed(p, a, b));
    SiblingHeights(a, b, c);
    actions := ReachTwoPushed(p, a, b);
    TakeSibling(p.cfg, a, b, c);
    TwoCached(x, y, p.capacity);
    actions := OneStep(p, actions, s, Call(Deliver(c)));
    var s1 := Do(p, s, Call(Deliver(c)));
    assert s1 == s.(engine := Undoing(p, a, b, c).engine, pending := Replacement(y, c),
      history := [Deliver(a), Deliver(b), Deliver(c)]);
    actions := OneStep(p, actions, s1, WriteCache);
    assert Do(p, s1, WriteCache) == Undoing(p, a, b, c);
  }

  lemma ReachFirst(p: Setup, a: Block, b: Block, c: Block) returns (actions: seq<Action>)
    requires p.cfg.Valid() && p.cfg.bufferWindow >= 2 && p.capacity >= 2 && p.start == a.height && Siblings(a, b, c)
    ensures Reaches(p, actions, AnsweredFirst(p, a, b, c))
  {
    var (x, s0) := (Buffer(a, 0), Undoing(p, a, b, c));
    var s: Sys;
    actions := ReachUndoing(p, a, b, c);
    WriteOnly(x, None, map[], p.capacity);
    OneCached(p.encode, x, [], a.height, None);
    actions, s := ServeNow(p, actions, s0, Detached, None, [], [CachedResponse(p.encode, x, None)]);
    FirstAnswered(p, a, b, c, s);
  }

  lemma FirstAnswered(p: Setup, a: Block, b: Block, c: Block, s: Sys)
    requires p.capacity > 0
    requires IsAnswer(Undoing(p, a, b, c), s, Detached, None, [], [CachedResponse(p.encode, Buffer(a, 0), None)])
    ensures s == AnsweredFirst(p, a, b, c)
  {
    var s0 := Undoing(p, a, b, c);
    WriteOnly(Buffer(a, 0), None, map[], p.capacity);
    assert |Written(s0)| == 3;
    assert Attach(s0.hub) == AnsweredFirst(p, a, b, c).hub;
  }

  /** Then the Undo is heard. */
  ghost function Informed(p: Setup, a: Block, b: Block, c: Block): Sys {
    var (ox, oy, o) := (Pushed(Buffer(a, 0), None), Pushed(Buffer(b, 1), None), Undone(Buffer(b, 1)));
    AnsweredFirst(p, a, b, c).(unsent := None, hub := HubState([ox, oy, o], [0, 2], [[ox, oy, o], [o]]))
  }

  lemma InformFirst(p: Setup, before: seq<Action>, a: Block, b: Block, c: Block) returns (actions: seq<Action>)
    requires Reaches(p, before, AnsweredFirst(p, a, b, c))
    ensures Reaches(p, actions, Informed(p, a, b, c))
  {
    var s := AnsweredFirst(p, a, b, c);
    var (ox, oy, o) := (Pushed(Buffer(a, 0), None), Pushed(Buffer(b, 1), None), Undone(Buffer(b, 1)));
    actions := OneStep(p, before, s, Send);
    var s1 := s.(unsent := None, channel := [o]);
    assert Do(p, s, Send) == s1;
    actions := PumpOne(p, actions, s1, o);
    assert [ox, oy] + [o] == [ox, oy, o] && [] + [o] == [o];
    assert Carry(s1.hub, o) == Informed(p, a, b, c).hub;
  }

  /** A request subscribes while a reorg is between cache and broadcast: the block being undone is no longer in its
      snapshot, but the Undo is still to come. The subscriber is sent the Undo of a block it was never sent. */
  lemma UndoOfUnsent(p: Setup, a: Block, b: Block, c: Block) returns (actions: seq<Action>)
    requires p.cfg.Valid() && p.cfg.bufferWindow >= 2 && p.capacity >= 2 && p.start == a.height && Siblings(a, b, c)
    ensures var s := Exec(p, actions); ServedWarm(p, s) && Fold(Delivered(p, s)).None?
  {
    SiblingHeights(a, b, c);
    actions := ReachFirst(p, a, b, c);
    actions := InformFirst(p, actions, a, b, c);
    InformedIsServed(p, a, b, c);
    UndoRefused(p.encode, Buffer(a, 0), Buffer(b, 1));
  }

  lemma InformedIsServed(p: Setup, a: Block, b: Block, c: Block)
    requires p.cfg.Valid() && p.capacity >= 2 && Siblings(a, b, c)
    ensures ServedWarm(p, Informed(p, a, b, c))
  {
    var inputs := Informed(p, a, b, c).history;
    assert WellFormedInput(inputs[0]) && WellFormedInput(inputs[1]) && WellFormedInput(inputs[2]);
  }

  lemma UndoRefused(encode: Encoder, x: BufferedBlock, y: BufferedBlock)
    requires y.height == x.height + 1
    ensures Fold(Shipped(encode, [] + [CachedResponse(encode, x, None)], [Undone(y)])).None?
  {
    var row := CachedResponse(encode, x, None);
    var undo := OutputToResponse(encode, Undone(y));
    LiveTailOne(encode, [], Undone(y), Some(x.height));
    assert [] + [Undone(y)] == [Undone(y)] && [] + [row] == [row];
    assert LiveTail(encode, [Undone(y)], Some(x.height)) == [undo.value];
    FoldSingle(row);
    FoldOne([row], undo.value);
  }
}
