/** Concrete runs and stores: the hypotheses of the main theorems can be met, and where the code leaves a
    gap, the gap happens. */
module Witnesses {
  import opened Types
  import opened EngineSpec
  import opened Heads
  import opened Streams
  import opened Replay
  import opened Finality
  import opened FinalStream
  import opened Cache
  import opened CacheChain
  import opened Archive
  import opened Archiver
  import opened Backfill
  import opened BackfillLaws
  import opened Hub
  import opened Pipeline
  import opened Delivery
  import opened Handoff
  import opened EndToEnd

  // A small run of the engine

  lemma RunGoesOn(cfg: Config, inputs: seq<Input>, input: Input, s: State, s': State, outs: seq<Output>, o: Output,
      inputs': seq<Input>, outs': seq<Output>)
    requires Ran(cfg, inputs, s, outs) && Take(cfg, s, input) == (s', Ok([o]))
    requires inputs' == inputs + [input] && outs' == outs + [o]
    ensures Ran(cfg, inputs', s', outs')
  {
    RunNext(cfg, inputs, input);
  }

  lemma RunOfThree(cfg: Config, i1: Input, i2: Input, i3: Input, s1: State, s2: State, s3: State, o1: Output,
      o2: Output, o3: Output)
    requires Take(cfg, FRESH, i1) == (s1, Ok([o1])) && Take(cfg, s1, i2) == (s2, Ok([o2]))
      && Take(cfg, s2, i3) == (s3, Ok([o3]))
    ensures Ran(cfg, [i1, i2, i3], s3, [o1, o2, o3])
  {
    assert Ran(cfg, [], FRESH, []);
    RunGoesOn(cfg, [], i1, FRESH, s1, [], o1, [i1], [o1]);
    RunGoesOn(cfg, [i1], i2, s1, s2, [o1], o2, [i1, i2], [o1, o2]);
    RunGoesOn(cfg, [i1, i2], i3, s2, s3, [o1, o2], o3, [i1, i2, i3], [o1, o2, o3]);
  }

  function Pushed(b: BufferedBlock, head: Option<Height>): Output {
    New(Emit(StepNew, b, head))
  }

  function OneBlock(b: BufferedBlock, mark: Option<Height>, head: Option<Height>, nextForkId: u32): State {
    State([b], mark, head, [], nextForkId)
  }

  /** The first block of a fresh engine. */
  lemma TakeFirst(cfg: Config, b: Block)
    requires cfg.Valid()
    ensures Take(cfg, FRESH, Deliver(b)) == (OneBlock(Buffer(b, 0), None, None, 1), Ok([Pushed(Buffer(b, 0), None)]))
  {
    assert FRESH.canonical[0..] == [];
    var outs := [Pushed(Buffer(b, 0), None)];
    assert AppendOutputs(FRESH, b, 0) == outs;
    assert Append(FRESH, b, 0) == OneBlock(Buffer(b, 0), None, None, 1);
    assert Settle(Append(FRESH, b, 0)).1 == [] && outs + [] == outs;
    assert Take(cfg, FRESH, Deliver(b)) == Admit(cfg, FRESH, b, 0);
  }

  /** A head that reaches the only buffered block. */
  lemma TakeSolid(cfg: Config, b: BufferedBlock, nextForkId: u32)
    ensures Take(cfg, OneBlock(b, None, None, nextForkId), Solidify(b.height))
      == (OneBlock(b, Some(b.height), Some(b.height), nextForkId), Ok([Finalize(b, b.height)]))
  {
    var s := State([b], None, Some(b.height), [], nextForkId);
    assert [b][1..] == [] && [b][..0] == [];
    assert Finalizing([b], b.height, None) == [b];
    assert Irreversibles([b], b.height) == [] + [Finalize(b, b.height)] == [Finalize(b, b.height)];
    assert Settle(s).1 == [Finalize(b, b.height)] + [] == [Finalize(b, b.height)];
  }

  lemma NothingFires(a: BufferedBlock, b: BufferedBlock, mark: Option<Height>, nextForkId: u32)
    requires mark.Some? ==> a.height <= mark.value < b.height
    ensures Settle(State([a, b], mark, mark, [], nextForkId)) == (State([a, b], mark, mark, [], nextForkId), [])
  {
    var s := State([a, b], mark, mark, [], nextForkId);
    if mark.Some? {
      assert s.canonical[1..] == [b];
      assert Finalizing([b], mark.value, mark) == [];
      assert Finalizing(s.canonical, mark.value, mark) == [];
      assert Irreversibles([], mark.value) + Resolutions([], mark.value) == [];
      assert s.forkHistory[0..] == [] && s.forkHistory[..0] == [];
    }
  }

  /** A child of the only buffered block, above the head. */
  lemma TakeChild(cfg: Config, a: BufferedBlock, b: Block, mark: Option<Height>, nextForkId: u32)
    requires cfg.Valid() && b.blockId != a.blockId && b.parentId == a.blockId
    requires mark.Some? ==> a.height <= mark.value < b.height
    ensures var (s', r) := Take(cfg, OneBlock(a, mark, mark, nextForkId), Deliver(b));
      && r == Ok([Pushed(Buffer(b, nextForkId), mark)])
      && s' == State(Prune(cfg.bufferWindow, [a, Buffer(b, nextForkId)]), mark, mark, [], NextForkId(nextForkId))
  {
    var s := OneBlock(a, mark, mark, nextForkId);
    var nb := Buffer(b, nextForkId);
    assert Ids(s.canonical) == {a.blockId};
    assert s.canonical[1..] == [] && s.canonical[..1] + [nb] == [a, nb];
    assert AppendOutputs(s, b, 1) == [Pushed(nb, mark)];
    assert Append(s, b, 1) == State([a, nb], mark, mark, [], NextForkId(nextForkId));
    NothingFires(a, nb, mark, NextForkId(nextForkId));
    assert [Pushed(nb, mark)] + [] == [Pushed(nb, mark)];
    assert Take(cfg, s, Deliver(b)) == Admit(cfg, s, b, 1);
  }

  /** Two blocks whose ids carry their heights are different when one is the parent of the other. */
  lemma ChildDiffers(a: Block, b: Block)
    requires WellFormedHeader(a.height, a.blockId, a.parentId) && WellFormedHeader(b.height, b.blockId, b.parentId)
    requires b.parentId == a.blockId
    ensures b.blockId != a.blockId && b.height == a.height + 1
  {
  }

  // Pruned before it was final

  lemma EarlyPruneRun(a: Block, b: Block)
    requires b.parentId == a.blockId && b.blockId != a.blockId
    ensures var (x, y) := (Buffer(a, 0), Buffer(b, 1));
      Ran(Config(1, 0), [Deliver(a), Deliver(b), Solidify(b.height)], OneBlock(y, Some(b.height), Some(b.height), 2),
        [Pushed(x, None), Pushed(y, None), Finalize(y, b.height)])
  {
    var cfg := Config(1, 0);
    var (x, y) := (Buffer(a, 0), Buffer(b, 1));
    TakeFirst(cfg, a);
    TakeChild(cfg, x, b, None, 1);
    assert Prune(1, [x, y]) == [y];
    TakeSolid(cfg, y, 2);
    RunOfThree(cfg, Deliver(a), Deliver(b), Solidify(b.height), OneBlock(x, None, None, 1), OneBlock(y, None, None, 2),
      OneBlock(y, Some(b.height), Some(b.height), 2), Pushed(x, None), Pushed(y, None), Finalize(y, b.height));
  }

  /** A run of two linked blocks whose second is final but not the first. */
  lemma SecondFinal(cfg: Config, inputs: seq<Input>, x: BufferedBlock, y: BufferedBlock, s: State, outs: seq<Output>)
    requires cfg.Valid() && WellFormedInputs(inputs) && Ran(cfg, inputs, s, outs)
    requires y.parentId == x.blockId && y.height == x.height + 1 && s.solidifiedHead == Some(y.height)
    requires outs == [Pushed(x, None), Pushed(y, None), Finalize(y, y.height)]
    ensures !NothingLost(cfg, inputs) && Finals(Emissions(cfg, inputs)) == [y] && Consumed(cfg, inputs).chain == [x, y]
    ensures Reached(Consumed(cfg, inputs).chain, After(cfg, inputs).solidifiedHead) == 2
  {
    FeedThree(x, y, None, Finalize(y, y.height), outs);
    FinalsOfThree(outs, y);
    HeadIsGreatest(cfg, inputs);
    IrreversibleStreamCompleteIff(cfg, inputs);
    assert [x, y][..2] == [x, y];
  }

  /** With a window of one block, the block before the tip is pruned before the head reaches it, and its
      Irreversible event never comes: the run's Irreversible stream has a hole. */
  lemma EarlyPruneLosesABlock(a: Block, b: Block) returns (cfg: Config, inputs: seq<Input>)
    requires WellFormedHeader(a.height, a.blockId, a.parentId) && WellFormedHeader(b.height, b.blockId, b.parentId)
    requires b.parentId == a.blockId
    ensures cfg.Valid() && WellFormedInputs(inputs) && !NothingLost(cfg, inputs)
    ensures Finals(Emissions(cfg, inputs)) == [Buffer(b, 1)]
      && Consumed(cfg, inputs).chain == [Buffer(a, 0), Buffer(b, 1)]
    ensures Reached(Consumed(cfg, inputs).chain, After(cfg, inputs).solidifiedHead) == 2
  {
    cfg, inputs := Config(1, 0), [Deliver(a), Deliver(b), Solidify(b.height)];
    var (x, y) := (Buffer(a, 0), Buffer(b, 1));
    ChildDiffers(a, b);
    EarlyPruneRun(a, b);
    assert WellFormedInput(inputs[0]) && WellFormedInput(inputs[1]) && WellFormedInput(inputs[2]);
    SecondFinal(cfg, inputs, x, y, OneBlock(y, Some(b.height), Some(b.height), 2),
      [Pushed(x, None), Pushed(y, None), Finalize(y, b.height)]);
  }

  /** What a consumer makes of two blocks and a finalization of the second. */
  lemma FeedThree(x: BufferedBlock, y: BufferedBlock, head: Option<Height>, last: Output, outs: seq<Output>)
    requires y.parentId == x.blockId && outs == [Pushed(x, head), Pushed(y, head), last]
    requires last.Irreversible? && Framed(last.streamable, StepIrreversible) && last.streamable.block == y
    ensures Feed(START, outs).Some? && Feed(START, outs).value.chain == [x, y]
  {
    assert outs[1..] == [Pushed(y, head), last] && outs[1..][1..] == [last] && [last][1..] == [];
    var c1 := Consumer([x], 0, None);
    var c2 := Consumer([x, y], 0, None);
    assert [] + [x] == [x] && [x] + [y] == [x, y];
    assert Apply(START, Pushed(x, head)) == Some(c1);
    assert Apply(c1, Pushed(y, head)) == Some(c2);
    assert Tip([x, y]) == y && EndOf([x, y], y) == 2;
    assert Apply(c2, last) == Some(Consumer([x, y], 2, Some(y.height)));
    assert Feed(c2, [last]) == Feed(Consumer([x, y], 2, Some(y.height)), []);
    assert Feed(c1, outs[1..]) == Feed(c2, [last]);
  }

  lemma FinalsOfThree(outs: seq<Output>, y: BufferedBlock)
    requires |outs| == 3 && outs[0].New? && outs[1].New? && outs[2].Irreversible? && outs[2].streamable.block == y
    ensures Finals(outs) == [y]
  {
    PickOne(outs[0], AsIrreversible);
    PickLast(outs[..2], [outs[0]], outs[1], AsIrreversible);
    PickLast(outs, outs[..2], outs[2], AsIrreversible);
  }

  // One stored row

  lemma OneKey(row: Row, lo: Height, hi: Height)
    requires lo <= row.height <= hi
    ensures ScanKeys(map[row.height := PackValue(row.blockId, row.payload)], lo, hi, ARCHIVE_WALK_LIMIT) == [row.height]
  {
    var table: Table := map[row.height := PackValue(row.blockId, row.payload)];
    ScanKeysExact(table, lo, hi, ARCHIVE_WALK_LIMIT);
    assert KeysIn(table, lo, hi) == {row.height};
    var keys := ScanKeys(table, lo, hi, ARCHIVE_WALK_LIMIT);
    assert |keys| == 1 && keys[0] in KeysIn(table, lo, hi);
  }

  lemma OneUnpacked(row: Row, table: Table)
    requires row.height in table && table[row.height] == PackValue(row.blockId, row.payload)
    ensures Stored(table, [row.height]) && UnpackAll(table, [row.height]) == Ok([row])
  {
    PackRoundTrip(row.height, row.blockId, row.payload, []);
    assert [row.height][..0] == [];
    assert UnpackAll(table, []) == Ok([]) && [] + [row] == [row];
  }

  lemma OneProjected(decode: Decoder, row: Row)
    requires decode(row.payload).Some?
    ensures Projected(decode, [row]) == [RowResponse(row, decode(row.payload).value)]
  {
    assert [row][..0] == [];
    assert [] + [RowResponse(row, decode(row.payload).value)] == [RowResponse(row, decode(row.payload).value)];
  }

  lemma OneRow(decode: Decoder, row: Row, lo: Height, hi: Height)
    requires lo <= row.height <= hi && decode(row.payload).Some?
    ensures ArchiveWalked(decode, map[row.height := PackValue(row.blockId, row.payload)], lo, hi)
      == Ok([RowResponse(row, decode(row.payload).value)])
  {
    OneKey(row, lo, hi);
    OneUnpacked(row, map[row.height := PackValue(row.blockId, row.payload)]);
    OneProjected(decode, row);
  }

  /** A hole below the cache is served: an archive that holds only the height just below the cache answers a
      request from one height further down. */
  lemma HoleIsServed(encode: Encoder, decode: Decoder, b: BufferedBlock, id: BlockId, payload: seq<byte>)
    requires b.height >= 2 && decode(payload).Some?
    ensures var table: Table := map[b.height - 1 := PackValue(id, payload)];
      var staged := Staged(encode, decode, Some(table), Some((b.height, b.height)), map[b.height := (b.blockId, b)],
        b.height - 2, None);
      staged.Ok? && Nums(staged.value) == [b.height - 1, b.height] && !Consecutive(Nums(staged.value), b.height - 2)
  {
    var row := Row(b.height - 1, id, payload);
    var table: Table := map[b.height - 1 := PackValue(id, payload)];
    HoleStaged(encode, decode, b, row, table);
    assert Nums([RowResponse(row, decode(payload).value), CachedResponse(encode, b, None)])[0] == b.height - 1;
  }

  lemma HoleStaged(encode: Encoder, decode: Decoder, b: BufferedBlock, row: Row, table: Table)
    requires b.height >= 2 && row.height == b.height - 1 && decode(row.payload).Some?
    requires table == map[row.height := PackValue(row.blockId, row.payload)]
    ensures Staged(encode, decode, Some(table), Some((b.height, b.height)), map[b.height := (b.blockId, b)],
      b.height - 2, None)
      == Ok([RowResponse(row, decode(row.payload).value), CachedResponse(encode, b, None)])
  {
    var archived := [RowResponse(row, decode(row.payload).value)];
    OneRow(decode, row, b.height - 2, b.height - 1);
    OneCached(encode, b, archived, b.height - 2, None);
    assert archived + [CachedResponse(encode, b, None)]
      == [RowResponse(row, decode(row.payload).value), CachedResponse(encode, b, None)];
  }

  /** The cache stage over a cache of one block. */
  lemma OneCached(encode: Encoder, b: BufferedBlock, archived: seq<Response>, h: Height, head: Option<Height>)
    requires ResumePoint(archived, h) == b.height
    ensures CacheStage(encode, Some((b.height, b.height)), map[b.height := (b.blockId, b)], archived, h, head)
      == Ok([CachedResponse(encode, b, head)])
  {
    var m: Cached := map[b.height := (b.blockId, b)];
    assert CacheWalked(m, b.height + 1, b.height) == Ok([]);
    assert [b] + [] == [b];
    assert CacheWalked(m, b.height, b.height) == Ok([b]);
    assert CachedResponses(encode, [b], head) == [CachedResponse(encode, b, head)];
  }

  // Runs of the whole pipeline

  ghost predicate Reaches(p: Setup, actions: seq<Action>, s: Sys) {
    Exec(p, actions) == s
  }

  lemma OneStep(p: Setup, actions: seq<Action>, s: Sys, a: Action) returns (actions': seq<Action>)
    requires Reaches(p, actions, s)
    ensures Reaches(p, actions', Do(p, s, a))
  {
    actions' := actions + [a];
    assert actions'[..|actions'| - 1] == actions;
  }

  /** The relayer after a call with one event, its cache write and its send. */
  ghost function Published(p: Setup, s: Sys, input: Input, o: Output): Sys {
    s.(engine := Take(p.cfg, s.engine, input).0, history := s.history + [input],
      cache := Write(p.capacity, s.cache, o), channel := s.channel + [o])
  }

  lemma PublishSteps(p: Setup, s: Sys, input: Input, o: Output)
    requires s.pending == [] && s.unsent.None? && Take(p.cfg, s.engine, input).1 == Ok([o])
    ensures Do(p, Do(p, Do(p, s, Call(input)), WriteCache), Send) == Published(p, s, input, o)
  {
    var s1 := Do(p, s, Call(input));
    assert s1.pending == [o] && [o][1..] == [];
    var s2 := Do(p, s1, WriteCache);
    assert s2.unsent == Some(o) && s2.pending == [];
  }

  lemma Publish(p: Setup, actions: seq<Action>, s: Sys, input: Input, o: Output) returns (actions': seq<Action>)
    requires Reaches(p, actions, s) && s.pending == [] && s.unsent.None? && Take(p.cfg, s.engine, input).1 == Ok([o])
    ensures Reaches(p, actions', Published(p, s, input, o))
  {
    actions' := OneStep(p, actions, s, Call(input));
    actions' := OneStep(p, actions', Do(p, s, Call(input)), WriteCache);
    actions' := OneStep(p, actions', Do(p, Do(p, s, Call(input)), WriteCache), Send);
    PublishSteps(p, s, input, o);
  }

  /** A block into an empty cache, or as the highest into a cache for one block. */
  lemma WriteOnly(b: BufferedBlock, head: Option<Height>, m: Cached, capacity: nat)
    requires m == map[] ||
      (capacity == 1 && exists a: BufferedBlock :: m == map[a.height := (a.blockId, a)] && a.height < b.height)
    requires capacity > 0
    ensures Write(capacity, m, Pushed(b, head)) == map[b.height := (b.blockId, b)]
    ensures WindowOf(map[b.height := (b.blockId, b)]) == Some((b.height, b.height))
  {
    var m' := Updated(m, b.height, b.blockId, b);
    assert forall k :: k in m' ==> k <= b.height;
    assert KeysAbove(m', b.height) == {};
    forall k | k in m' && k != b.height ensures b.height in KeysAbove(m', k) {
    }
    assert forall k :: k in m' && k != b.height ==> KeysAbove(m', k) == {b.height};
    var one: Cached := map[b.height := (b.blockId, b)];
    assert b.height in one.Keys;
    var (mn, mx) := WindowOf(one).value;
    assert IsLeast(one.Keys, mn) && IsGreatest(one.Keys, mx);
  }

  lemma PumpOne(p: Setup, actions: seq<Action>, s: Sys, o: Output) returns (actions': seq<Action>)
    requires Reaches(p, actions, s) && s.channel == [o]
    ensures Reaches(p, actions', s.(channel := [], hub := Carry(s.hub, o)))
  {
    actions' := OneStep(p, actions, s, Pump);
    assert [o][1..] == [];
  }

  /** What a request has been answered with, while nothing else moved. */
  ghost predicate IsAnswer(s: Sys, s': Sys, source: ArchiveSource, head: Option<Height>, archived: seq<Response>,
      cached: seq<Response>)
  {
    var n := |Written(s)|;
    && s' == s.(hub := Attach(s.hub), phase := s'.phase)
    && s'.phase == Serving(Seat(|s.hub.joined|, |s.hub.history|), WindowOf(s.cache), n,
        Reading(source, |s.events|, Opened(source, s.table)), archived, n, head, cached)
  }

  lemma ReadStep(p: Setup, s: Sys, source: ArchiveSource, archived: seq<Response>)
    requires s.phase.Snapshotted?
    requires ArchiveStage(p.decode, Opened(source, s.table), s.phase.window, p.start) == Ok(archived)
    ensures Do(p, s, ReadArchive(source))
      == s.(phase := ArchiveRead(s.phase.seat, s.phase.window, s.phase.snapAt, ReadingOf(s, source), archived))
  {
  }

  lemma WalkStep(p: Setup, s: Sys, head: Option<Height>, cached: seq<Response>)
    requires s.phase.ArchiveRead?
    requires CacheStage(p.encode, s.phase.window, s.cache, s.phase.archived, p.start, head) == Ok(cached)
    ensures Do(p, s, WalkCache(head)) == s.(phase :=
      Serving(s.phase.seat, s.phase.window, s.phase.snapAt, s.phase.reading, s.phase.archived, |Written(s)|, head,
        cached))
  {
  }

  lemma SnapSteps(p: Setup, s: Sys)
    requires s.phase.Idle?
    ensures Do(p, Do(p, s, Subscribe), Snapshot) == s.(hub := Attach(s.hub),
      phase := Snapshotted(Seat(|s.hub.joined|, |s.hub.history|), WindowOf(s.cache), |Written(s)|))
  {
  }

  /** A request comes and is answered before anything else happens. */
  lemma ServeNow(p: Setup, before: seq<Action>, s: Sys, source: ArchiveSource, head: Option<Height>,
      archived: seq<Response>, cached: seq<Response>) returns (actions: seq<Action>, s': Sys)
    requires Reaches(p, before, s) && s.phase.Idle?
    requires ArchiveStage(p.decode, Opened(source, s.table), WindowOf(s.cache), p.start) == Ok(archived)
    requires CacheStage(p.encode, WindowOf(s.cache), s.cache, archived, p.start, head) == Ok(cached)
    ensures Reaches(p, actions, s') && IsAnswer(s, s', source, head, archived, cached)
  {
    actions := OneStep(p, before, s, Subscribe);
    actions := OneStep(p, actions, Do(p, s, Subscribe), Snapshot);
    SnapSteps(p, s);
    var s1 := Do(p, Do(p, s, Subscribe), Snapshot);
    actions := OneStep(p, actions, s1, ReadArchive(source));
    ReadStep(p, s1, source, archived);
    var s2 := Do(p, s1, ReadArchive(source));
    actions := OneStep(p, actions, s2, WalkCache(head));
    WalkStep(p, s2, head, cached);
    s' := Do(p, s2, WalkCache(head));
  }

  // A gap after an archive that was read with nothing cached

  /** Nothing is cached, the archive holds one row, and the first block comes later, more than one above it. */
  lemma ColdRunHasGap(p: Setup, row: Row, b: Block) returns (actions: seq<Action>)
    requires p.cfg.Valid() && p.capacity > 0 && p.start == row.height && p.decode(row.payload).Some?
    requires WellFormedHeader(b.height, b.blockId, b.parentId) && row.height + 1 < b.height
    ensures var s := Exec(p, actions);
      && ServedCold(p, s)
      && NewNames(Delivered(p, s)) == [(row.height, row.blockId), (b.height, b.blockId)]
      && !FreeOfGaps(Delivered(p, s), p.start)
  {
    var table: Table := map[row.height := PackValue(row.blockId, row.payload)];
    var (nb, o) := (Buffer(b, 0), Pushed(Buffer(b, 0), None));
    var s := ColdServed(p, row, table);
    actions := ColdServing(p, row, table);
    TakeFirst(p.cfg, b);
    actions := Publish(p, actions, s, Deliver(b), o);
    var s1 := Published(p, s, Deliver(b), o);
    actions := PumpOne(p, actions, s1, o);
    var s2 := s1.(channel := [], hub := Carry(s1.hub, o));
    assert s2.hub == HubState([o], [0, 0], [[o], [o]]) && s2.hub.history[0..] == [o];
    ColdDelivery(p, row, o, nb, s2);
  }

  /** Served from one archived row before the relayer has delivered anything. */
  function ColdServed(p: Setup, row: Row, table: Table): Sys
    requires p.decode(row.payload).Some?
  {
    INITIAL.(hub := HubState([], [0, 0], [[], []]),
      phase := Serving(Seat(1, 0), None, 0, Reading(Foreign(table), 0, Some(table)),
        [RowResponse(row, p.decode(row.payload).value)], 0, None, []))
  }

  lemma ColdStage(p: Setup, row: Row, table: Table)
    requires p.start == row.height && p.decode(row.payload).Some?
    requires table == map[row.height := PackValue(row.blockId, row.payload)]
    ensures ArchiveStage(p.decode, Some(table), None, p.start) == Ok([RowResponse(row, p.decode(row.payload).value)])
  {
    assert row.height in table.Keys;
    assert TopOf(table) == Some(row.height);
    OneRow(p.decode, row, row.height, row.height);
  }

  lemma ColdServing(p: Setup, row: Row, table: Table) returns (actions: seq<Action>)
    requires p.start == row.height && p.decode(row.payload).Some?
    requires table == map[row.height := PackValue(row.blockId, row.payload)]
    ensures Reaches(p, actions, ColdServed(p, row, table))
  {
    var s: Sys;
    ColdStage(p, row, table);
    assert WindowOf(INITIAL.cache) == None;
    assert Reaches(p, [], INITIAL);
    actions, s := ServeNow(p, [], INITIAL, Foreign(table), None, [RowResponse(row, p.decode(row.payload).value)], []);
    assert s == ColdServed(p, row, table);
  }

  lemma ColdDelivery(p: Setup, row: Row, o: Output, b: BufferedBlock, s: Sys)
    requires p.decode(row.payload).Some? && o == Pushed(b, None) && row.height + 1 < b.height && p.start == row.height
    requires s.phase.Serving? && s.phase.archived == [RowResponse(row, p.decode(row.payload).value)]
      && s.phase.cached == []
    requires Heard(s.hub, s.phase.seat) == [o]
    ensures NewNames(Delivered(p, s)) == [(row.height, row.blockId), (b.height, b.blockId)]
    ensures !FreeOfGaps(Delivered(p, s), p.start)
  {
    var archived := s.phase.archived;
    var live := LiveTail(p.encode, [o], Some(row.height));
    LiveTailOne(p.encode, [], o, Some(row.height));
    PassedNames(p.encode, o, Some(row.height));
    assert [] + [o] == [o] && archived + s.phase.cached == archived;
    assert [] + Passed(OutputToResponse(p.encode, o), Some(row.height))
      == Passed(OutputToResponse(p.encode, o), Some(row.height));
    NewNamesAppend(archived, live);
    NamesOfNews(archived);
    assert NewNames(archived) == [(row.height, row.blockId)];
    assert NewNames(Delivered(p, s))[1].0 == b.height;
  }

  // A block below the start, sent to a request that starts right above the cache

  /** One block cached but not yet sent on, and a request that was answered with nothing. */
  function AnsweredEmpty(b: Block): Sys {
    var (x, o) := (Buffer(b, 0), Pushed(Buffer(b, 0), None));
    Sys(OneBlock(x, None, None, 1), [], Some(o), [], map[b.height := (b.blockId, x)], HubState([], [0, 0], [[], []]),
      [], map[], Serving(Seat(1, 0), Some((b.height, b.height)), 1, Reading(Detached, 0, None), [], 1, None, []),
      [Deliver(b)])
  }

  /** The block cached, before the request comes. */
  function CachedOnly(b: Block): Sys {
    AnsweredEmpty(b).(hub := INITIAL.hub, phase := Idle)
  }

  lemma CacheOnly(p: Setup, b: Block)
    requires p.cfg.Valid() && p.capacity > 0
    ensures Do(p, Do(p, INITIAL, Call(Deliver(b))), WriteCache) == CachedOnly(b)
  {
    var (x, o) := (Buffer(b, 0), Pushed(Buffer(b, 0), None));
    TakeFirst(p.cfg, b);
    WriteOnly(x, None, map[], p.capacity);
    var s1 := Do(p, INITIAL, Call(Deliver(b)));
    assert s1 == INITIAL.(engine := OneBlock(x, None, None, 1), pending := [o], history := [Deliver(b)]);
    assert [o][1..] == [];
  }

  lemma ReachEmpty(p: Setup, b: Block) returns (actions: seq<Action>)
    requires p.cfg.Valid() && p.capacity > 0 && p.start == b.height + 1
    ensures Reaches(p, actions, AnsweredEmpty(b))
  {
    var s: Sys;
    actions := OneStep(p, [], INITIAL, Call(Deliver(b)));
    actions := OneStep(p, actions, Do(p, INITIAL, Call(Deliver(b))), WriteCache);
    CacheOnly(p, b);
    NoneCached(p, b);
    actions, s := ServeNow(p, actions, CachedOnly(b), Detached, None, [], []);
    assert |Written(CachedOnly(b))| == 1;
    assert s == AnsweredEmpty(b);
  }

  lemma NoneCached(p: Setup, b: Block)
    requires p.capacity > 0 && p.start == b.height + 1
    ensures var m := CachedOnly(b).cache;
      && WindowOf(m) == Some((b.height, b.height))
      && CacheStage(p.encode, WindowOf(m), m, [], p.start, None) == Ok([])
  {
    WriteOnly(Buffer(b, 0), None, map[], p.capacity);
    assert CachedResponses(p.encode, [], None) == [];
  }

  /** A block was cached but not yet broadcast when a request for the next height subscribed. The request is
      served without a row, and then sent that block, below its start. */
  lemma TipRunSendsBelowStart(p: Setup, b: Block) returns (actions: seq<Action>)
    requires p.cfg.Valid() && p.capacity > 0 && p.start == b.height + 1
    requires WellFormedHeader(b.height, b.blockId, b.parentId)
    ensures var s := Exec(p, actions);
      && ServedAtTip(p, s)
      && NewNames(Delivered(p, s)) == [(b.height, b.blockId)]
      && !FreeOfGaps(Delivered(p, s), p.start)
  {
    var (s, o) := (AnsweredEmpty(b), Pushed(Buffer(b, 0), None));
    actions := ReachEmpty(p, b);
    actions := OneStep(p, actions, s, Send);
    var s1 := s.(channel := [o], unsent := None);
    assert Do(p, s, Send) == s1;
    actions := PumpOne(p, actions, s1, o);
    var s2 := s1.(channel := [], hub := HubState([o], [0, 0], [[o], [o]]));
    assert Carry(s1.hub, o) == s2.hub;
    TipDelivery(p, b, o, s2);
  }

  lemma TipDelivery(p: Setup, b: Block, o: Output, s: Sys)
    requires p.cfg.Valid() && p.capacity > 0 && p.start == b.height + 1 && o == Pushed(Buffer(b, 0), None)
    requires WellFormedHeader(b.height, b.blockId, b.parentId)
    requires s == AnsweredEmpty(b).(channel := [], unsent := None, hub := HubState([o], [0, 0], [[o], [o]]))
    ensures ServedAtTip(p, s)
    ensures NewNames(Delivered(p, s)) == [(b.height, b.blockId)] && !FreeOfGaps(Delivered(p, s), p.start)
  {
    assert WellFormedInput(s.history[0]);
    assert Written(s) == [o] && Witnessed(s) == [o] && [o][0..] == [o];
    LoneNew(p.encode, Buffer(b, 0), o);
    assert NewNames(Delivered(p, s))[0].0 == b.height;
  }

  lemma LoneNew(encode: Encoder, b: BufferedBlock, o: Output)
    requires o == Pushed(b, None)
    ensures NewNames(Shipped(encode, [] + [], [o])) == [(b.height, b.blockId)]
  {
    EmptyBackfill(encode, [o]);
    LiveTailOne(encode, [], o, None);
    PassedNames(encode, o, None);
    assert [] + [o] == [o];
    assert [] + Passed(OutputToResponse(encode, o), None) == Passed(OutputToResponse(encode, o), None);
  }

  // A request served from the relayer's own archive, the cache and the queue

  /** The relayer after one block was finalized and archived. */
  function Archiving(p: Setup, a: Block): Sys {
    var x := Buffer(a, 0);
    var (first, final) := (Pushed(x, None), Finalize(x, a.height));
    Sys(OneBlock(x, Some(a.height), Some(a.height), 1), [], None, [], map[a.height := (a.blockId, x)],
      HubState([first, final], [0], [[first, final]]), [Received(first), Received(final)],
      map[a.height := PackValue(a.blockId, p.encode(x, final.streamable.finality))], Idle,
      [Deliver(a), Solidify(a.height)])
  }

  /** The relayer after one block, broadcast. */
  function OneBroadcast(a: Block): Sys {
    var x := Buffer(a, 0);
    var first := Pushed(x, None);
    Sys(OneBlock(x, None, None, 1), [], None, [], map[a.height := (a.blockId, x)], HubState([first], [0], [[first]]),
      [], map[], Idle, [Deliver(a)])
  }

  lemma ReachBroadcast(p: Setup, a: Block) returns (actions: seq<Action>)
    requires p.cfg.Valid() && p.capacity > 0
    ensures Reaches(p, actions, OneBroadcast(a))
  {
    var x := Buffer(a, 0);
    TakeFirst(p.cfg, a);
    WriteOnly(x, None, map[], p.capacity);
    assert Reaches(p, [], INITIAL);
    actions := Publish(p, [], INITIAL, Deliver(a), Pushed(x, None));
    actions := PumpOne(p, actions, Published(p, INITIAL, Deliver(a), Pushed(x, None)), Pushed(x, None));
    assert Carry(INITIAL.hub, Pushed(x, None)) == OneBroadcast(a).hub;
  }

  /** Then its finalization, broadcast but not yet taken by the archiver. */
  function TwoBroadcast(a: Block): Sys {
    var x := Buffer(a, 0);
    var (first, final) := (Pushed(x, None), Finalize(x, a.height));
    OneBroadcast(a).(engine := OneBlock(x, Some(a.height), Some(a.height), 1),
      hub := HubState([first, final], [0], [[first, final]]), history := [Deliver(a), Solidify(a.height)])
  }

  lemma CarryOnce(first: Output, o: Output)
    ensures Carry(HubState([first], [0], [[first]]), o) == HubState([first, o], [0], [[first, o]])
  {
    assert [first] + [o] == [first, o];
  }

  lemma SecondBroadcast(p: Setup, a: Block, s': Sys)
    requires var (s, final) := (OneBroadcast(a), Finalize(Buffer(a, 0), a.height));
      s' == Published(p, s, Solidify(a.height), final).(channel := [], hub := Carry(s.hub, final))
    ensures s' == TwoBroadcast(a)
  {
    var x := Buffer(a, 0);
    TakeSolid(p.cfg, x, 1);
    CarryOnce(Pushed(x, None), Finalize(x, a.height));
    assert s'.engine == TwoBroadcast(a).engine && s'.cache == TwoBroadcast(a).cache;
  }

  lemma PublishFinal(p: Setup, before: seq<Action>, a: Block) returns (actions: seq<Action>)
    requires Reaches(p, before, OneBroadcast(a))
    ensures Reaches(p, actions, Published(p, OneBroadcast(a), Solidify(a.height), Finalize(Buffer(a, 0), a.height)))
  {
    TakeSolid(p.cfg, Buffer(a, 0), 1);
    actions := Publish(p, before, OneBroadcast(a), Solidify(a.height), Finalize(Buffer(a, 0), a.height));
  }

  lemma ReachTwo(p: Setup, a: Block) returns (actions: seq<Action>)
    requires p.cfg.Valid() && p.capacity > 0
    ensures Reaches(p, actions, TwoBroadcast(a))
  {
    var final := Finalize(Buffer(a, 0), a.height);
    var s1 := Published(p, OneBroadcast(a), Solidify(a.height), final);
    actions := ReachBroadcast(p, a);
    actions := PublishFinal(p, actions, a);
    actions := PumpOne(p, actions, s1, final);
    SecondBroadcast(p, a, s1.(channel := [], hub := Carry(s1.hub, final)));
  }

  lemma StoreBoth(p: Setup, a: Block)
    ensures Do(p, Do(p, TwoBroadcast(a), Store), Store) == Archiving(p, a)
  {
    var (first, final) := (Pushed(Buffer(a, 0), None), Finalize(Buffer(a, 0), a.height));
    var s := TwoBroadcast(a);
    assert Waiting(s) == Some(first);
    var s1 := s.(events := [Received(first)]);
    assert Do(p, s, Store) == s1;
    assert [Received(first)][..0] == [] && OutputsOf([Received(first)]) == [first];
    assert Waiting(s1) == Some(final);
  }

  lemma ReachArchiving(p: Setup, a: Block) returns (actions: seq<Action>)
    requires p.cfg.Valid() && p.capacity > 0
    ensures Reaches(p, actions, Archiving(p, a))
  {
    actions := ReachTwo(p, a);
    actions := OneStep(p, actions, TwoBroadcast(a), Store);
    actions := OneStep(p, actions, Do(p, TwoBroadcast(a), Store), Store);
    StoreBoth(p, a);
  }

  /** For every pair of linked well-formed blocks there is a run in which a request gets its first block from
      the table this relayer's archiver keeps, the next from the cache, and hears the latter again, still
      queued when it subscribed; and nothing was pruned too early. */
  lemma ServedIsReachable(p: Setup, a: Block, b: Block) returns (actions: seq<Action>)
    requires p.cfg.Valid() && p.capacity == 1 && p.start == a.height && Readable(p)
    requires WellFormedHeader(a.height, a.blockId, a.parentId) && WellFormedHeader(b.height, b.blockId, b.parentId)
    requires b.parentId == a.blockId
    ensures var s := Exec(p, actions);
      && Served(p, s) && s.phase.reading.source.Own? && NothingLost(p.cfg, s.history)
      && |s.phase.archived| == 1 && |s.phase.cached| == 1
      && Heard(s.hub, s.phase.seat) == [Pushed(Buffer(b, 1), Some(a.height))]
  {
    var (x, y) := (Buffer(a, 0), Buffer(b, 1));
    var o := Pushed(y, Some(a.height));
    ChildDiffers(a, b);
    actions := ReachArchiving(p, a);
    TakeChild(p.cfg, x, b, Some(a.height), 1);
    actions := Publish(p, actions, Archiving(p, a), Deliver(b), o);
    var s := Published(p, Archiving(p, a), Deliver(b), o);
    ReadyNow(p, a, b, s);
    actions := Serve(p, actions, s, a, y, o);
    ServedRunLosesNothing(p.cfg, a, b, s.history);
  }

  lemma ReadyNow(p: Setup, a: Block, b: Block, s: Sys)
    requires p.capacity == 1 && b.height == a.height + 1
    requires WellFormedHeader(a.height, a.blockId, a.parentId) && WellFormedHeader(b.height, b.blockId, b.parentId)
    requires s == Published(p, Archiving(p, a), Deliver(b), Pushed(Buffer(b, 1), Some(a.height)))
    ensures Ready(p, s, a, Buffer(b, 1), Pushed(Buffer(b, 1), Some(a.height)))
      && s.history == [Deliver(a), Solidify(a.height), Deliver(b)]
  {
    var x := Buffer(a, 0);
    WriteOnly(Buffer(b, 1), Some(a.height), map[x.height := (x.blockId, x)], 1);
    assert s.history == [Deliver(a), Solidify(a.height), Deliver(b)];
    assert WellFormedInput(s.history[0]) && WellFormedInput(s.history[1]) && WellFormedInput(s.history[2]);
  }

  /** Before the request comes: one row archived, one block cached and its event still queued. */
  ghost predicate Ready(p: Setup, s: Sys, a: Block, y: BufferedBlock, o: Output) {
    && s.hub == Archiving(p, a).hub && s.table == Archiving(p, a).table && s.phase.Idle? && WellFormedInputs(s.history)
    && s.unsent.None? && s.channel == [o] && s.cache == map[y.height := (y.blockId, y)]
    && y.height == a.height + 1 && o == Pushed(y, Some(a.height))
  }

  /** The same with the request served and the event heard. */
  function Answered(p: Setup, s: Sys, a: Block, y: BufferedBlock, o: Output, row: Response, reading: Reading): Sys {
    var (first, final) := (Pushed(Buffer(a, 0), None), Finalize(Buffer(a, 0), a.height));
    s.(channel := [], hub := HubState([first, final, o], [0, 2], [[first, final, o], [o]]),
      phase := Serving(Seat(1, 2), Some((y.height, y.height)), 3, reading, [row], 3, Some(a.height),
        [CachedResponse(p.encode, y, Some(a.height))]))
  }

  lemma HeardLast(p: Setup, s: Sys, a: Block, y: BufferedBlock, o: Output, row: Response, reading: Reading)
    requires Ready(p, s, a, y, o)
    ensures Carry(Attach(s.hub), o) == Answered(p, s, a, y, o, row, reading).hub
  {
    var (first, final) := (Pushed(Buffer(a, 0), None), Finalize(Buffer(a, 0), a.height));
    assert Attach(s.hub) == HubState([first, final], [0, 2], [[first, final], []]);
    assert [first, final] + [o] == [first, final, o] && [] + [o] == [o];
  }

  lemma AnsweredIsServed(p: Setup, s: Sys, a: Block, y: BufferedBlock, o: Output, row: Response, reading: Reading)
    requires p.cfg.Valid() && p.capacity == 1 && Ready(p, s, a, y, o)
    ensures Served(p, Answered(p, s, a, y, o, row, reading))
  {
    var s' := Answered(p, s, a, y, o, row, reading);
    var history := s'.hub.history;
    assert Written(s') == history && |history| == 3;
    assert Witnessed(s') == history && history[2..] == [o];
  }

  /** Subscribe, snapshot, walk and hear one event, against a cache of one block above one archived row. */
  lemma Serve(p: Setup, before: seq<Action>, s: Sys, a: Block, y: BufferedBlock, o: Output)
      returns (actions: seq<Action>)
    requires p.cfg.Valid() && p.capacity == 1 && p.start == a.height && Readable(p)
    requires Reaches(p, before, s) && Ready(p, s, a, y, o)
    ensures var s' := Exec(p, actions);
      && Served(p, s') && s'.phase.reading.source.Own? && s'.history == s.history
      && |s'.phase.archived| == 1 && |s'.phase.cached| == 1 && Heard(s'.hub, s'.phase.seat) == [o]
  {
    var row := OneStage(p, a, y, s.table);
    var s1: Sys;
    WriteOnly(y, None, map[], 1);
    actions, s1 := ServeNow(p, before, s, Own, Some(a.height), [row], [CachedResponse(p.encode, y, Some(a.height))]);
    var reading := s1.phase.reading;
    assert |Written(s)| == 3;
    actions := PumpOne(p, actions, s1, o);
    HeardLast(p, s, a, y, o, row, reading);
    assert Reaches(p, actions, Answered(p, s, a, y, o, row, reading));
    AnsweredIsServed(p, s, a, y, o, row, reading);
  }

  lemma OneStage(p: Setup, a: Block, y: BufferedBlock, table: Table) returns (response: Response)
    requires p.start == a.height && Readable(p) && y.height == a.height + 1 && table == Archiving(p, a).table
    ensures ArchiveStage(p.decode, Some(table), Some((y.height, y.height)), p.start) == Ok([response])
    ensures CacheStage(p.encode, Some((y.height, y.height)), map[y.height := (y.blockId, y)], [response], p.start,
      Some(a.height))
      == Ok([CachedResponse(p.encode, y, Some(a.height))])
  {
    var row := Row(a.height, a.blockId, p.encode(Buffer(a, 0), Finalize(Buffer(a, 0), a.height).streamable.finality));
    OneRow(p.decode, row, a.height, a.height);
    response := RowResponse(row, p.decode(row.payload).value);
    OneCached(p.encode, y, [response], a.height, Some(a.height));
  }

  lemma ServedRun(cfg: Config, a: Block, b: Block)
    requires cfg.Valid() && b.parentId == a.blockId && b.blockId != a.blockId && b.height == a.height + 1
    ensures var (x, y, h) := (Buffer(a, 0), Buffer(b, 1), Some(a.height));
      Ran(cfg, [Deliver(a), Solidify(a.height), Deliver(b)], State(Prune(cfg.bufferWindow, [x, y]), h, h, [], 2),
        [Pushed(x, None), Finalize(x, a.height), Pushed(y, h)])
  {
    var (x, y, h) := (Buffer(a, 0), Buffer(b, 1), Some(a.height));
    TakeFirst(cfg, a);
    TakeSolid(cfg, x, 1);
    TakeChild(cfg, x, b, h, 1);
    RunOfThree(cfg, Deliver(a), Solidify(a.height), Deliver(b), OneBlock(x, None, None, 1), OneBlock(x, h, h, 1),
      State(Prune(cfg.bufferWindow, [x, y]), h, h, [], 2), Pushed(x, None), Finalize(x, a.height), Pushed(y, h));
  }

  /** A run of two linked blocks whose first is final but not the second. */
  lemma FirstFinal(cfg: Config, inputs: seq<Input>, x: BufferedBlock, y: BufferedBlock, s: State, outs: seq<Output>)
    requires cfg.Valid() && WellFormedInputs(inputs) && Ran(cfg, inputs, s, outs)
    requires y.parentId == x.blockId && y.height == x.height + 1 && s.solidifiedHead == Some(x.height)
    requires outs == [Pushed(x, None), Finalize(x, x.height), Pushed(y, Some(x.height))]
    ensures NothingLost(cfg, inputs)
  {
    FeedMiddle(x, y, x.height, outs);
    HeadIsGreatest(cfg, inputs);
    IrreversibleStreamCompleteIff(cfg, inputs);
    assert [x, y][..1] == [x];
  }

  lemma ServedRunLosesNothing(cfg: Config, a: Block, b: Block, inputs: seq<Input>)
    requires cfg.Valid() && inputs == [Deliver(a), Solidify(a.height), Deliver(b)] && WellFormedInputs(inputs)
    requires b.parentId == a.blockId && b.blockId != a.blockId && b.height == a.height + 1
    ensures NothingLost(cfg, inputs)
  {
    var (x, y, h) := (Buffer(a, 0), Buffer(b, 1), Some(a.height));
    ServedRun(cfg, a, b);
    FirstFinal(cfg, inputs, x, y, State(Prune(cfg.bufferWindow, [x, y]), h, h, [], 2),
      [Pushed(x, None), Finalize(x, a.height), Pushed(y, h)]);
  }

  lemma FeedMiddle(x: BufferedBlock, y: BufferedBlock, head: Height, outs: seq<Output>)
    requires y.parentId == x.blockId && outs == [Pushed(x, None), Finalize(x, head), Pushed(y, Some(head))]
    ensures Feed(START, outs).Some? && Feed(START, outs).value.chain == [x, y] && Finals(outs) == [x]
  {
    var last := Pushed(y, Some(head));
    assert outs[1..] == [Finalize(x, head), last] && outs[1..][1..] == [last] && [last][1..] == [];
    var c1 := Consumer([x], 0, None);
    var c2 := Consumer([x], 1, Some(x.height));
    assert [] + [x] == [x] && [x] + [y] == [x, y];
    assert Tip([x]) == x && EndOf([x], x) == 1;
    assert Apply(START, Pushed(x, None)) == Some(c1) && Apply(c1, Finalize(x, head)) == Some(c2);
    assert Apply(c2, last) == Some(Consumer([x, y], 1, Some(x.height)));
    assert Feed(c2, [last]) == Feed(Consumer([x, y], 1, Some(x.height)), []);
    assert Feed(c1, outs[1..]) == Feed(c2, [last]);
    assert Feed(START, outs) == Feed(c1, outs[1..]);
    MiddleFinal(outs, x);
  }

  lemma MiddleFinal(outs: seq<Output>, x: BufferedBlock)
    requires |outs| == 3 && outs[0].New? && outs[1].Irreversible? && outs[1].streamable.block == x && outs[2].New?
    ensures Finals(outs) == [x]
  {
    PickOne(outs[0], AsIrreversible);
    PickLast(outs[..2], [outs[0]], outs[1], AsIrreversible);
    PickLast(outs, outs[..2], outs[2], AsIrreversible);
  }
}
