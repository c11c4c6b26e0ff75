/** Backfill and live tail as one sequence of responses, against the chain the events replay. */
module Delivery {
  import opened Types
  import opened EngineSpec
  import opened Replay
  import opened Finality
  import opened Cache
  import opened CacheChain
  import opened Archive
  import opened Archiver
  import opened Backfill
  import opened BackfillLaws
  import opened Pipeline

  // What is delivered

  /** The live tail, without anything at or below the backfill tip. */
  function LiveTail(encode: Encoder, received: seq<Output>, tip: Option<Height>): seq<Response> {
    if received == [] then []
    else
      var rest := LiveTail(encode, received[..|received| - 1], tip);
      var r := OutputToResponse(encode, received[|received| - 1]);
      if r.None? || (tip.Some? && r.value.num <= tip.value) then rest else rest + [r.value]
  }

  function LastNum(rows: seq<Response>): Option<Height> {
    if rows == [] then None else Some(rows[|rows| - 1].num)
  }

  function Shipped(encode: Encoder, backfill: seq<Response>, received: seq<Output>): seq<Response> {
    backfill + LiveTail(encode, received, LastNum(backfill))
  }

  // What is sent after the backfill, response by response

  predicate PastBackfill(backfill: seq<Response>, h: Height) {
    backfill == [] || backfill[|backfill| - 1].num < h
  }

  /** The live responses are, in order and once each, those of the received events at positions `from`, which are
      all that go on the wire and lie above the backfill. */
  ghost predicate SentLive(encode: Encoder, backfill: seq<Response>, received: seq<Output>, live: seq<Response>,
      from: seq<nat>)
  {
    && |from| == |live|
    && (forall i, j :: 0 <= i < j < |from| ==> from[i] < from[j])
    && (forall j :: 0 <= j < |from| ==> SentAs(encode, received, live[j], from[j]))
    && (forall i: nat :: i in from <==> GoesOut(backfill, received, i))
  }

  predicate GoesOut(backfill: seq<Response>, received: seq<Output>, i: nat) {
    && i < |received| && WireStep(received[i]).Some?
    && PastBackfill(backfill, received[i].streamable.block.height)
  }

  ghost predicate SentAs(encode: Encoder, received: seq<Output>, r: Response, i: nat) {
    && i < |received| && WireStep(received[i]).Some?
    && Tells(encode, r, WireStep(received[i]).value, received[i].streamable)
  }

  lemma GoesOutNext(backfill: seq<Response>, before: seq<Output>, o: Output, i: nat)
    ensures i < |before| ==> (GoesOut(backfill, before + [o], i) <==> GoesOut(backfill, before, i))
    ensures GoesOut(backfill, before + [o], |before|)
      <==> WireStep(o).Some? && PastBackfill(backfill, o.streamable.block.height)
    ensures i > |before| ==> !GoesOut(backfill, before + [o], i)
  {
  }

  lemma SentStays(encode: Encoder, backfill: seq<Response>, before: seq<Output>, o: Output, live: seq<Response>,
      from: seq<nat>)
    requires SentLive(encode, backfill, before, live, from)
    ensures forall j :: 0 <= j < |from| ==> from[j] < |before| && SentAs(encode, before + [o], live[j], from[j])
  {
    forall j | 0 <= j < |from| ensures from[j] < |before| && SentAs(encode, before + [o], live[j], from[j]) {
      assert SentAs(encode, before, live[j], from[j]);
    }
  }

  lemma SentSkip(encode: Encoder, backfill: seq<Response>, before: seq<Output>, o: Output, live: seq<Response>,
      from: seq<nat>)
    requires SentLive(encode, backfill, before, live, from) && !GoesOut(backfill, before + [o], |before|)
    ensures SentLive(encode, backfill, before + [o], live, from)
  {
    SentStays(encode, backfill, before, o, live, from);
    forall i: nat ensures i in from <==> GoesOut(backfill, before + [o], i) {
      GoesOutNext(backfill, before, o, i);
    }
  }

  lemma SentTake(encode: Encoder, backfill: seq<Response>, before: seq<Output>, o: Output, live: seq<Response>,
      from: seq<nat>, r: Response)
    requires SentLive(encode, backfill, before, live, from) && GoesOut(backfill, before + [o], |before|)
    requires WireStep(o).Some? && Tells(encode, r, WireStep(o).value, o.streamable)
    ensures SentLive(encode, backfill, before + [o], live + [r], from + [|before|])
  {
    var (received, live', from') := (before + [o], live + [r], from + [|before|]);
    SentStays(encode, backfill, before, o, live, from);
    assert received[|before|] == o;
    forall j | 0 <= j < |from'| ensures SentAs(encode, received, live'[j], from'[j]) {
    }
    forall i: nat ensures i in from' <==> GoesOut(backfill, received, i) {
      GoesOutNext(backfill, before, o, i);
    }
  }

  lemma SentNext(encode: Encoder, backfill: seq<Response>, before: seq<Output>, o: Output, live: seq<Response>,
      from: seq<nat>) returns (from': seq<nat>)
    requires SentLive(encode, backfill, before, live, from)
    ensures SentLive(encode, backfill, before + [o], live + Passed(OutputToResponse(encode, o), LastNum(backfill)),
      from')
  {
    ResponseTells(encode, o);
    GoesOutNext(backfill, before, o, |before|);
    if GoesOut(backfill, before + [o], |before|) {
      from' := from + [|before|];
      SentTake(encode, backfill, before, o, live, from, OutputToResponse(encode, o).value);
    } else {
      from' := from;
      SentSkip(encode, backfill, before, o, live, from);
      assert live + [] == live;
    }
  }

  lemma {:induction false} LiveTailExact(encode: Encoder, backfill: seq<Response>, received: seq<Output>)
    returns (from: seq<nat>)
    ensures SentLive(encode, backfill, received, LiveTail(encode, received, LastNum(backfill)), from)
  {
    if received == [] {
      from := [];
    } else {
      var n := |received| - 1;
      var before := LiveTailExact(encode, backfill, received[..n]);
      assert received == received[..n] + [received[n]];
      LiveTailOne(encode, received[..n], received[n], LastNum(backfill));
      from := SentNext(encode, backfill, received[..n], received[n],
        LiveTail(encode, received[..n], LastNum(backfill)), before);
    }
  }

  /** The server's filter over the receiver, one event at a time: the backfill, and then one response for each New,
      Undo and Irreversible received above it, in order. */
  method FilterLive(encode: Encoder, received: seq<Output>, backfill: seq<Response>) returns (stream: seq<Response>)
    ensures stream == Shipped(encode, backfill, received)
    ensures backfill <= stream
    ensures exists from: seq<nat> :: SentLive(encode, backfill, received, stream[|backfill|..], from)
  {
    var tip := LastNum(backfill);
    var live: seq<Response> := [];
    for i := 0 to |received|
      invariant live == LiveTail(encode, received[..i], tip)
    {
      assert received[..i + 1][..i] == received[..i];
      var r := OutputToResponse(encode, received[i]);
      if r.Some? && !(tip.Some? && r.value.num <= tip.value) {
        live := live + [r.value];
      }
    }
    assert received[..|received|] == received;
    stream := backfill + live;
    assert stream[|backfill|..] == live;
    var from := LiveTailExact(encode, backfill, received);
  }

  type Name = (Height, BlockId)

  /** Heights and ids of the New responses, in order. */
  function NewNames(rs: seq<Response>): seq<Name> {
    if rs == [] then []
    else
      var rest := NewNames(rs[..|rs| - 1]);
      var last := rs[|rs| - 1];
      if last.step == StepNew then rest + [(last.num, last.blockId)] else rest
  }

  function ChainNames(blocks: seq<BufferedBlock>): seq<Name> {
    if blocks == [] then []
    else ChainNames(blocks[..|blocks| - 1]) + [(Tip(blocks).height, Tip(blocks).blockId)]
  }

  /** The New responses are exactly these blocks, in order. */
  ghost predicate Ships(rs: seq<Response>, blocks: seq<BufferedBlock>) {
    NewNames(rs) == ChainNames(blocks)
  }

  lemma {:induction false} NewNamesAppend(a: seq<Response>, b: seq<Response>)
    ensures NewNames(a + b) == NewNames(a) + NewNames(b)
  {
    if b == [] {
      assert a + b == a;
    } else {
      var n := |b| - 1;
      NewNamesAppend(a, b[..n]);
      assert (a + b)[..|a + b| - 1] == a + b[..n];
    }
  }

  lemma {:induction false} ChainNamesAppend(a: seq<BufferedBlock>, b: seq<BufferedBlock>)
    ensures ChainNames(a + b) == ChainNames(a) + ChainNames(b)
  {
    if b == [] {
      assert a + b == a;
    } else {
      var n := |b| - 1;
      ChainNamesAppend(a, b[..n]);
      assert (a + b)[..|a + b| - 1] == a + b[..n];
    }
  }

  lemma {:induction false} CachedNames(encode: Encoder, blocks: seq<BufferedBlock>, head: Option<Height>)
    ensures NewNames(CachedResponses(encode, blocks, head)) == ChainNames(blocks)
  {
    if blocks != [] {
      var n := |blocks| - 1;
      CachedNames(encode, blocks[..n], head);
      assert CachedResponses(encode, blocks, head)[..n] == CachedResponses(encode, blocks[..n], head);
    }
  }

  predicate UndoAt(outs: seq<Output>, i: nat)
    requires i < |outs|
  {
    outs[i].Undo?
  }

  ghost predicate NoUndo(outs: seq<Output>) {
    forall i :: 0 <= i < |outs| ==> !UndoAt(outs, i)
  }

  /** Without undos the chain only grows. */
  lemma {:induction false} NoUndoGrows(c: Consumer, outs: seq<Output>)
    requires Feed(c, outs).Some? && NoUndo(outs)
    ensures c.chain <= Feed(c, outs).value.chain
    decreases |outs|
  {
    if outs != [] {
      assert !UndoAt(outs, 0);
      forall i | 0 <= i < |outs[1..]| ensures !UndoAt(outs[1..], i) {
        assert !UndoAt(outs, i + 1) && outs[1..][i] == outs[i + 1];
      }
      NoUndoGrows(Apply(c, outs[0]).value, outs[1..]);
    }
  }

  /** The live tail ships exactly the chain blocks past position `k`, when the backfill tip, if any, sits
      just below `k`. */
  lemma {:induction false} LiveIsChain(encode: Encoder, c: Consumer, outs: seq<Output>, tip: Option<Height>, k: nat)
    requires Feed(c, outs).Some? && NoUndo(outs) && |c.chain| <= k
    requires var chain := Feed(c, outs).value.chain;
      forall i :: |c.chain| <= i < |chain| ==> (Above(chain[i].height, tip) <==> i >= k)
    ensures var chain := Feed(c, outs).value.chain;
      Ships(LiveTail(encode, outs, tip), From(chain, k))
  {
    if outs == [] {
    } else {
      var n := |outs| - 1;
      var before := outs[..n];
      FeedPrefix(c, outs, n);
      var c1 := Feed(c, before).value;
      assert outs[n..] == [outs[n]];
      FeedOne(c1, outs[n]);
      var c2 := Feed(c, outs).value;
      forall i | 0 <= i < n ensures !UndoAt(before, i) {
        assert !UndoAt(outs, i) && before[i] == outs[i];
      }
      assert !UndoAt(outs, n);
      NoUndoGrows(c, before);
      assert forall i :: 0 <= i < |c1.chain| ==> c2.chain[i] == c1.chain[i];
      LiveIsChain(encode, c, before, tip, k);
      assert before + [outs[n]] == outs;
      if outs[n].New? {
        assert c2.chain[|c1.chain|] == outs[n].streamable.block;
      }
      LiveStep(encode, before, outs[n], c1.chain, c2.chain, tip, k);
    }
  }

  lemma LiveTailOne(encode: Encoder, before: seq<Output>, o: Output, tip: Option<Height>)
    ensures LiveTail(encode, before + [o], tip) ==
      LiveTail(encode, before, tip) + Passed(OutputToResponse(encode, o), tip)
  {
  }

  function Passed(r: Option<Response>, tip: Option<Height>): seq<Response> {
    if r.None? || !Above(r.value.num, tip) then [] else [r.value]
  }

  lemma ChainNamesOne(blocks: seq<BufferedBlock>, b: BufferedBlock)
    ensures ChainNames(blocks + [b]) == ChainNames(blocks) + [(b.height, b.blockId)]
  {
  }

  /** The names one event adds to the live tail. */
  lemma PassedNames(encode: Encoder, o: Output, tip: Option<Height>)
    ensures NewNames(Passed(OutputToResponse(encode, o), tip)) == NamesAbove(o, tip)
  {
  }

  function NamesAbove(o: Output, tip: Option<Height>): seq<Name> {
    if o.New? && Above(o.streamable.block.height, tip)
    then [(o.streamable.block.height, o.streamable.block.blockId)] else []
  }

  lemma GrowNames(rest: seq<Response>, passed: seq<Response>, o: Output, chain: seq<BufferedBlock>,
      chain': seq<BufferedBlock>, tip: Option<Height>, k: nat)
    requires !o.Undo? && chain' == (if o.New? then chain + [o.streamable.block] else chain)
    requires o.New? ==> (Above(o.streamable.block.height, tip) <==> |chain| >= k)
    requires Ships(rest, From(chain, k)) && NewNames(passed) == NamesAbove(o, tip)
    ensures Ships(rest + passed, From(chain', k))
  {
    NewNamesAppend(rest, passed);
    if o.New? && k <= |chain| {
      assert From(chain', k) == From(chain, k) + [o.streamable.block];
      ChainNamesOne(From(chain, k), o.streamable.block);
    } else {
      assert From(chain', k) == From(chain, k);
    }
  }

  lemma LiveStep(encode: Encoder, before: seq<Output>, o: Output, chain: seq<BufferedBlock>, chain': seq<BufferedBlock>,
      tip: Option<Height>, k: nat)
    requires !o.Undo? && chain' == (if o.New? then chain + [o.streamable.block] else chain)
    requires o.New? ==> (Above(o.streamable.block.height, tip) <==> |chain| >= k)
    requires Ships(LiveTail(encode, before, tip), From(chain, k))
    ensures Ships(LiveTail(encode, before + [o], tip), From(chain', k))
  {
    LiveTailOne(encode, before, o, tip);
    PassedNames(encode, o, tip);
    GrowNames(LiveTail(encode, before, tip), Passed(OutputToResponse(encode, o), tip), o, chain, chain', tip, k);
  }

  function From(chain: seq<BufferedBlock>, k: nat): seq<BufferedBlock> {
    if k <= |chain| then chain[k..] else []
  }

  // The hand-off

  /** The chain a consumer replays from the first `n` events. */
  ghost function ChainAt(outs: seq<Output>, n: nat): seq<BufferedBlock>
    requires n <= |outs|
  {
    if Feed(START, outs[..n]).Some? then Feed(START, outs[..n]).value.chain else []
  }

  /** Events a consumer accepts, with well-formed blocks. */
  ghost predicate Sane(outs: seq<Output>) {
    Feed(START, outs).Some? && WellFormedNews(outs)
  }

  /** And no undo from position `m` on. */
  ghost predicate Calm(outs: seq<Output>, m: nat) {
    m <= |outs| && Sane(outs) && NoUndo(outs[m..])
  }

  lemma CalmGrows(outs: seq<Output>, m: nat, i: nat, j: nat)
    requires Calm(outs, m) && m <= i <= j <= |outs|
    ensures ChainAt(outs, i) <= ChainAt(outs, j)
    ensures Feed(START, outs[..i]).Some? && Feed(START, outs[..j]).Some?
    ensures Feed(Feed(START, outs[..i]).value, outs[i..j]) == Feed(START, outs[..j])
    ensures NoUndo(outs[i..j])
  {
    FeedPrefix(START, outs, j);
    FeedPrefix(START, outs[..j], i);
    assert outs[..j][..i] == outs[..i] && outs[..j][i..] == outs[i..j];
    forall k | 0 <= k < j - i ensures !UndoAt(outs[i..j], k) {
      assert !UndoAt(outs[m..], i - m + k) && outs[i..j][k] == outs[m..][i - m + k];
    }
    NoUndoGrows(Feed(START, outs[..i]).value, outs[i..j]);
  }

  lemma SaneCache(outs: seq<Output>, capacity: nat, n: nat) returns (a: nat)
    requires Sane(outs) && n <= |outs| && capacity > 0
    ensures var chain := ChainAt(outs, n);
      Contiguous(chain) && Linked(chain) && a <= |chain| && WriteAll(capacity, map[], outs[..n]) == Suffix(chain, a)
  {
    FeedPrefix(START, outs, n);
    assert WellFormedNews(outs[..n]);
    assert Suffix(START.chain, 0) == map[];
    WriteTracks(capacity, START, 0, outs[..n]);
    LinkedIsContiguous(ChainAt(outs, n));
    a := CacheStart(capacity, START, 0, outs[..n]);
  }

  lemma CalmCache(outs: seq<Output>, m: nat, capacity: nat, n: nat)
    requires Calm(outs, m) && n <= |outs| && capacity > 0
    ensures var chain := ChainAt(outs, n);
      Contiguous(chain) && Linked(chain)
      && exists a: nat :: a <= |chain| && WriteAll(capacity, map[], outs[..n]) == Suffix(chain, a)
  {
    var _ := SaneCache(outs, capacity, n);
  }

  lemma WindowOfSuffix(chain: seq<BufferedBlock>, a: nat, mn: Height, mx: Height)
    requires Contiguous(chain) && a <= |chain| && WindowOf(Suffix(chain, a)) == Some((mn, mx))
    ensures a < |chain| && mn == chain[0].height + a && mx == chain[0].height + |chain| - 1
  {
    var keys := Suffix(chain, a).Keys;
    assert IsLeast(keys, mn) && IsGreatest(keys, mx);
    assert chain[a].height in keys && chain[|chain| - 1].height in keys;
  }

  /** The blocks of a successful cache walk are one slice of the chain. */
  lemma WalkIsSlice(chain: seq<BufferedBlock>, a: nat, from: Height, max: Height)
    requires Contiguous(chain) && a <= |chain| && chain != [] && chain[0].height <= from <= max
    requires CacheWalked(Suffix(chain, a), from, max).Ok?
    ensures max - chain[0].height + 1 <= |chain|
    ensures CacheWalked(Suffix(chain, a), from, max).value == chain[from - chain[0].height..max - chain[0].height + 1]
  {
    var base := chain[0].height;
    CacheWalkedExact(Suffix(chain, a), from, max);
    assert max in Suffix(chain, a);
    var blocks := CacheWalked(Suffix(chain, a), from, max).value;
    forall i | 0 <= i < |blocks| ensures blocks[i] == chain[from - base..max - base + 1][i] {
      assert from + i in Suffix(chain, a);
    }
  }

  lemma KeyedSuffix(chain: seq<BufferedBlock>, a: nat)
    requires Contiguous(chain) && a <= |chain|
    ensures Keyed(Suffix(chain, a))
  {
  }

  /** A cache walk up to the snapshot's tip ships one slice of the chain, ending at that tip. */
  lemma SliceNames(encode: Encoder, walk: seq<BufferedBlock>, aw: nat, from: Height, mx: Height, head: Option<Height>,
      n: nat)
    requires Contiguous(walk) && aw <= |walk| && n <= |walk| && n > 0
    requires walk[0].height <= from <= mx && mx == walk[0].height + n - 1
    requires CacheWalked(Suffix(walk, aw), from, mx).Ok?
    ensures var cached := CachedResponses(encode, CacheWalked(Suffix(walk, aw), from, mx).value, head);
      && cached != [] && cached[|cached| - 1].num == mx
      && Ships(cached, walk[from - walk[0].height..n])
  {
    WalkIsSlice(walk, aw, from, mx);
    var blocks := CacheWalked(Suffix(walk, aw), from, mx).value;
    CachedNames(encode, blocks, head);
    assert blocks[|blocks| - 1] == walk[n - 1];
  }

  /** The archive rows end just below the cache, or the start is in the cache's range. */
  predicate Meets(archived: seq<Response>, h: Height, mn: Height) {
    if archived == [] then mn <= h else h < mn && archived[|archived| - 1].num == mn - 1
  }

  /** Where the cache part of a backfill with at least one row begins. */
  lemma ResumesAt(encode: Encoder, mn: Height, mx: Height, m: Cached, archived: seq<Response>, cached: seq<Response>,
      h: Height, head: Option<Height>)
    requires Keyed(m) && mn <= mx && CacheStage(encode, Some((mn, mx)), m, archived, h, head) == Ok(cached)
    requires (archived != [] || cached != []) && Meets(archived, h, mn)
    ensures ResumePoint(archived, h) == Max(h, mn) <= mx
    ensures CacheWalked(m, Max(h, mn), mx).Ok?
      && cached == CachedResponses(encode, CacheWalked(m, Max(h, mn), mx).value, head)
  {
  }

  /** The rows are the blocks from height `first` up to position `n`, whose height is `mx`. */
  ghost predicate ShipsFrom(cached: seq<Response>, chain: seq<BufferedBlock>, first: Height, n: nat, mx: Height) {
    && cached != [] && cached[|cached| - 1].num == mx
    && chain != [] && 0 <= first - chain[0].height <= n <= |chain|
    && Ships(cached, chain[first - chain[0].height..n])
  }

  /** The cache part of a served backfill: never empty, up to the snapshot's tip, one slice of the chain. */
  lemma CachePart(encode: Encoder, walk: seq<BufferedBlock>, aw: nat, m: Cached, mn: Height, mx: Height,
      archived: seq<Response>, cached: seq<Response>, h: Height, head: Option<Height>, n: nat)
    requires Contiguous(walk) && aw <= |walk| && 0 < n <= |walk| && m == Suffix(walk, aw)
    requires walk[0].height <= mn <= mx && mx == walk[0].height + n - 1
    requires CacheStage(encode, Some((mn, mx)), m, archived, h, head) == Ok(cached)
    requires (archived != [] || cached != []) && Meets(archived, h, mn)
    ensures Max(h, mn) <= mx && ShipsFrom(cached, walk, Max(h, mn), n, mx)
  {
    KeyedSuffix(walk, aw);
    ResumesAt(encode, mn, mx, m, archived, cached, h, head);
    SliceNames(encode, walk, aw, Max(h, mn), mx, head, n);
  }

  ghost predicate AllNew(rs: seq<Response>) {
    forall i :: 0 <= i < |rs| ==> rs[i].step == StepNew
  }

  lemma {:induction false} ArchivedAreNew(decode: Decoder, rows: seq<Row>)
    ensures AllNew(Projected(decode, rows))
  {
    if rows != [] {
      ArchivedAreNew(decode, rows[..|rows| - 1]);
    }
  }

  /** What the live tail adds, on top of the chain at the snapshot. */
  lemma LivePart(encode: Encoder, outs: seq<Output>, m: nat, snapAt: nat, r: nat, tip: Height)
    requires Calm(outs, m) && m <= snapAt <= |outs| && m <= r <= |outs|
    requires var snap := ChainAt(outs, snapAt); snap != [] && tip == snap[0].height + |snap| - 1
    requires Contiguous(ChainAt(outs, |outs|))
    ensures var (k, n) := (|ChainAt(outs, snapAt)|, |ChainAt(outs, r)|);
      && Max(k, n) <= |ChainAt(outs, |outs|)|
      && Ships(LiveTail(encode, outs[m..r], Some(tip)), ChainAt(outs, |outs|)[k..Max(k, n)])
  {
    var chain := ChainAt(outs, |outs|);
    var (k, n) := (|ChainAt(outs, snapAt)|, |ChainAt(outs, r)|);
    CalmGrows(outs, m, m, snapAt);
    CalmGrows(outs, m, snapAt, |outs|);
    CalmGrows(outs, m, m, r);
    CalmGrows(outs, m, r, |outs|);
    var here := ChainAt(outs, r);
    assert here == chain[..n];
    LiveIsChain(encode, Feed(START, outs[..m]).value, outs[m..r], Some(tip), k);
    if k <= n {
      assert here[k..] == chain[k..n];
    } else {
      assert chain[k..k] == [];
    }
  }

  /** Without a backfill the live tail is everything the chain gained since the subscription. */
  lemma UnfilteredPart(encode: Encoder, w: seq<Output>, m: nat, r: nat)
    requires Calm(w, m) && m <= r <= |w|
    ensures var (sub, here) := (ChainAt(w, m), ChainAt(w, r));
      && sub <= here && Contiguous(here) && Linked(here)
      && Ships(LiveTail(encode, w[m..r], None), here[|sub|..])
  {
    CalmChain(w, m, r);
    CalmGrows(w, m, m, r);
    LiveIsChain(encode, Feed(START, w[..m]).value, w[m..r], None, |ChainAt(w, m)|);
  }

  lemma ArchiveJoins(p: Setup, archive: Option<Table>, mn: Height, mx: Height, m: Cached, archived: seq<Response>,
      cached: seq<Response>, head: Option<Height>)
    requires mn <= mx && ArchiveStage(p.decode, archive, Some((mn, mx)), p.start) == Ok(archived)
    requires CacheStage(p.encode, Some((mn, mx)), m, archived, p.start, head) == Ok(cached)
    ensures Meets(archived, p.start, mn)
  {
    ArchiveStageSound(p.decode, archive, mn, mx, p.start);
  }

  /** The three chains a request sees: at its snapshot, at its walk, and now. */
  ghost predicate Views(snap: seq<BufferedBlock>, walk: seq<BufferedBlock>, chain: seq<BufferedBlock>, mn: Height,
      mx: Height)
  {
    && snap <= walk <= chain && Contiguous(chain) && Linked(chain) && Contiguous(walk)
    && snap != [] && chain[0].height <= mn <= mx && mx == chain[0].height + |snap| - 1
  }

  lemma ViewsOf(w: seq<Output>, m: nat, capacity: nat, ns: nat, nw: nat, mn: Height, mx: Height)
    requires capacity > 0 && Calm(w, m) && m <= ns <= nw <= |w|
    requires WindowOf(WriteAll(capacity, map[], w[..ns])) == Some((mn, mx))
    ensures Views(ChainAt(w, ns), ChainAt(w, nw), ChainAt(w, |w|), mn, mx)
  {
    CalmGrows(w, m, ns, nw);
    CalmGrows(w, m, nw, |w|);
    CalmCache(w, m, capacity, ns);
    CalmCache(w, m, capacity, nw);
    CalmCache(w, m, capacity, |w|);
    var snap := ChainAt(w, ns);
    var a: nat :| a <= |snap| && WriteAll(capacity, map[], w[..ns]) == Suffix(snap, a);
    WindowOfSuffix(snap, a, mn, mx);
  }

  lemma SlicePrefix(walk: seq<BufferedBlock>, chain: seq<BufferedBlock>, lo: nat, k: nat)
    requires walk <= chain && lo <= k <= |walk|
    ensures walk[lo..k] == chain[lo..k]
  {
  }

  /** What was backfilled from the cache, whatever was written between the snapshot and the walk. */
  lemma CachedSlice(encode: Encoder, start: Height, snap: seq<BufferedBlock>, walk: seq<BufferedBlock>,
      chain: seq<BufferedBlock>, aw: nat, m: Cached, mn: Height, mx: Height, head: Option<Height>,
      archived: seq<Response>, cached: seq<Response>)
    requires Views(snap, walk, chain, mn, mx) && aw <= |walk| && m == Suffix(walk, aw)
    requires CacheStage(encode, Some((mn, mx)), m, archived, start, head) == Ok(cached)
    requires (archived != [] || cached != []) && Meets(archived, start, mn)
    ensures Max(start, mn) <= mx && ShipsFrom(cached, chain, Max(start, mn), |snap|, mx)
  {
    CachePart(encode, walk, aw, m, mn, mx, archived, cached, start, head, |snap|);
    SlicePrefix(walk, chain, Max(start, mn) - chain[0].height, |snap|);
  }

  lemma CacheAtWalk(w: seq<Output>, m: nat, capacity: nat, nw: nat) returns (aw: nat)
    requires capacity > 0 && Calm(w, m) && nw <= |w|
    ensures aw <= |ChainAt(w, nw)| && WriteAll(capacity, map[], w[..nw]) == Suffix(ChainAt(w, nw), aw)
  {
    CalmCache(w, m, capacity, nw);
    aw :| aw <= |ChainAt(w, nw)| && WriteAll(capacity, map[], w[..nw]) == Suffix(ChainAt(w, nw), aw);
  }

  lemma NamesOfSlices(a: seq<Response>, b: seq<Response>, chain: seq<BufferedBlock>, lo: nat, k: nat, hi: nat)
    requires lo <= k <= hi <= |chain|
    requires Ships(a, chain[lo..k]) && Ships(b, chain[k..hi])
    ensures NewNames(a) + NewNames(b) == ChainNames(chain[lo..hi])
  {
    ChainNamesAppend(chain[lo..k], chain[k..hi]);
    assert chain[lo..k] + chain[k..hi] == chain[lo..hi];
  }

  lemma NamesOfThree(archived: seq<Response>, cached: seq<Response>, live: seq<Response>, blocks: seq<BufferedBlock>)
    requires NewNames(cached) + NewNames(live) == ChainNames(blocks)
    ensures ShipsAfter(archived + cached + live, archived, blocks)
  {
    NewNamesAppend(archived + cached, live);
    NewNamesAppend(archived, cached);
    Associative(NewNames(archived), NewNames(cached), NewNames(live));
  }

  lemma Associative(a: seq<Name>, b: seq<Name>, c: seq<Name>)
    ensures (a + b) + c == a + (b + c)
  {
  }

  /** First the archive rows, then exactly these blocks. */
  ghost predicate ShipsAfter(rs: seq<Response>, archived: seq<Response>, blocks: seq<BufferedBlock>) {
    NewNames(rs) == NewNames(archived) + ChainNames(blocks)
  }

  lemma LastOfBackfill(archived: seq<Response>, cached: seq<Response>)
    requires cached != []
    ensures LastNum(archived + cached) == LastNum(cached)
  {
  }

  /** Heights and ids delivered: the archive's, then exactly those of the replayed chain from the later of
      the start and the cache's floor, up to the block last broadcast or the snapshot's tip. */
  ghost predicate Joined(w: seq<Output>, snapAt: nat, heard: nat, first: Height, archived: seq<Response>,
      delivered: seq<Response>)
    requires snapAt <= |w| && heard <= |w|
  {
    var chain := ChainAt(w, |w|);
    && chain != [] && Contiguous(chain) && Linked(chain)
    && var (lo, hi) := (first - chain[0].height, Max(|ChainAt(w, snapAt)|, |ChainAt(w, heard)|));
      && 0 <= lo < hi <= |chain|
      && ShipsAfter(delivered, archived, chain[lo..hi])
  }

  lemma JoinLive(encode: Encoder, w: seq<Output>, m: nat, ns: nat, r: nat, walk: seq<BufferedBlock>, mn: Height,
      mx: Height, first: Height, archived: seq<Response>, cached: seq<Response>)
    requires Calm(w, m) && m <= ns <= |w| && m <= r <= |w|
    requires Views(ChainAt(w, ns), walk, ChainAt(w, |w|), mn, mx) && mn <= first <= mx
    requires ShipsFrom(cached, ChainAt(w, |w|), first, |ChainAt(w, ns)|, mx)
    ensures Joined(w, ns, r, first, archived, Shipped(encode, archived + cached, w[m..r]))
  {
    var chain := ChainAt(w, |w|);
    var live := LiveTail(encode, w[m..r], Some(mx));
    LivePart(encode, w, m, ns, r, mx);
    LastOfBackfill(archived, cached);
    var (lo, k, hi) := (first - chain[0].height, |ChainAt(w, ns)|, Max(|ChainAt(w, ns)|, |ChainAt(w, r)|));
    NamesOfSlices(cached, live, chain, lo, k, hi);
    NamesOfThree(archived, cached, live, chain[lo..hi]);
  }

  /** Every New response delivered after the archive rows is one slice of the replayed chain. */
  lemma DeliveredIsSlice(p: Setup, w: seq<Output>, m: nat, ns: nat, nw: nat, r: nat, mn: Height, mx: Height,
      archive: Option<Table>, head: Option<Height>, archived: seq<Response>, cached: seq<Response>)
    requires p.capacity > 0 && Calm(w, m) && m <= ns <= nw <= |w| && m <= r <= |w|
    requires WindowOf(WriteAll(p.capacity, map[], w[..ns])) == Some((mn, mx))
    requires ArchiveStage(p.decode, archive, Some((mn, mx)), p.start) == Ok(archived)
    requires CacheStage(p.encode, Some((mn, mx)), WriteAll(p.capacity, map[], w[..nw]), archived, p.start, head)
      == Ok(cached)
    requires archived != [] || cached != []
    ensures Joined(w, ns, r, Max(p.start, mn), archived, Shipped(p.encode, archived + cached, w[m..r]))
  {
    var (snap, walk) := (ChainAt(w, ns), ChainAt(w, nw));
    ViewsOf(w, m, p.capacity, ns, nw, mn, mx);
    var aw := CacheAtWalk(w, m, p.capacity, nw);
    ArchiveJoins(p, archive, mn, mx, WriteAll(p.capacity, map[], w[..nw]), archived, cached, head);
    CachedSlice(p.encode, p.start, snap, walk, ChainAt(w, |w|), aw, WriteAll(p.capacity, map[], w[..nw]), mn, mx, head,
      archived, cached);
    JoinLive(p.encode, w, m, ns, r, walk, mn, mx, Max(p.start, mn), archived, cached);
  }

  // Heights

  ghost predicate NamesOf(names: seq<Name>, rs: seq<Response>) {
    |names| == |rs| && forall i :: 0 <= i < |rs| ==> names[i] == (rs[i].num, rs[i].blockId)
  }

  /** All responses are New. */
  ghost predicate Named(rs: seq<Response>) {
    NamesOf(NewNames(rs), rs)
  }

  lemma {:induction false} NamesOfNews(rs: seq<Response>)
    requires AllNew(rs)
    ensures Named(rs)
  {
    if rs != [] {
      NamesOfNews(rs[..|rs| - 1]);
    }
  }

  /** Archive rows are New responses, each under its own height and id. */
  lemma StageNames(decode: Decoder, archive: Option<Table>, window: Window, h: Height)
    requires ArchiveStage(decode, archive, window, h).Ok?
    ensures var archived := ArchiveStage(decode, archive, window, h).value; AllNew(archived) && Named(archived)
  {
    var archived := ArchiveStage(decode, archive, window, h).value;
    if archived != [] {
      var hi := if window.Some? then SaturatingPred(window.value.0) else TopOf(archive.value).value;
      ArchivedAreNew(decode, Scan(archive.value, h, hi, ARCHIVE_WALK_LIMIT).value);
    }
    NamesOfNews(archived);
  }

  lemma {:induction false} NamesOfChain(blocks: seq<BufferedBlock>)
    ensures |ChainNames(blocks)| == |blocks|
    ensures forall i :: 0 <= i < |blocks| ==> ChainNames(blocks)[i] == (blocks[i].height, blocks[i].blockId)
  {
    if blocks != [] {
      NamesOfChain(blocks[..|blocks| - 1]);
    }
  }

  /** Heights ascend throughout, and are consecutive from position `n` on. */
  ghost predicate Gapless(names: seq<Name>, n: nat, first: Height) {
    && n <= |names|
    && (forall i, j :: 0 <= i < j < |names| ==> names[i].0 < names[j].0)
    && (forall i :: n <= i < |names| ==> names[i].0 == first + (i - n))
    && (n > 0 ==> names[n - 1].0 == first - 1)
  }

  /** The New responses: ascending, and gap-free from position `n` on. */
  ghost predicate Ascends(rs: seq<Response>, n: nat, first: Height) {
    Gapless(NewNames(rs), n, first)
  }

  lemma CalmChain(outs: seq<Output>, m: nat, n: nat)
    requires Calm(outs, m) && n <= |outs|
    ensures Contiguous(ChainAt(outs, n)) && Linked(ChainAt(outs, n))
  {
    CalmCache(outs, m, 1, n);
  }
}
