/** What the cache holds when it is fed an engine's events: a suffix of the replayed chain. */
module CacheChain {
  import opened Types
  import opened EngineSpec
  import opened Streams
  import opened Replay
  import opened Finality
  import opened Cache

  type Cached = map<Height, Entry<BufferedBlock>>

  /** What the relayer writes for one event. */
  function Write(capacity: nat, m: Cached, o: Output): Cached {
    match o
    case New(s) => Newest(Updated(m, s.block.height, s.block.blockId, s.block), capacity)
    case Undo(s) => Without(m, s.block.blockId)
    case Irreversible(_) => m
    case ForkObserved(_) => m
    case ForkResolved(_, _) => m
  }

  function WriteAll(capacity: nat, m: Cached, outs: seq<Output>): Cached
    decreases |outs|
  {
    if outs == [] then m else WriteAll(capacity, Write(capacity, m, outs[0]), outs[1..])
  }

  predicate Between(lo: int, h: int, hi: int) {
    lo <= h < hi
  }

  function Interval(lo: int, hi: int): set<Height> {
    set h: Height | lo <= h < hi && Between(lo, h, hi)
  }

  predicate Holds(chain: seq<BufferedBlock>, a: nat, h: Height) {
    chain != [] && chain[0].height + a <= h < chain[0].height + |chain|
  }

  /** The chain from position `a` on, by height. */
  function Suffix(chain: seq<BufferedBlock>, a: nat): Cached
    requires a <= |chain|
  {
    if chain == [] then map[] else
    var (lo, hi) := (chain[0].height + a, chain[0].height + |chain|);
    map h: Height | lo <= h < hi && Holds(chain, a, h) ::
      (chain[h - chain[0].height].blockId, chain[h - chain[0].height])
  }

  /** Where the cached suffix starts after one event. */
  function StartAfter(capacity: nat, length: nat, a: nat, o: Output): nat {
    match o
    case New(_) => Max(a, length + 1 - capacity)
    case Undo(_) => Min(a, Max(0, length - 1))
    case Irreversible(_) => a
    case ForkObserved(_) => a
    case ForkResolved(_, _) => a
  }

  function CacheStart(capacity: nat, c: Consumer, a: nat, outs: seq<Output>): nat
    decreases |outs|
  {
    if outs == [] || Apply(c, outs[0]).None? then a
    else CacheStart(capacity, Apply(c, outs[0]).value, StartAfter(capacity, |c.chain|, a, outs[0]), outs[1..])
  }

  ghost predicate WellFormedNews(outs: seq<Output>) {
    forall i :: 0 <= i < |outs| && outs[i].New? ==> WellFormed(outs[i].streamable.block)
  }

  // One event

  lemma {:induction false} IntervalSize(lo: int, hi: int)
    requires 0 <= lo <= hi <= U64_MAX + 1
    ensures |Interval(lo, hi)| == hi - lo
    decreases hi - lo
  {
    if lo < hi {
      IntervalSize(lo, hi - 1);
      assert Interval(lo, hi) == Interval(lo, hi - 1) + {hi - 1};
    } else {
      assert Interval(lo, hi) == {};
    }
  }

  lemma SuffixKeysAbove(chain: seq<BufferedBlock>, a: nat, k: Height)
    requires Contiguous(chain) && a <= |chain| && k in Suffix(chain, a)
    ensures |KeysAbove(Suffix(chain, a), k)| == chain[0].height + |chain| - 1 - k
  {
    var hi := chain[0].height + |chain|;
    assert chain[|chain| - 1].height == hi - 1;
    var above := KeysAbove(Suffix(chain, a), k);
    assert above == Interval(k + 1, hi);
    IntervalSize(k + 1, hi);
  }

  /** Eviction keeps the suffix a suffix. */
  lemma SuffixNewest(chain: seq<BufferedBlock>, a: nat, capacity: nat)
    requires Contiguous(chain) && a <= |chain| && capacity > 0
    ensures Newest(Suffix(chain, a), capacity) == Suffix(chain, Max(a, |chain| - capacity))
  {
    forall k | k in Suffix(chain, a)
      ensures |KeysAbove(Suffix(chain, a), k)| == chain[0].height + |chain| - 1 - k
    {
      SuffixKeysAbove(chain, a, k);
    }
  }

  lemma SuffixWithout(chain: seq<BufferedBlock>, a: nat, id: BlockId)
    requires Contiguous(chain) && AllWellFormed(chain) && a <= |chain|
    requires chain != [] ==> HeightOf(id) == chain[0].height + |chain|
    ensures Without(Suffix(chain, a), id) == Suffix(chain, a)
  {
  }

  lemma SuffixPush(chain: seq<BufferedBlock>, a: nat, nb: BufferedBlock)
    requires Contiguous(chain + [nb]) && a <= |chain|
    ensures Suffix(chain, a)[nb.height := (nb.blockId, nb)] == Suffix(chain + [nb], a)
  {
    var grown := chain + [nb];
    assert grown[|chain|] == nb;
    if chain != [] {
      assert grown[0] == chain[0];
    }
  }

  lemma PushSound(chain: seq<BufferedBlock>, nb: BufferedBlock)
    requires Linked(chain) && AllWellFormed(chain) && WellFormed(nb)
    requires chain != [] ==> nb.parentId == Tip(chain).blockId
    ensures Linked(chain + [nb]) && AllWellFormed(chain + [nb])
  {
    assert chain[..|chain|] == chain;
    LinkedGrown(chain, |chain|, nb);
    forall i | 0 <= i < |chain + [nb]| ensures WellFormed((chain + [nb])[i]) {
      assert i < |chain| ==> WellFormed(chain[i]);
    }
  }

  lemma NewTracks(capacity: nat, c: Consumer, a: nat, s: StreamableBlock)
    requires Linked(c.chain) && AllWellFormed(c.chain) && a <= |c.chain| && capacity > 0
    requires Apply(c, New(s)).Some? && WellFormed(s.block)
    ensures Write(capacity, Suffix(c.chain, a), New(s))
         == Suffix(c.chain + [s.block], Max(a, |c.chain| + 1 - capacity))
    ensures Linked(c.chain + [s.block]) && AllWellFormed(c.chain + [s.block])
  {
    var grown := c.chain + [s.block];
    PushSound(c.chain, s.block);
    LinkedIsContiguous(c.chain);
    LinkedIsContiguous(grown);
    if c.chain != [] {
      assert grown[0] == c.chain[0] && grown[|c.chain|] == s.block;
    }
    SuffixWithout(c.chain, a, s.block.blockId);
    SuffixPush(c.chain, a, s.block);
    SuffixNewest(grown, a, capacity);
  }

  lemma PrefixSound(chain: seq<BufferedBlock>, n: nat)
    requires Linked(chain) && AllWellFormed(chain) && n <= |chain|
    ensures Linked(chain[..n]) && AllWellFormed(chain[..n])
  {
    forall i | 0 < i < n ensures IsChild(chain[..n], i) {
      assert IsChild(chain, i);
    }
    forall i | 0 <= i < n ensures WellFormed(chain[..n][i]) {
      assert WellFormed(chain[i]);
    }
  }

  /** Removing the tip's id removes the tip's height and nothing else. */
  lemma SuffixPop(chain: seq<BufferedBlock>, a: nat)
    requires Contiguous(chain) && AllWellFormed(chain) && a <= |chain| && chain != []
    ensures Without(Suffix(chain, a), Tip(chain).blockId) == Suffix(chain[..|chain| - 1], Min(a, |chain| - 1))
  {
  }

  lemma UndoTracks(c: Consumer, a: nat)
    requires Linked(c.chain) && AllWellFormed(c.chain) && a <= |c.chain| && c.chain != []
    ensures var n := |c.chain| - 1;
      Without(Suffix(c.chain, a), c.chain[n].blockId) == Suffix(c.chain[..n], Min(a, n))
    ensures Linked(c.chain[..|c.chain| - 1]) && AllWellFormed(c.chain[..|c.chain| - 1])
  {
    LinkedIsContiguous(c.chain);
    PrefixSound(c.chain, |c.chain| - 1);
    SuffixPop(c.chain, a);
  }

  // Any stream the consumer accepts

  /** Fed a stream its consumer accepts, the cache is the suffix of the replayed chain that starts at
      `CacheStart`, whatever prefix of the stream has been written. */
  lemma {:induction false} WriteTracks(capacity: nat, c: Consumer, a: nat, outs: seq<Output>)
    requires Linked(c.chain) && AllWellFormed(c.chain) && a <= |c.chain| && capacity > 0
    requires Feed(c, outs).Some? && WellFormedNews(outs)
    ensures var chain := Feed(c, outs).value.chain;
      var a' := CacheStart(capacity, c, a, outs);
      && Linked(chain) && AllWellFormed(chain) && a' <= |chain|
      && WriteAll(capacity, Suffix(c.chain, a), outs) == Suffix(chain, a')
    decreases |outs|
  {
    if outs != [] {
      var o := outs[0];
      var c1 := Apply(c, o).value;
      if o.New? {
        NewTracks(capacity, c, a, o.streamable);
      } else if o.Undo? {
        UndoTracks(c, a);
      }
      forall i | 0 <= i < |outs[1..]| && outs[1..][i].New? ensures WellFormed(outs[1..][i].streamable.block) {
        assert outs[1..][i] == outs[i + 1];
      }
      WriteTracks(capacity, c1, StartAfter(capacity, |c.chain|, a, o), outs[1..]);
    }
  }

  lemma {:induction false} WriteAppend(capacity: nat, m: Cached, a: seq<Output>, b: seq<Output>)
    ensures WriteAll(capacity, m, a + b) == WriteAll(capacity, WriteAll(capacity, m, a), b)
    decreases |a|
  {
    if a == [] {
      assert a + b == b;
    } else {
      assert (a + b)[1..] == a[1..] + b;
      WriteAppend(capacity, Write(capacity, m, a[0]), a[1..], b);
    }
  }

  // The engine's streams

  lemma {:induction false} EmissionsWellFormed(cfg: Config, inputs: seq<Input>)
    requires WellFormedInputs(inputs)
    ensures WellFormedNews(Emissions(cfg, inputs))
  {
    if inputs != [] {
      var (before, last) := (inputs[..|inputs| - 1], inputs[|inputs| - 1]);
      EmissionsWellFormed(cfg, before);
      StepWellFormed(cfg, After(cfg, before), last);
    }
  }

  lemma StepWellFormed(cfg: Config, s: State, input: Input)
    requires WellFormedInput(input)
    ensures WellFormedNews(Emitted(Take(cfg, s, input).1))
  {
    match input
    case Solidify(head) => SettleHasNoBlocks(s.(solidifiedHead := Some(head)));
    case Deliver(b) =>
      forall kept: nat | kept <= |s.canonical| ensures WellFormedNews(Admit(cfg, s, b, kept).1.value) {
        AdmitWellFormed(cfg, s, b, kept);
      }
  }

  lemma AdmitWellFormed(cfg: Config, s: State, b: Block, kept: nat)
    requires kept <= |s.canonical| && WellFormedHeader(b.height, b.blockId, b.parentId)
    ensures WellFormedNews(Admit(cfg, s, b, kept).1.value)
  {
    AllUndo(s.canonical[kept..], s.solidifiedHead);
    SettleHasNoBlocks(Append(s, b, kept));
  }

  /** Cache agrees with the chain: after any prefix of a well-formed run's events has been written, the
      cache holds exactly a suffix of the chain those events replay, one entry per height up to the tip. */
  lemma CacheIsChainSuffix(cfg: Config, inputs: seq<Input>, capacity: nat, n: nat)
    requires cfg.Valid() && WellFormedInputs(inputs) && capacity > 0 && n <= |Emissions(cfg, inputs)|
    ensures var outs := Emissions(cfg, inputs)[..n];
      var fed := Feed(START, outs);
      var a := CacheStart(capacity, START, 0, outs);
      && fed.Some? && a <= |fed.value.chain| && Contiguous(fed.value.chain)
      && WriteAll(capacity, map[], outs) == Suffix(fed.value.chain, a)
  {
    ReplayNeverFails(cfg, inputs);
    EmissionsWellFormed(cfg, inputs);
    var all := Emissions(cfg, inputs);
    FeedPrefix(START, all, n);
    assert WellFormedNews(all[..n]);
    assert Suffix(START.chain, 0) == map[];
    WriteTracks(capacity, START, 0, all[..n]);
    LinkedIsContiguous(Feed(START, all[..n]).value.chain);
  }

  lemma SuffixHolds(chain: seq<BufferedBlock>, a: nat, i: nat)
    requires Contiguous(chain) && a <= i < |chain|
    ensures chain[i].height in Suffix(chain, a)
    ensures Suffix(chain, a)[chain[i].height] == (chain[i].blockId, chain[i])
  {
  }

  lemma SuffixHoldsOnly(chain: seq<BufferedBlock>, a: nat, h: Height)
    requires Contiguous(chain) && a <= |chain| && h in Suffix(chain, a)
    ensures var b := Suffix(chain, a)[h].1; b in chain[a..] && b.height == h && Suffix(chain, a)[h].0 == b.blockId
  {
  }

  lemma SuffixSize(chain: seq<BufferedBlock>, a: nat)
    requires Contiguous(chain) && a <= |chain|
    ensures |Suffix(chain, a)| == |chain| - a
  {
    var keys := Suffix(chain, a).Keys;
    if chain != [] {
      assert chain[|chain| - 1].height == chain[0].height + |chain| - 1;
      assert keys == Interval(chain[0].height + a, chain[0].height + |chain|);
      IntervalSize(chain[0].height + a, chain[0].height + |chain|);
    }
    assert |Suffix(chain, a)| == |keys|;
  }

  /** What a suffix holds, entry by entry: consecutive heights up to the tip, each with its chain block,
      and nothing else, so no orphan is reachable by height or by id. */
  lemma SuffixExactly(chain: seq<BufferedBlock>, a: nat)
    requires Contiguous(chain) && a <= |chain|
    ensures var m := Suffix(chain, a);
      && (forall i :: a <= i < |chain| ==> chain[i].height in m && m[chain[i].height] == (chain[i].blockId, chain[i]))
      && (forall h :: h in m ==> m[h].1 in chain[a..] && m[h].1.height == h && m[h].0 == m[h].1.blockId)
      && |m| == |chain| - a
  {
    var m := Suffix(chain, a);
    forall i | a <= i < |chain| ensures chain[i].height in m && m[chain[i].height] == (chain[i].blockId, chain[i]) {
      SuffixHolds(chain, a, i);
    }
    forall h | h in m ensures m[h].1 in chain[a..] && m[h].1.height == h && m[h].0 == m[h].1.blockId {
      SuffixHoldsOnly(chain, a, h);
    }
    SuffixSize(chain, a);
  }

  // The cache against the engine's buffer

  lemma {:induction false} CacheStartAppend(capacity: nat, c: Consumer, a: nat, x: seq<Output>, y: seq<Output>)
    requires Feed(c, x).Some?
    ensures CacheStart(capacity, c, a, x + y)
      == CacheStart(capacity, Feed(c, x).value, CacheStart(capacity, c, a, x), y)
    decreases |x|
  {
    if x == [] {
      assert x + y == y;
    } else {
      assert (x + y)[1..] == x[1..] + y;
      CacheStartAppend(capacity, Apply(c, x[0]).value, StartAfter(capacity, |c.chain|, a, x[0]), x[1..], y);
    }
  }

  lemma {:induction false} CacheStartIdle(capacity: nat, c: Consumer, a: nat, outs: seq<Output>)
    requires Feed(c, outs).Some?
    requires forall i :: 0 <= i < |outs| ==> !outs[i].New? && !outs[i].Undo?
    ensures CacheStart(capacity, c, a, outs) == a
    decreases |outs|
  {
    if outs != [] {
      assert forall i :: 0 <= i < |outs[1..]| ==> outs[1..][i] == outs[i + 1];
      CacheStartIdle(capacity, Apply(c, outs[0]).value, a, outs[1..]);
    }
  }

  lemma {:induction false} CacheStartUndos(capacity: nat, c: Consumer, a: nat, kept: nat, head: Option<Height>)
    requires c.locked <= kept <= |c.chain| && a <= kept
    ensures CacheStart(capacity, c, a, Undos(c.chain[kept..], head)) == a
    decreases |c.chain|
  {
    var orphans := c.chain[kept..];
    if orphans != [] {
      var n := |c.chain| - 1;
      var c1 := c.(chain := c.chain[..n]);
      var rest := Undos(orphans[..|orphans| - 1], head);
      var first := Undo(Emit(StepUndo, Tip(orphans), head));
      assert Apply(c, first) == Some(c1);
      assert c1.chain[kept..] == orphans[..|orphans| - 1];
      assert ([first] + rest)[1..] == rest;
      CacheStartUndos(capacity, c1, a, kept, head);
    }
  }

  /** One append moves the start of the cache no further than the buffer will be pruned. */
  lemma AppendStart(s: State, c: Consumer, b: Block, kept: nat, capacity: nat, a: nat)
    requires Coupled(s, c) && MayAppend(s, b, kept) && a <= StartOf(s, c) + kept
    ensures CacheStart(capacity, c, a, AppendOutputs(s, b, kept)) == Max(a, StartOf(s, c) + kept + 1 - capacity)
  {
    CutIsFree(s, c, b, kept);
    var orphans := s.canonical[kept..];
    assert orphans == c.chain[StartOf(s, c) + kept..];
    OrphansStart(s, c, b, kept, StartOf(s, c) + kept, capacity, a);
  }

  lemma OrphansStart(s: State, c: Consumer, b: Block, kept: nat, cut: nat, capacity: nat, a: nat)
    requires kept <= |s.canonical| && c.locked <= cut <= |c.chain| && a <= cut && s.canonical[kept..] == c.chain[cut..]
    requires cut > 0 ==> b.parentId == c.chain[cut - 1].blockId
    ensures CacheStart(capacity, c, a, AppendOutputs(s, b, kept)) == Max(a, cut + 1 - capacity)
  {
    var orphans := s.canonical[kept..];
    AppendedStart(c, cut, Buffer(b, s.nextForkId), s.solidifiedHead, capacity, a,
      if orphans == [] then [] else [ForkObserved(ForkObservation(b.height, b.blockId, OrphanIds(orphans)))]);
  }

  lemma AppendedStart(c: Consumer, cut: nat, nb: BufferedBlock, head: Option<Height>, capacity: nat, a: nat,
      tail: seq<Output>)
    requires c.locked <= cut <= |c.chain| && a <= cut
    requires cut > 0 ==> nb.parentId == c.chain[cut - 1].blockId
    requires |tail| <= 1 && (tail != [] ==> tail[0].ForkObserved?)
    ensures CacheStart(capacity, c, a, Undos(c.chain[cut..], head) + [New(Emit(StepNew, nb, head))] + tail)
         == Max(a, cut + 1 - capacity)
  {
    var undos := Undos(c.chain[cut..], head);
    var rest := [New(Emit(StepNew, nb, head))] + tail;
    var c1 := c.(chain := c.chain[..cut]);
    FeedUndos(c, cut, head);
    CacheStartUndos(capacity, c, a, cut, head);
    CacheStartAppend(capacity, c, a, undos, rest);
    Regroup(undos, [New(Emit(StepNew, nb, head))], tail);
    CacheStartPush(capacity, c1, a, nb, head, tail);
  }

  lemma CacheStartPush(capacity: nat, c: Consumer, a: nat, nb: BufferedBlock, head: Option<Height>, tail: seq<Output>)
    requires c.chain != [] ==> nb.parentId == Tip(c.chain).blockId
    requires |tail| <= 1 && (tail != [] ==> tail[0].ForkObserved?)
    ensures CacheStart(capacity, c, a, [New(Emit(StepNew, nb, head))] + tail) == Max(a, |c.chain| + 1 - capacity)
  {
    var rest := [New(Emit(StepNew, nb, head))] + tail;
    assert rest[1..] == tail;
    FeedIdle(c.(chain := c.chain + [nb]), tail);
    CacheStartIdle(capacity, c.(chain := c.chain + [nb]), Max(a, |c.chain| + 1 - capacity), tail);
  }

  lemma FeedIdle(c: Consumer, tail: seq<Output>)
    requires |tail| <= 1 && (tail != [] ==> tail[0].ForkObserved?)
    ensures Feed(c, tail) == Some(c)
  {
    if tail != [] {
      assert tail == [tail[0]];
      FeedOne(c, tail[0]);
    }
  }

  lemma SettleStart(s: State, c: Consumer, capacity: nat, a: nat)
    requires Coupled(s, c)
    ensures CacheStart(capacity, c, a, Settle(s).1) == a
  {
    SettleAccepted(s, c);
    SettleHasNoBlocks(s);
    CacheStartIdle(capacity, c, a, Settle(s).1);
  }

  lemma AdmitCacheStart(cfg: Config, s: State, c: Consumer, b: Block, kept: nat, capacity: nat, a: nat)
    requires Coupled(s, c) && MayAppend(s, b, kept) && a <= StartOf(s, c) + kept
    ensures CacheStart(capacity, c, a, Admit(cfg, s, b, kept).1.value) == Max(a, StartOf(s, c) + kept + 1 - capacity)
  {
    var c1 := c.(chain := Grown(s, c, b, kept));
    AppendStart(s, c, b, kept, capacity, a);
    AppendAccepted(s, c, b, kept);
    CacheStartAppend(capacity, c, a, AppendOutputs(s, b, kept), Settle(Append(s, b, kept)).1);
    SettleStart(Append(s, b, kept), c1, capacity, Max(a, StartOf(s, c) + kept + 1 - capacity));
  }

  /** Where the buffer starts after an append. */
  lemma AdmitBufferStart(cfg: Config, s: State, c: Consumer, b: Block, kept: nat, c': Consumer)
    requires kept <= |s.canonical| <= |c.chain| && c'.chain == Grown(s, c, b, kept)
    ensures StartOf(Admit(cfg, s, b, kept).0, c') == Max(StartOf(s, c), StartOf(s, c) + kept + 1 - cfg.bufferWindow)
  {
  }

  lemma AdmitStart(cfg: Config, s: State, c: Consumer, b: Block, kept: nat, capacity: nat, a: nat, c': Consumer)
    requires Coupled(s, c) && MayAppend(s, b, kept) && a <= StartOf(s, c) && capacity >= cfg.bufferWindow
    requires c'.chain == Grown(s, c, b, kept)
    ensures CacheStart(capacity, c, a, Admit(cfg, s, b, kept).1.value) <= StartOf(Admit(cfg, s, b, kept).0, c')
  {
    AdmitCacheStart(cfg, s, c, b, kept, capacity, a);
    AdmitBufferStart(cfg, s, c, b, kept, c');
  }

  lemma TakeStart(cfg: Config, s: State, c: Consumer, input: Input, capacity: nat, a: nat, c': Consumer)
    requires cfg.Valid() && Coupled(s, c) && a <= StartOf(s, c) && capacity >= cfg.bufferWindow
    requires c'.chain == ChainAfter(s, c, input, Take(cfg, s, input).1)
    ensures CacheStart(capacity, c, a, Emitted(Take(cfg, s, input).1)) <= StartOf(Take(cfg, s, input).0, c')
  {
    match input
    case Solidify(head) =>
      if !(s.solidifiedHead.Some? && head <= s.solidifiedHead.value) {
        SettleStart(s.(solidifiedHead := Some(head)), c, capacity, a);
      }
    case Deliver(b) =>
      AcceptAdmits(cfg, s, b);
      if Accept(cfg, s, b).1.Ok? {
        AdmitStart(cfg, s, c, b, KeptBy(s, b), capacity, a, c');
      } else {
        RefusalKeepsState(cfg, s, b);
      }
  }

  /** A cache at least as large as the buffer window starts no later than the buffer after every call. */
  lemma {:induction false} CacheStartsBeforeBuffer(cfg: Config, inputs: seq<Input>, capacity: nat)
    requires cfg.Valid() && capacity >= cfg.bufferWindow
    ensures CacheStart(capacity, START, 0, Emissions(cfg, inputs)) <= StartOf(After(cfg, inputs), Consumed(cfg, inputs))
  {
    if inputs != [] {
      var (before, last) := (inputs[..|inputs| - 1], inputs[|inputs| - 1]);
      CacheStartsBeforeBuffer(cfg, before, capacity);
      RunStep(cfg, inputs);
      ReplayNeverFails(cfg, before);
      var s := After(cfg, before);
      var a := CacheStart(capacity, START, 0, Emissions(cfg, before));
      CacheStartAppend(capacity, START, 0, Emissions(cfg, before), Emitted(Take(cfg, s, last).1));
      TakeStart(cfg, s, Consumed(cfg, before), last, capacity, a, Consumed(cfg, inputs));
    }
  }

  lemma SuffixCovers(chain: seq<BufferedBlock>, a: nat, start: nat)
    requires Contiguous(chain) && a <= start <= |chain|
    ensures forall b :: b in chain[start..] ==>
      b.height in Suffix(chain, a) && Suffix(chain, a)[b.height] == (b.blockId, b)
  {
    forall b | b in chain[start..]
      ensures b.height in Suffix(chain, a) && Suffix(chain, a)[b.height] == (b.blockId, b)
    {
      var k :| 0 <= k < |chain[start..]| && chain[start..][k] == b;
      SuffixHolds(chain, a, start + k);
    }
  }

  /** After every completed call the cache holds every block of the engine's buffer. */
  lemma CacheCoversBuffer(cfg: Config, inputs: seq<Input>, capacity: nat)
    requires cfg.Valid() && WellFormedInputs(inputs) && capacity >= cfg.bufferWindow
    ensures var m := WriteAll(capacity, map[], Emissions(cfg, inputs));
      forall b :: b in After(cfg, inputs).canonical ==> b.height in m && m[b.height] == (b.blockId, b)
  {
    var outs := Emissions(cfg, inputs);
    ReplayNeverFails(cfg, inputs);
    CacheStartsBeforeBuffer(cfg, inputs, capacity);
    assert outs[..|outs|] == outs;
    CacheIsChainSuffix(cfg, inputs, capacity, |outs|);
    SuffixCovers(Consumed(cfg, inputs).chain, CacheStart(capacity, START, 0, outs),
      StartOf(After(cfg, inputs), Consumed(cfg, inputs)));
  }
}
