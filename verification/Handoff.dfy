/** The hand-off from backfill to live tail: exactly what a subscriber is sent, in every interleaving. */
module Handoff {
  import opened Types
  import opened EngineSpec
  import opened Replay
  import opened Finality
  import opened CacheChain
  import opened Archive
  import opened Archiver
  import opened Backfill
  import opened BackfillLaws
  import opened Hub
  import opened Pipeline
  import opened Delivery

  /** The whole stream a serving request has shipped so far. */
  function Delivered(p: Setup, s: Sys): seq<Response>
    requires s.phase.Serving?
  {
    Shipped(p.encode, s.phase.archived + s.phase.cached, Heard(s.hub, s.phase.seat))
  }

  /** Everything a served request can have seen: what was broadcast, and what the cache had been given when
      the request walked it. */
  ghost function Witnessed(s: Sys): seq<Output>
    requires s.phase.Serving?
  {
    Written(s)[..Min(|Written(s)|, Max(s.phase.walkAt, |s.hub.history|))]
  }

  /** A well-formed run whose events `w` hold no undo since the request subscribed. */
  ghost predicate Quiet(p: Setup, s: Sys, w: seq<Output>) {
    && p.cfg.Valid() && p.capacity > 0 && WellFormedInputs(s.history)
    && s.phase.Serving? && s.phase.seat.joinedAt <= |w| && NoUndo(w[s.phase.seat.joinedAt..])
  }

  /** A request is served against a non-empty cache with at least one row, and it has seen no undo. */
  ghost predicate Served(p: Setup, s: Sys) {
    && s.phase.Serving? && s.phase.window.Some? && (s.phase.archived != [] || s.phase.cached != [])
    && Quiet(p, s, Witnessed(s))
  }

  lemma RunIsCalm(p: Setup, s: Sys, w: seq<Output>, m: nat)
    requires p.cfg.Valid() && WellFormedInputs(s.history) && StreamSound(p, s)
    requires w <= Written(s) && m <= |w| && NoUndo(w[m..])
    ensures Calm(w, m) && w <= Emissions(p.cfg, s.history)
  {
    var all := Emissions(p.cfg, s.history);
    assert w <= all by {
      assert Written(s) <= all;
    }
    ReplayNeverFails(p.cfg, s.history);
    EmissionsWellFormed(p.cfg, s.history);
    assert all[..|w|] == w;
    FeedPrefix(START, all, |w|);
    assert forall i :: 0 <= i < |w| ==> w[i] == all[i];
  }

  lemma HistoryIsWritten(s: Sys)
    ensures s.hub.history <= Written(s)
  {
  }

  /** What the request's receiver was given is the tail of the broadcast since it subscribed. */
  lemma HeardTail(p: Setup, s: Sys)
    requires Inv(p, s) && s.phase.Serving?
    ensures var m := s.phase.seat.joinedAt; m <= |s.hub.history| && Heard(s.hub, s.phase.seat) == s.hub.history[m..]
  {
    assert s.hub.HasTail(s.phase.seat.id);
  }

  lemma WitnessedHolds(p: Setup, s: Sys)
    requires Inv(p, s) && s.phase.Serving?
    ensures Witnessed(s) <= Written(s) && s.phase.walkAt <= |Witnessed(s)|
    ensures s.hub.history <= Witnessed(s)
  {
    HistoryIsWritten(s);
  }

  lemma SameSlice(a: seq<Output>, b: seq<Output>, m: nat)
    requires a <= b && m <= |a|
    ensures a[m..] == b[m..|a|]
  {
  }

  // Against a cache

  ghost function First(p: Setup, s: Sys): Height
    requires s.phase.Serving? && s.phase.window.Some?
  {
    Max(p.start, s.phase.window.value.0)
  }

  /** The events `w` put on the chain, after the archive rows, exactly what was delivered. */
  ghost predicate ExactWarm(p: Setup, s: Sys)
    requires s.phase.Serving? && s.phase.window.Some?
  {
    && s.phase.snapAt <= |Witnessed(s)| && |s.hub.history| <= |Witnessed(s)|
    && Joined(Witnessed(s), s.phase.snapAt, |s.hub.history|, First(p, s), s.phase.archived, Delivered(p, s))
  }

  lemma PrefixOfPrefix(a: seq<Output>, b: seq<Output>, n: nat)
    requires a <= b && n <= |a|
    ensures a[..n] == b[..n]
  {
  }

  lemma PhaseJoined(p: Setup, phase: Phase, w: seq<Output>, seen: seq<Output>, r: nat, joined: seq<nat>,
      events: seq<ArchiveEvent>)
    requires phase.Serving? && PhaseSound(p, phase, w, joined, events)
    requires p.capacity > 0 && phase.window.Some? && (phase.archived != [] || phase.cached != [])
    requires seen <= w && phase.walkAt <= |seen| && phase.seat.joinedAt <= r <= |seen|
      && Calm(seen, phase.seat.joinedAt)
    ensures phase.snapAt <= |seen|
    ensures Joined(seen, phase.snapAt, r, Max(p.start, phase.window.value.0), phase.archived,
      Shipped(p.encode, phase.archived + phase.cached, seen[phase.seat.joinedAt..r]))
  {
    PrefixOfPrefix(seen, w, phase.snapAt);
    PrefixOfPrefix(seen, w, phase.walkAt);
    DeliveredIsSlice(p, seen, phase.seat.joinedAt, phase.snapAt, phase.walkAt, r, phase.window.value.0,
      phase.window.value.1, phase.reading.archive, phase.head, phase.archived, phase.cached);
  }

  lemma ServedIsExact(p: Setup, s: Sys)
    requires Served(p, s) && Inv(p, s)
    ensures ExactWarm(p, s)
  {
    WitnessedHolds(p, s);
    HeardTail(p, s);
    RunIsCalm(p, s, Witnessed(s), s.phase.seat.joinedAt);
    SameSlice(s.hub.history, Witnessed(s), s.phase.seat.joinedAt);
    PhaseJoined(p, s.phase, Written(s), Witnessed(s), |s.hub.history|, s.hub.joined, s.events);
  }

  lemma WindowOrdered(m: Cached)
    requires WindowOf(m).Some?
    ensures WindowOf(m).value.0 <= WindowOf(m).value.1
  {
  }

  /** The archive rows of a served request: New responses with rising heights that end just below the cache. */
  ghost predicate ArchivePart(archived: seq<Response>, h: Height, mn: Height) {
    Named(archived) && StrictlyAscending(Nums(archived)) && Meets(archived, h, mn)
  }

  lemma ServedArchive(p: Setup, s: Sys)
    requires Inv(p, s) && s.phase.Serving? && s.phase.window.Some?
    ensures ArchivePart(s.phase.archived, p.start, s.phase.window.value.0)
  {
    var (mn, mx) := s.phase.window.value;
    WindowOrdered(WriteAll(p.capacity, map[], Written(s)[..s.phase.snapAt]));
    ArchiveJoins(p, s.phase.reading.archive, mn, mx, WriteAll(p.capacity, map[], Written(s)[..s.phase.walkAt]),
      s.phase.archived, s.phase.cached, s.phase.head);
    ArchiveStageSound(p.decode, s.phase.reading.archive, mn, mx, p.start);
    StageNames(p.decode, s.phase.reading.archive, s.phase.window, p.start);
  }

  /** The hand-off, in every interleaving of engine calls, cache writes, sends, broadcasts, archiver steps,
      subscriptions, snapshot and walk: what a served request has delivered so far are the archive rows,
      which end just below the cache, and then exactly one slice of the replayed chain, each block once,
      without gap or repeat across cache walk and live tail. */
  lemma HandoffIsExact(p: Setup, actions: seq<Action>)
    requires Served(p, Exec(p, actions))
    ensures ExactWarm(p, Exec(p, actions))
    ensures var s := Exec(p, actions); ArchivePart(s.phase.archived, p.start, s.phase.window.value.0)
  {
    ExecKeeps(p, actions);
    ServedArchive(p, Exec(p, actions));
    ServedIsExact(p, Exec(p, actions));
  }

  /** Consequently heights ascend, nothing is repeated, and from the end of the archive rows on there is
      no gap. */
  lemma HandoffIsGapless(p: Setup, actions: seq<Action>)
    requires Served(p, Exec(p, actions))
    ensures var s := Exec(p, actions);
      Ascends(Delivered(p, s), |s.phase.archived|, First(p, s))
  {
    HandoffIsExact(p, actions);
    ServedIsGapless(p, Exec(p, actions));
  }

  lemma ServedIsGapless(p: Setup, s: Sys)
    requires s.phase.Serving? && s.phase.window.Some? && ExactWarm(p, s)
    requires ArchivePart(s.phase.archived, p.start, s.phase.window.value.0)
    ensures Ascends(Delivered(p, s), |s.phase.archived|, First(p, s))
  {
    ExactIsGapless(Witnessed(s), s.phase.snapAt, |s.hub.history|, s.phase.archived, Delivered(p, s), p.start,
      s.phase.window.value.0);
  }

  lemma ExactIsGapless(w: seq<Output>, snapAt: nat, heard: nat, archived: seq<Response>, delivered: seq<Response>,
      h: Height, mn: Height)
    requires snapAt <= |w| && heard <= |w| && Joined(w, snapAt, heard, Max(h, mn), archived, delivered)
    requires ArchivePart(archived, h, mn)
    ensures Ascends(delivered, |archived|, Max(h, mn))
  {
    var chain := ChainAt(w, |w|);
    var (lo, hi) := (Max(h, mn) - chain[0].height, Max(|ChainAt(w, snapAt)|, |ChainAt(w, heard)|));
    GaplessJoin(NewNames(archived), archived, chain[lo..hi], h, mn);
  }

  lemma {:induction false} GaplessJoin(a: seq<Name>, archived: seq<Response>, blocks: seq<BufferedBlock>, h: Height,
      mn: Height)
    requires NamesOf(a, archived) && StrictlyAscending(Nums(archived)) && Meets(archived, h, mn)
    requires forall i :: 0 <= i < |blocks| ==> blocks[i].height == Max(h, mn) + i
    ensures Gapless(a + ChainNames(blocks), |archived|, Max(h, mn))
  {
    NamesOfChain(blocks);
    var names := a + ChainNames(blocks);
    forall i, j | 0 <= i < j < |names| ensures names[i].0 < names[j].0 {
      if j < |a| {
        assert Nums(archived)[i] < Nums(archived)[j];
      } else if i < |a| - 1 {
        assert Nums(archived)[i] < Nums(archived)[|a| - 1];
      }
    }
  }

  // Starting right above the cache

  /** A request is served without a single row: its start is one above the highest height in its snapshot. The
      live tail is then not filtered at all. It has seen no undo. */
  ghost predicate ServedAtTip(p: Setup, s: Sys) {
    && s.phase.Serving? && s.phase.window.Some? && s.phase.archived == [] && s.phase.cached == []
    && Quiet(p, s, Witnessed(s))
  }

  /** The chains of such a request: when it subscribed, at its snapshot, and as heard so far. */
  ghost function TipChains(s: Sys): (seq<BufferedBlock>, seq<BufferedBlock>, seq<BufferedBlock>)
    requires s.phase.Serving? && s.phase.seat.joinedAt <= |Witnessed(s)| && s.phase.snapAt <= |Witnessed(s)|
    requires |s.hub.history| <= |Witnessed(s)|
  {
    var w := Witnessed(s);
    (ChainAt(w, s.phase.seat.joinedAt), ChainAt(w, s.phase.snapAt), ChainAt(w, |s.hub.history|))
  }

  ghost predicate InView(s: Sys)
    requires s.phase.Serving?
  {
    s.phase.seat.joinedAt <= s.phase.snapAt <= |Witnessed(s)| && |s.hub.history| <= |Witnessed(s)|
  }

  /** It starts where the chain of its snapshot ends, and is sent all that the chain gained since it
      subscribed. */
  ghost predicate ExactAtTip(p: Setup, s: Sys)
    requires s.phase.Serving? && InView(s)
  {
    var (sub, snap, here) := TipChains(s);
    && snap != [] && sub <= snap && sub <= here && Contiguous(here) && Linked(here)
    && p.start == snap[0].height + |snap|
    && Ships(Delivered(p, s), here[|sub|..])
  }

  /** No block was heard yet, or the snapshot held none that had not been broadcast at the subscription. */
  ghost predicate NothingBetween(s: Sys)
    requires s.phase.Serving? && InView(s)
  {
    var (sub, snap, here) := TipChains(s);
    |sub| < |here| ==> |sub| == |snap|
  }

  lemma TipStart(p: Setup, w: seq<Output>, m: nat, ns: nat, nw: nat, mn: Height, mx: Height, head: Option<Height>)
    requires p.capacity > 0 && Calm(w, m) && m <= ns <= nw <= |w|
    requires WindowOf(WriteAll(p.capacity, map[], w[..ns])) == Some((mn, mx))
    requires CacheStage(p.encode, Some((mn, mx)), WriteAll(p.capacity, map[], w[..nw]), [], p.start, head) == Ok([])
    ensures var snap := ChainAt(w, ns); snap != [] && p.start == snap[0].height + |snap|
    ensures ChainAt(w, m) <= ChainAt(w, ns)
  {
    ViewsOf(w, m, p.capacity, ns, nw, mn, mx);
    CalmGrows(w, m, m, ns);
    WritesKeyed(p.capacity, map[], w[..nw]);
    CacheStageExact(p.encode, mn, mx, WriteAll(p.capacity, map[], w[..nw]), [], p.start, head);
  }

  lemma PhaseAtTip(p: Setup, phase: Phase, w: seq<Output>, seen: seq<Output>, r: nat, joined: seq<nat>,
      events: seq<ArchiveEvent>)
    requires phase.Serving? && PhaseSound(p, phase, w, joined, events)
    requires p.capacity > 0 && phase.window.Some? && phase.archived == [] && phase.cached == []
    requires seen <= w && phase.walkAt <= |seen| && phase.seat.joinedAt <= r <= |seen|
      && Calm(seen, phase.seat.joinedAt)
    ensures phase.seat.joinedAt <= phase.snapAt <= |seen|
    ensures var (sub, snap, here) :=
      (ChainAt(seen, phase.seat.joinedAt), ChainAt(seen, phase.snapAt), ChainAt(seen, r));
      && snap != [] && sub <= snap && sub <= here && Contiguous(here) && Linked(here)
      && p.start == snap[0].height + |snap|
      && Ships(LiveTail(p.encode, seen[phase.seat.joinedAt..r], None), here[|sub|..])
  {
    PrefixOfPrefix(seen, w, phase.snapAt);
    PrefixOfPrefix(seen, w, phase.walkAt);
    TipStart(p, seen, phase.seat.joinedAt, phase.snapAt, phase.walkAt, phase.window.value.0, phase.window.value.1,
      phase.head);
    UnfilteredPart(p.encode, seen, phase.seat.joinedAt, r);
  }

  lemma EmptyBackfill(encode: Encoder, heard: seq<Output>)
    ensures Shipped(encode, [] + [], heard) == LiveTail(encode, heard, None)
  {
    assert [] + LiveTail(encode, heard, None) == LiveTail(encode, heard, None);
  }

  lemma TipIsExact(p: Setup, s: Sys)
    requires ServedAtTip(p, s) && Inv(p, s)
    ensures InView(s) && ExactAtTip(p, s)
  {
    WitnessedHolds(p, s);
    HeardTail(p, s);
    RunIsCalm(p, s, Witnessed(s), s.phase.seat.joinedAt);
    SameSlice(s.hub.history, Witnessed(s), s.phase.seat.joinedAt);
    PhaseAtTip(p, s.phase, Written(s), Witnessed(s), |s.hub.history|, s.hub.joined, s.events);
    EmptyBackfill(p.encode, Heard(s.hub, s.phase.seat));
  }

  /** The slice begins at the start exactly when it begins where the snapshot's chain ends. */
  lemma TipGaps(delivered: seq<Response>, sub: seq<BufferedBlock>, snap: seq<BufferedBlock>, here: seq<BufferedBlock>,
      h: Height)
    requires snap != [] && sub <= snap && sub <= here && Contiguous(here) && h == snap[0].height + |snap|
    requires sub == [] && here != [] ==> here[0].height == snap[0].height
    requires Ships(delivered, here[|sub|..])
    ensures FreeOfGaps(delivered, h) <==> (|sub| < |here| ==> |sub| == |snap|)
  {
    var blocks := here[|sub|..];
    NamesOfChain(blocks);
    if |sub| < |here| {
      assert here[0].height == snap[0].height;
      assert blocks[0] == here[|sub|] && here[|sub|].height == here[0].height + |sub|;
      assert NewNames(delivered)[0].0 == here[0].height + |sub|;
      forall i | 0 <= i < |blocks| ensures NewNames(delivered)[i].0 == here[0].height + |sub| + i {
        assert blocks[i] == here[|sub| + i];
      }
    }
  }

  /** Two chains of one stream, one a prefix of the other, begin at the same height. */
  lemma SameBase(w: seq<Output>, m: nat, i: nat, j: nat)
    requires Calm(w, m) && m <= i <= |w| && m <= j <= |w| && ChainAt(w, i) != [] && ChainAt(w, j) != []
    ensures ChainAt(w, i)[0] == ChainAt(w, j)[0]
  {
    if i <= j {
      CalmGrows(w, m, i, j);
    } else {
      CalmGrows(w, m, j, i);
    }
  }

  lemma TipGapsIff(p: Setup, s: Sys)
    requires ServedAtTip(p, s) && Inv(p, s) && InView(s) && ExactAtTip(p, s)
    ensures FreeOfGaps(Delivered(p, s), p.start) <==> NothingBetween(s)
  {
    var (w, m) := (Witnessed(s), s.phase.seat.joinedAt);
    WitnessedHolds(p, s);
    HeardTail(p, s);
    RunIsCalm(p, s, w, m);
    var (sub, snap, here) := TipChains(s);
    if here != [] {
      SameBase(w, m, s.phase.snapAt, |s.hub.history|);
    }
    TipGaps(Delivered(p, s), sub, snap, here, p.start);
  }

  /** The hand-off of a request that starts right above the cache, as one that resumes with the tip's own cursor
      does, in every interleaving. It is sent every block the chain gained since it subscribed; and these run
      without gaps from its start exactly when nothing was heard yet or its snapshot held no block that had not
      been broadcast when it subscribed. Otherwise it is sent blocks below its start. */
  lemma TipHandoffIff(p: Setup, actions: seq<Action>)
    requires ServedAtTip(p, Exec(p, actions))
    ensures InView(Exec(p, actions)) && ExactAtTip(p, Exec(p, actions))
    ensures FreeOfGaps(Delivered(p, Exec(p, actions)), p.start) <==> NothingBetween(Exec(p, actions))
  {
    ExecKeeps(p, actions);
    TipIsExact(p, Exec(p, actions));
    TipGapsIff(p, Exec(p, actions));
  }

  // Without a start

  /** A request without a start that has heard no undo. */
  ghost predicate TailsQuietly(p: Setup, s: Sys) {
    && p.cfg.Valid() && WellFormedInputs(s.history)
    && s.phase.Tailing? && s.phase.seat.joinedAt <= |s.hub.history| && NoUndo(s.hub.history[s.phase.seat.joinedAt..])
  }

  /** A request without a start is sent exactly the blocks the chain gained since it subscribed. */
  lemma TailIsChain(p: Setup, actions: seq<Action>)
    requires TailsQuietly(p, Exec(p, actions))
    ensures var s := Exec(p, actions);
      var (sub, here) := (ChainAt(s.hub.history, s.phase.seat.joinedAt), ChainHeard(s));
      && sub <= here && Contiguous(here) && Linked(here)
      && Ships(Shipped(p.encode, [], Heard(s.hub, s.phase.seat)), here[|sub|..])
  {
    var s := Exec(p, actions);
    var (history, m) := (s.hub.history, s.phase.seat.joinedAt);
    ExecKeeps(p, actions);
    assert s.hub.HasTail(s.phase.seat.id);
    HistoryIsWritten(s);
    RunIsCalm(p, s, history, m);
    UnfilteredPart(p.encode, history, m, |history|);
    assert history[m..|history|] == history[m..];
    EmptyBackfill(p.encode, history[m..]);
  }

  // With nothing cached

  /** A request is served although nothing was cached when it took its snapshot, and it has heard no undo. */
  ghost predicate ServedCold(p: Setup, s: Sys) {
    s.phase.Serving? && s.phase.window.None? && Quiet(p, s, s.hub.history)
  }

  /** The height of the last archive row. */
  ghost function LastRow(s: Sys): Height
    requires s.phase.Serving? && s.phase.archived != []
  {
    s.phase.archived[|s.phase.archived| - 1].num
  }

  ghost function ChainHeard(s: Sys): seq<BufferedBlock> {
    ChainAt(s.hub.history, |s.hub.history|)
  }

  /** How long the chain was when the request subscribed. */
  ghost function LengthBefore(s: Sys): nat
    requires s.phase.Serving?
  {
    if s.phase.seat.joinedAt <= |s.hub.history| then |ChainAt(s.hub.history, s.phase.seat.joinedAt)| else 0
  }

  /** The archive rows, and then the chain blocks heard that are above the last of them. */
  ghost predicate ExactCold(p: Setup, s: Sys)
    requires s.phase.Serving?
  {
    && s.phase.archived != [] && s.phase.cached == []
    && Contiguous(ChainHeard(s)) && Linked(ChainHeard(s)) && LengthBefore(s) <= |ChainHeard(s)|
    && ShipsAfter(Delivered(p, s), s.phase.archived,
        From(ChainHeard(s), Max(LengthBefore(s), Reached(ChainHeard(s), Some(LastRow(s))))))
  }

  /** Every New response is one above the one before it, beginning at the start. */
  ghost predicate FreeOfGaps(rs: seq<Response>, h: Height) {
    forall i :: 0 <= i < |NewNames(rs)| ==> NewNames(rs)[i].0 == h + i
  }

  lemma ColdParts(p: Setup, s: Sys)
    requires Inv(p, s) && s.phase.Serving? && s.phase.window.None?
    ensures s.phase.archived != [] && s.phase.cached == [] && Named(s.phase.archived)
    ensures s.phase.reading.archive.Some?
    ensures Consecutive(Nums(s.phase.archived), p.start)
      <==> ArchiveCovers(p.decode, s.phase.reading.archive, p.start, LastRow(s) + 1)
  {
    var archive := s.phase.reading.archive;
    StageNames(p.decode, archive, s.phase.window, p.start);
    CoversIff(p.decode, archive.value, p.start, TopOf(archive.value).value, LastRow(s));
  }

  lemma ColdIsExact(p: Setup, s: Sys)
    requires Inv(p, s) && ServedCold(p, s)
    ensures ExactCold(p, s)
  {
    var (history, m) := (s.hub.history, s.phase.seat.joinedAt);
    ColdParts(p, s);
    HeardTail(p, s);
    HistoryIsWritten(s);
    RunIsCalm(p, s, history, m);
    ColdLive(p.encode, history, m, LastRow(s));
    NamesOfTwo(p.encode, s.phase.archived, s.phase.cached, history[m..],
      From(ChainHeard(s), Max(LengthBefore(s), Reached(ChainHeard(s), Some(LastRow(s))))));
  }

  lemma ColdLive(encode: Encoder, w: seq<Output>, m: nat, tip: Height)
    requires Calm(w, m)
    ensures var (before, chain) := (|ChainAt(w, m)|, ChainAt(w, |w|));
      && Contiguous(chain) && Linked(chain) && before <= |chain|
      && Ships(LiveTail(encode, w[m..], Some(tip)), From(chain, Max(before, Reached(chain, Some(tip)))))
  {
    CalmChain(w, m, |w|);
    CalmGrows(w, m, m, |w|);
    assert w[m..|w|] == w[m..] && w[..|w|] == w;
    var chain := ChainAt(w, |w|);
    LiveIsChain(encode, Feed(START, w[..m]).value, w[m..], Some(tip), Max(|ChainAt(w, m)|, Reached(chain, Some(tip))));
  }

  lemma NamesOfTwo(encode: Encoder, archived: seq<Response>, cached: seq<Response>, heard: seq<Output>,
      blocks: seq<BufferedBlock>)
    requires archived != [] && cached == []
    requires Ships(LiveTail(encode, heard, Some(archived[|archived| - 1].num)), blocks)
    ensures ShipsAfter(Shipped(encode, archived + cached, heard), archived, blocks)
  {
    assert archived + cached == archived;
    NewNamesAppend(archived, LiveTail(encode, heard, Some(archived[|archived| - 1].num)));
  }

  /** The archive covers everything from the start to its last row served, and the first chain block heard,
      if any, is no more than one above that row. The server checks neither. */
  ghost predicate Seamless(p: Setup, s: Sys)
    requires s.phase.Serving? && s.phase.archived != []
  {
    && ArchiveCovers(p.decode, s.phase.reading.archive, p.start, LastRow(s) + 1)
    && (LengthBefore(s) < |ChainHeard(s)| ==> ChainHeard(s)[LengthBefore(s)].height <= LastRow(s) + 1)
  }

  lemma ColdGapsIff(p: Setup, s: Sys)
    requires Inv(p, s) && s.phase.Serving? && s.phase.window.None? && ExactCold(p, s)
    ensures FreeOfGaps(Delivered(p, s), p.start) <==> Seamless(p, s)
  {
    ColdParts(p, s);
    ColdGaps(Delivered(p, s), s.phase.archived, ChainHeard(s), LengthBefore(s), p.start, LastRow(s));
  }

  /** The hand-off with nothing cached at the snapshot, in every interleaving. What is delivered are the
      archive rows and then the chain blocks heard above the last of them; and this is free of gaps exactly
      when the archive has no hole up to that row and the live tail begins no later than right above it. */
  lemma ColdHandoffIff(p: Setup, actions: seq<Action>)
    requires ServedCold(p, Exec(p, actions))
    ensures ExactCold(p, Exec(p, actions))
    ensures FreeOfGaps(Delivered(p, Exec(p, actions)), p.start) <==> Seamless(p, Exec(p, actions))
  {
    ExecKeeps(p, actions);
    ColdIsExact(p, Exec(p, actions));
    ColdGapsIff(p, Exec(p, actions));
  }

  lemma {:induction false} ColdGaps(delivered: seq<Response>, archived: seq<Response>, chain: seq<BufferedBlock>,
      before: nat, h: Height, last: Height)
    requires Named(archived) && archived != [] && archived[|archived| - 1].num == last
    requires Contiguous(chain) && before <= |chain|
    requires ShipsAfter(delivered, archived, From(chain, Max(before, Reached(chain, Some(last)))))
    ensures FreeOfGaps(delivered, h) <==>
      Consecutive(Nums(archived), h) && (before < |chain| ==> chain[before].height <= last + 1)
  {
    var k := Max(before, Reached(chain, Some(last)));
    var blocks := From(chain, k);
    JoinGaps(delivered, archived, blocks, h);
    assert blocks != [] ==> blocks[0] == chain[k];
    if before < |chain| {
      assert chain[before].height == chain[0].height + before;
    }
  }

  lemma {:induction false} JoinGaps(delivered: seq<Response>, archived: seq<Response>, blocks: seq<BufferedBlock>,
      h: Height)
    requires Named(archived) && archived != [] && Contiguous(blocks)
    requires ShipsAfter(delivered, archived, blocks)
    ensures FreeOfGaps(delivered, h) <==>
      Consecutive(Nums(archived), h) && (blocks != [] ==> blocks[0].height == archived[|archived| - 1].num + 1)
  {
    NamesOfChain(blocks);
    var (names, n) := (NewNames(delivered), |archived|);
    if FreeOfGaps(delivered, h) {
      forall i | 0 <= i < n ensures Nums(archived)[i] == h + i {
        assert names[i] == NewNames(archived)[i];
      }
      if blocks != [] {
        assert names[n] == ChainNames(blocks)[0] && names[n - 1] == NewNames(archived)[n - 1];
      }
    }
    if Consecutive(Nums(archived), h) && (blocks != [] ==> blocks[0].height == archived[n - 1].num + 1) {
      assert Nums(archived)[n - 1] == h + n - 1;
      forall i | 0 <= i < |names| ensures names[i].0 == h + i {
        if i < n {
          assert names[i] == NewNames(archived)[i] && Nums(archived)[i] == h + i;
        } else {
          assert names[i] == ChainNames(blocks)[i - n];
        }
      }
    }
  }
}
