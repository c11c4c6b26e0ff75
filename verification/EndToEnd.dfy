/** From archiver to subscriber: when the walk reads this relayer's own archive, everything delivered is one
    slice of the chain. */
module EndToEnd {
  import opened Types
  import opened EngineSpec
  import opened Replay
  import opened Finality
  import opened FinalStream
  import opened Archive
  import opened Archiver
  import opened Backfill
  import opened BackfillLaws
  import opened Hub
  import opened Pipeline
  import opened Delivery
  import opened Handoff

  /** Whatever is encoded decodes. */
  ghost predicate Readable(p: Setup) {
    forall b, f :: p.decode(p.encode(b, f)).Some?
  }

  // A table of consecutive finals

  ghost predicate Rises(finals: seq<StreamableBlock>, base: Height) {
    forall i :: 0 <= i < |finals| ==> finals[i].block.height == base + i
  }

  /** The rows of consecutive finals are exactly theirs, each under its height. */
  lemma {:induction false} RowsExactly(encode: Encoder, finals: seq<StreamableBlock>, base: Height, k: Height)
    requires Rises(finals, base)
    ensures k in RowsOf(encode, finals) <==> base <= k < base + |finals|
    ensures k in RowsOf(encode, finals) ==>
      var s := finals[k - base]; RowsOf(encode, finals)[k] == PackValue(s.block.blockId, encode(s.block, s.finality))
  {
    if finals != [] {
      var n := |finals| - 1;
      assert finals[n].block.height == base + n;
      RowsExactly(encode, finals[..n], base, k);
    }
  }

  /** The table holds, for each height of a stretch of the chain, a readable value with the block's id. */
  ghost predicate Mirrors(decode: Decoder, table: Table, chain: seq<BufferedBlock>, d: nat, n: nat) {
    && d <= n <= |chain|
    && (forall k :: k in table <==> chain != [] && chain[0].height + d <= k < chain[0].height + n)
    && (forall k :: k in table ==>
        Decodes(decode, table, k) && UnpackValue(k, table[k]).value.blockId == chain[k - chain[0].height].blockId)
  }

  lemma RowsMirror(p: Setup, finals: seq<StreamableBlock>, chain: seq<BufferedBlock>, d: nat, table: Table)
    requires Readable(p) && Contiguous(chain) && d <= |finals| <= |chain|
    requires forall i :: 0 <= i < |finals| ==> finals[i].block == chain[i]
    requires table == RowsOf(p.encode, finals[d..])
    ensures Mirrors(p.decode, table, chain, d, |finals|)
  {
    if d < |finals| {
      StretchMirrors(p, finals, chain, d, table);
    } else {
      assert finals[d..] == [];
    }
  }

  lemma StretchMirrors(p: Setup, finals: seq<StreamableBlock>, chain: seq<BufferedBlock>, d: nat, table: Table)
    requires Readable(p) && Contiguous(chain) && d < |finals| <= |chain|
    requires forall i :: 0 <= i < |finals| ==> finals[i].block == chain[i]
    requires table == RowsOf(p.encode, finals[d..])
    ensures Mirrors(p.decode, table, chain, d, |finals|)
  {
    var from: Height := chain[d].height;
    assert from == chain[0].height + d;
    assert forall i :: 0 <= i < |finals[d..]| ==> finals[d..][i].block == chain[d + i];
    forall k: Height ensures k in table <==> from <= k < from + |finals[d..]| {
      RowsExactly(p.encode, finals[d..], from, k);
    }
    forall k: Height | k in table
      ensures Decodes(p.decode, table, k)
        && UnpackValue(k, table[k]).value.blockId == chain[k - chain[0].height].blockId
    {
      RowsExactly(p.encode, finals[d..], from, k);
      var s := finals[d..][k - from];
      assert s.block == chain[d + (k - from)];
      PackRoundTrip(k, s.block.blockId, p.encode(s.block, s.finality), []);
    }
  }

  // The rows a walk serves from it

  lemma {:induction false} ProjectedIds(decode: Decoder, rows: seq<Row>, i: nat)
    requires i < |Projected(decode, rows)|
    ensures exists j :: (
      && 0 <= j < |rows|
      && rows[j].height == Projected(decode, rows)[i].num && rows[j].blockId == Projected(decode, rows)[i].blockId)
  {
    var n := |rows| - 1;
    if i < |Projected(decode, rows[..n])| {
      ProjectedIds(decode, rows[..n], i);
      var j :| 0 <= j < n && rows[..n][j].height == Projected(decode, rows)[i].num
        && rows[..n][j].blockId == Projected(decode, rows)[i].blockId;
      assert rows[j] == rows[..n][j];
    } else {
      assert rows[n].height == Projected(decode, rows)[i].num;
    }
  }

  /** Each row a walk serves carries the id stored at its height. */
  lemma WalkIds(decode: Decoder, table: Table, lo: Height, hi: Height, i: nat)
    requires ArchiveWalked(decode, table, lo, hi).Ok? && i < |ArchiveWalked(decode, table, lo, hi).value|
    ensures var r := ArchiveWalked(decode, table, lo, hi).value[i];
      r.num in table && UnpackValue(r.num, table[r.num]).Ok?
        && r.blockId == UnpackValue(r.num, table[r.num]).value.blockId
  {
    var rows := Scan(table, lo, hi, ARCHIVE_WALK_LIMIT).value;
    ScanExact(table, lo, hi, ARCHIVE_WALK_LIMIT);
    ProjectedIds(decode, rows, i);
    var r := ArchiveWalked(decode, table, lo, hi).value[i];
    var j :| 0 <= j < |rows| && rows[j].height == r.num && rows[j].blockId == r.blockId;
    PackRoundTrip(r.num, rows[j].blockId, rows[j].payload, []);
  }

  /** The first row a walk serves is its lowest, and the start itself when that is stored. */
  lemma FirstRow(decode: Decoder, table: Table, lo: Height, hi: Height)
    requires ArchiveWalked(decode, table, lo, hi).Ok?
    requires forall k :: k in table ==> Decodes(decode, table, k)
    requires Nums(ArchiveWalked(decode, table, lo, hi).value) != []
    ensures var nums := Nums(ArchiveWalked(decode, table, lo, hi).value);
      && (forall m :: m in nums ==> lo <= nums[0] <= m)
      && (lo in table && lo <= nums[|nums| - 1] ==> nums[0] == lo)
  {
    var nums := Nums(ArchiveWalked(decode, table, lo, hi).value);
    WalkSound(decode, table, lo, hi);
    assert nums[0] in nums && nums[|nums| - 1] in nums;
    forall m | m in nums ensures nums[0] <= m {
      var j :| 0 <= j < |nums| && nums[j] == m;
    }
    if lo in table && lo <= nums[|nums| - 1] {
      WalkComplete(decode, table, lo, hi, lo);
    }
  }

  lemma MirrorCovers(decode: Decoder, table: Table, chain: seq<BufferedBlock>, d: nat, n: nat, first: Height,
      last: Height)
    requires Mirrors(decode, table, chain, d, n) && first in table && last in table
    ensures ArchiveCovers(decode, Some(table), first, last + 1)
  {
  }

  /** The rows carry the heights and ids of the chain from position `a` on. */
  ghost predicate Matches(rows: seq<Response>, chain: seq<BufferedBlock>, a: nat) {
    && a + |rows| <= |chain|
    && forall i :: 0 <= i < |rows| ==> rows[i].num == chain[a + i].height && rows[i].blockId == chain[a + i].blockId
  }

  /** Rows served from a mirrored stretch, up to height `last`, are one slice of the chain. */
  lemma WalkIsChain(decode: Decoder, table: Table, chain: seq<BufferedBlock>, d: nat, n: nat, lo: Height, hi: Height,
      walked: seq<Response>, last: Height) returns (a: nat)
    requires Mirrors(decode, table, chain, d, n) && Contiguous(chain)
      && ArchiveWalked(decode, table, lo, hi) == Ok(walked)
    requires walked != [] && walked[|walked| - 1].num == last
    ensures chain != [] && a + |walked| == last + 1 - chain[0].height && Matches(walked, chain, a)
    ensures lo in table && lo <= last ==> chain[a].height == lo
  {
    var nums := Nums(walked);
    WalkSound(decode, table, lo, hi);
    FirstRow(decode, table, lo, hi);
    assert nums[0] in nums && nums[|nums| - 1] in nums;
    MirrorCovers(decode, table, chain, d, n, nums[0], last);
    CoversConsecutive(decode, table, lo, hi, nums[0], last);
    a := nums[0] - chain[0].height;
    assert nums[|nums| - 1] == nums[0] + |nums| - 1;
    WalkedIds(decode, table, chain, d, n, lo, hi, walked, nums[0], a);
  }

  lemma WalkedIds(decode: Decoder, table: Table, chain: seq<BufferedBlock>, d: nat, n: nat, lo: Height, hi: Height,
      walked: seq<Response>, first: Height, a: nat)
    requires Mirrors(decode, table, chain, d, n) && Contiguous(chain) && chain != []
      && ArchiveWalked(decode, table, lo, hi) == Ok(walked)
    requires first == chain[0].height + a && Consecutive(Nums(walked), first) && a + |walked| <= |chain|
    ensures Matches(walked, chain, a)
  {
    forall i | 0 <= i < |walked|
      ensures walked[i].num == chain[a + i].height && walked[i].blockId == chain[a + i].blockId
    {
      assert Nums(walked)[i] == first + i;
      WalkIds(decode, table, lo, hi, i);
    }
  }

  lemma {:induction false} SliceShips(rows: seq<Response>, chain: seq<BufferedBlock>, a: nat, b: nat)
    requires Named(rows) && Matches(rows, chain, a) && b == a + |rows|
    ensures a <= b <= |chain| && Ships(rows, chain[a..b])
  {
    NamesOfChain(chain[a..b]);
    assert forall i :: 0 <= i < |rows| ==> NewNames(rows)[i] == ChainNames(chain[a..b])[i];
  }

  // The archiver's own table

  lemma {:induction false} OutputsPrefix(events: seq<ArchiveEvent>, n: nat)
    requires n <= |events|
    ensures OutputsOf(events[..n]) <= OutputsOf(events)
  {
    if n < |events| {
      OutputsPrefix(events[..|events| - 1], n);
      assert events[..|events| - 1][..n] == events[..n];
    } else {
      assert events[..n] == events;
    }
  }

  /** The finals of a prefix of a run are the first blocks of the chain at every later point. */
  lemma FinalsAreFirst(cfg: Config, inputs: seq<Input>, outs: seq<Output>, seen: seq<Output>)
    requires cfg.Valid() && WellFormedInputs(inputs) && NothingLost(cfg, inputs)
    requires outs <= seen <= Emissions(cfg, inputs)
    ensures var (finals, chain) := (FinalEvents(outs), ChainAt(seen, |seen|));
      |finals| <= |chain| && forall i :: 0 <= i < |finals| ==> finals[i].block == chain[i]
  {
    var all := Emissions(cfg, inputs);
    ReplayNeverFails(cfg, inputs);
    assert all[..|seen|] == seen && all[..|outs|] == outs && seen[..|outs|] == outs && seen[..|seen|] == seen;
    FeedPrefix(START, all, |seen|);
    FeedPrefix(START, seen, |outs|);
    FinalsOnChain(outs);
    var (c, c1, c2) := (Feed(START, outs).value, Feed(START, seen).value, Feed(START, all).value);
    FeedKeepsFinal(c, seen[|outs|..]);
    FinalsOnChain(seen);
    FeedKeepsFinal(c1, all[|seen|..]);
    FinalsBeginChain(cfg, inputs, |outs|);
    BlocksBeginChain(outs, c2.chain);
    RunMarked(cfg, inputs);
    LinkedIsContiguous(c2.chain);
    LockedAgree(c.chain, c1.chain, c2.chain, c.locked, c1.locked);
    FinalsWithin(FinalEvents(outs), c.chain, c2.chain, c.locked);
    var finals := FinalEvents(outs);
    forall i | 0 <= i < |finals| ensures finals[i].block == c1.chain[i] {
      assert BlocksOf(finals)[i] == c2.chain[..|finals|][i];
      assert c1.chain[..c.locked][i] == c2.chain[..c.locked][i];
    }
  }

  lemma LockedAgree(a: seq<BufferedBlock>, b: seq<BufferedBlock>, c: seq<BufferedBlock>, n: nat, m: nat)
    requires n <= m && n <= |a| && m <= |b| && m <= |c| && a[..n] == b[..n] && b[..m] == c[..m]
    ensures a[..n] == b[..n] == c[..n]
  {
    assert b[..n] == b[..m][..n] == c[..m][..n] == c[..n];
  }

  lemma FinalsWithin(finals: seq<StreamableBlock>, chain: seq<BufferedBlock>, later: seq<BufferedBlock>, locked: nat)
    requires locked <= |chain| && locked <= |later| && chain[..locked] == later[..locked] && Contiguous(later)
    requires |finals| <= |later| && BlocksOf(finals) == later[..|finals|]
    requires forall i :: 0 <= i < |finals| ==> finals[i].block in chain[..locked]
    ensures |finals| <= locked
  {
    if finals != [] {
      var n := |finals| - 1;
      assert BlocksOf(finals)[n] == later[n];
      var j :| 0 <= j < locked && chain[..locked][j] == finals[n].block;
      assert later[..locked][j] == later[n];
      assert later[j].height == later[0].height + j;
    }
  }

  /** What the walk reads from the archiver's table mirrors a stretch of the chain the request sees. */
  lemma OwnTableMirrors(p: Setup, inputs: seq<Input>, events: seq<ArchiveEvent>, seen: seq<Output>)
    requires p.cfg.Valid() && WellFormedInputs(inputs) && NothingLost(p.cfg, inputs) && Readable(p)
    requires OutputsOf(events) <= seen <= Emissions(p.cfg, inputs) && Contiguous(ChainAt(seen, |seen|))
    ensures Mirrors(p.decode, ArchiveAll(p.encode, map[], events), ChainAt(seen, |seen|), Expired(events),
      |FinalEvents(OutputsOf(events))|)
  {
    ArchiveIsFinal(p.cfg, inputs, p.encode, events);
    FinalsAreFirst(p.cfg, inputs, OutputsOf(events), seen);
    RowsMirror(p, FinalEvents(OutputsOf(events)), ChainAt(seen, |seen|), Expired(events),
      ArchiveAll(p.encode, map[], events));
  }

  // End to end

  /** Everything delivered is one stretch of the linked, contiguous chain. */
  ghost predicate OneSlice(chain: seq<BufferedBlock>, delivered: seq<Response>, lo: nat, hi: nat) {
    Contiguous(chain) && Linked(chain) && lo < hi <= |chain| && Ships(delivered, chain[lo..hi])
  }

  lemma OneSliceJoins(delivered: seq<Response>, archived: seq<Response>, chain: seq<BufferedBlock>, a: nat, k: nat,
      hi: nat)
    requires a <= k < hi <= |chain| && Contiguous(chain) && Linked(chain)
    requires Ships(archived, chain[a..k]) && ShipsAfter(delivered, archived, chain[k..hi])
    ensures OneSlice(chain, delivered, a, hi)
  {
    ChainNamesAppend(chain[a..k], chain[k..hi]);
    assert chain[a..k] + chain[k..hi] == chain[a..hi];
  }

  /** The walk's archive rows as a slice that ends where the cache begins. */
  lemma ArchivedSlice(p: Setup, table: Table, chain: seq<BufferedBlock>, d: nat, n: nat, archived: seq<Response>,
      mn: Height) returns (a: nat, b: nat)
    requires Mirrors(p.decode, table, chain, d, n) && Contiguous(chain) && p.start < mn
    requires ArchiveWalked(p.decode, table, p.start, mn - 1) == Ok(archived)
    requires Named(archived) && archived != [] && archived[|archived| - 1].num == mn - 1
    ensures chain != [] && b == mn - chain[0].height && a < b <= |chain| && Ships(archived, chain[a..b])
    ensures p.start in table ==> chain[a].height == p.start
  {
    a := WalkIsChain(p.decode, table, chain, d, n, p.start, mn - 1, archived, mn - 1);
    b := a + |archived|;
    SliceShips(archived, chain, a, b);
  }

  lemma StageIsWalk(decode: Decoder, table: Table, mn: Height, mx: Height, h: Height)
    requires h < mn
    ensures ArchiveStage(decode, Some(table), Some((mn, mx)), h) == ArchiveWalked(decode, table, h, mn - 1)
  {
  }

  lemma ColdJoin(w: seq<Output>, snapAt: nat, heard: nat, first: Height, delivered: seq<Response>)
      returns (lo: nat, hi: nat)
    requires snapAt <= |w| && heard <= |w| && Joined(w, snapAt, heard, first, [], delivered)
    ensures OneSlice(ChainAt(w, |w|), delivered, lo, hi) && ChainAt(w, |w|)[lo].height == first
  {
    var chain := ChainAt(w, |w|);
    lo, hi := first - chain[0].height, Max(|ChainAt(w, snapAt)|, |ChainAt(w, heard)|);
    var blocks := chain[lo..hi];
    assert ShipsAfter(delivered, [], blocks);
    assert [] + ChainNames(blocks) == ChainNames(blocks);
  }

  lemma WarmJoin(w: seq<Output>, snapAt: nat, heard: nat, mn: Height, archived: seq<Response>, delivered: seq<Response>,
      lo: nat, k: nat) returns (hi: nat)
    requires snapAt <= |w| && heard <= |w| && Joined(w, snapAt, heard, mn, archived, delivered)
    requires var chain := ChainAt(w, |w|);
      chain != [] && k == mn - chain[0].height && lo <= k <= |chain| && Ships(archived, chain[lo..k])
    ensures OneSlice(ChainAt(w, |w|), delivered, lo, hi)
  {
    var chain := ChainAt(w, |w|);
    hi := Max(|ChainAt(w, snapAt)|, |ChainAt(w, heard)|);
    OneSliceJoins(delivered, archived, chain, lo, k, hi);
  }

  /** End to end, in every interleaving: when the walk read the table this relayer's archiver keeps, and no
      block at or below the head was pruned too early, everything a served request has delivered is one
      parent-linked slice of the replayed chain, each block once, archive rows included; and it begins at
      the requested height unless retention has removed it. */
  lemma HandoffIsOneSlice(p: Setup, actions: seq<Action>) returns (lo: nat, hi: nat)
    requires Served(p, Exec(p, actions)) && Exec(p, actions).phase.reading.source.Own?
    requires Readable(p) && NothingLost(p.cfg, Exec(p, actions).history)
    ensures var (s, chain) := (Exec(p, actions), ChainAt(Witnessed(Exec(p, actions)), |Witnessed(Exec(p, actions))|));
      && s.phase.reading.archive.Some?
      && OneSlice(chain, Delivered(p, s), lo, hi)
      && (p.start >= s.phase.window.value.0 || p.start in s.phase.reading.archive.value ==> chain[lo].height == p.start)
  {
    ExecKeeps(p, actions);
    HandoffIsExact(p, actions);
    lo, hi := ServedIsOneSlice(p, Exec(p, actions));
  }

  /** What the archiver had stored when the request read its table, the request has seen. */
  lemma StoredWithin(p: Setup, s: Sys)
    requires Inv(p, s) && s.phase.Serving?
    ensures s.phase.reading.stored <= |s.events|
    ensures OutputsOf(s.events[..s.phase.reading.stored]) <= Witnessed(s)
  {
    WitnessedHolds(p, s);
    OutputsPrefix(s.events, s.phase.reading.stored);
    PrefixTwice(OutputsOf(s.events[..s.phase.reading.stored]), OutputsOf(s.events), s.hub.history);
    PrefixTwice(OutputsOf(s.events[..s.phase.reading.stored]), s.hub.history, Witnessed(s));
  }

  lemma PrefixTwice(a: seq<Output>, b: seq<Output>, c: seq<Output>)
    requires a <= b <= c
    ensures a <= c
  {
  }

  lemma OwnTableRead(p: Setup, s: Sys)
    requires Inv(p, s) && s.phase.Serving? && s.phase.reading.source.Own?
    ensures s.phase.reading.stored <= |s.events|
    ensures s.phase.reading.archive == Some(ArchiveAll(p.encode, map[], s.events[..s.phase.reading.stored]))
  {
  }

  lemma OwnTableSeen(p: Setup, s: Sys) returns (d: nat, n: nat)
    requires Served(p, s) && Inv(p, s) && s.phase.reading.source.Own? && ExactWarm(p, s)
    requires Readable(p) && NothingLost(p.cfg, s.history)
    ensures s.phase.reading.archive.Some?
    ensures Mirrors(p.decode, s.phase.reading.archive.value, ChainAt(Witnessed(s), |Witnessed(s)|), d, n)
  {
    OwnTableRead(p, s);
    StoredWithin(p, s);
    WitnessedHolds(p, s);
    RunIsCalm(p, s, Witnessed(s), s.phase.seat.joinedAt);
    d, n := OwnTableAt(p, s.history, s.events[..s.phase.reading.stored], Witnessed(s));
  }

  lemma OwnTableAt(p: Setup, inputs: seq<Input>, events: seq<ArchiveEvent>, seen: seq<Output>) returns (d: nat, n: nat)
    requires p.cfg.Valid() && WellFormedInputs(inputs) && NothingLost(p.cfg, inputs) && Readable(p)
    requires OutputsOf(events) <= seen <= Emissions(p.cfg, inputs) && Contiguous(ChainAt(seen, |seen|))
    ensures Mirrors(p.decode, ArchiveAll(p.encode, map[], events), ChainAt(seen, |seen|), d, n)
  {
    OwnTableMirrors(p, inputs, events, seen);
    d, n := Expired(events), |FinalEvents(OutputsOf(events))|;
  }

  lemma ServedIsOneSlice(p: Setup, s: Sys) returns (lo: nat, hi: nat)
    requires Served(p, s) && Inv(p, s) && s.phase.reading.source.Own? && ExactWarm(p, s)
    requires Readable(p) && NothingLost(p.cfg, s.history)
    requires ArchivePart(s.phase.archived, p.start, s.phase.window.value.0)
    ensures s.phase.reading.archive.Some?
    ensures OneSlice(ChainAt(Witnessed(s), |Witnessed(s)|), Delivered(p, s), lo, hi)
    ensures p.start >= s.phase.window.value.0 || p.start in s.phase.reading.archive.value ==>
      ChainAt(Witnessed(s), |Witnessed(s)|)[lo].height == p.start
  {
    var d, n := OwnTableSeen(p, s);
    lo, hi := SlicesJoin(p, Witnessed(s), s.phase.snapAt, |s.hub.history|, s.phase.reading.archive, d, n,
      s.phase.archived, Delivered(p, s), s.phase.window.value.0, s.phase.window.value.1);
  }

  lemma SlicesJoin(p: Setup, w: seq<Output>, snapAt: nat, heard: nat, archive: Option<Table>, d: nat, n: nat,
      archived: seq<Response>, delivered: seq<Response>, mn: Height, mx: Height) returns (lo: nat, hi: nat)
    requires snapAt <= |w| && heard <= |w| && Joined(w, snapAt, heard, Max(p.start, mn), archived, delivered)
    requires archive.Some? && Mirrors(p.decode, archive.value, ChainAt(w, |w|), d, n)
    requires ArchiveStage(p.decode, archive, Some((mn, mx)), p.start) == Ok(archived)
      && ArchivePart(archived, p.start, mn)
    ensures OneSlice(ChainAt(w, |w|), delivered, lo, hi)
    ensures p.start >= mn || p.start in archive.value ==> ChainAt(w, |w|)[lo].height == p.start
  {
    if archived == [] {
      lo, hi := ColdJoin(w, snapAt, heard, Max(p.start, mn), delivered);
    } else {
      lo, hi := ArchiveSlicesJoin(p, w, snapAt, heard, archive.value, ChainAt(w, |w|), d, n, archived, delivered, mn,
        mx);
    }
  }

  lemma ArchiveSlicesJoin(p: Setup, w: seq<Output>, snapAt: nat, heard: nat, table: Table, chain: seq<BufferedBlock>,
      d: nat, n: nat, archived: seq<Response>, delivered: seq<Response>, mn: Height, mx: Height)
      returns (lo: nat, hi: nat)
    requires snapAt <= |w| && heard <= |w| && Joined(w, snapAt, heard, mn, archived, delivered)
      && chain == ChainAt(w, |w|)
    requires Mirrors(p.decode, table, chain, d, n) && archived != []
    requires ArchiveStage(p.decode, Some(table), Some((mn, mx)), p.start) == Ok(archived)
      && ArchivePart(archived, p.start, mn)
    ensures OneSlice(chain, delivered, lo, hi)
    ensures p.start in table ==> chain[lo].height == p.start
  {
    StageIsWalk(p.decode, table, mn, mx, p.start);
    var k: nat;
    lo, k := ArchivedSlice(p, table, chain, d, n, archived, mn);
    hi := WarmJoin(w, snapAt, heard, mn, archived, delivered, lo, k);
  }
}
