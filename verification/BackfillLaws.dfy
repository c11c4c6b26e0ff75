/** What an accepted backfill guarantees, and exactly when it has no hole. */
module BackfillLaws {
  import opened Types
  import opened CursorCodec
  import opened EngineSpec
  import opened Cache
  import opened CacheChain
  import opened Archive
  import opened Archiver
  import opened Backfill

  function Nums(rows: seq<Response>): (nums: seq<Height>)
    ensures |nums| == |rows|
  {
    seq(|rows|, i requires 0 <= i < |rows| => rows[i].num)
  }

  /** Every entry is filed under its own height. */
  ghost predicate Keyed(m: Cached) {
    forall h :: h in m ==> m[h].1.height == h
  }

  // What a response says about its block

  /** The wire form of a well-formed block names the block and its parent by the heights their ids carry,
      and its cursor resumes right after it; a row served from the cache is what the live New event would
      have been under the same head. */
  lemma ResponseDescribesBlock(encode: Encoder, b: BufferedBlock, head: Option<Height>)
    requires WellFormed(b)
    ensures var r := CachedResponse(encode, b, head);
      && r.num == HeightOf(r.blockId) && r.parentNum == HeightOf(r.parentId) && r.blockId == b.blockId
      && StartHeight(Request(r.cursor, 0, 0, false, 0)) == Ok(Some(SaturatingSucc(r.num)))
      && OutputToResponse(encode, New(Emit(StepNew, b, head))) == Some(r)
  {
    ResumeAfter(b.height, b.blockId, 0);
  }

  /** The step under which an event goes on the wire; fork events do not. */
  function WireStep(o: Output): Option<Step> {
    match o
    case New(_) => Some(StepNew)
    case Undo(_) => Some(StepUndo)
    case Irreversible(_) => Some(StepIrreversible)
    case ForkObserved(_) => None
    case ForkResolved(_, _) => None
  }

  /** The response says of the block what the event says: names and heights of block and parent, the head the event
      was tagged with or 0, the payload, and a cursor that reads back as the event's. */
  ghost predicate Tells(encode: Encoder, r: Response, step: Step, s: StreamableBlock) {
    && r.step == step && r.num == s.block.height && r.blockId == s.block.blockId
    && r.parentNum == Max(0, s.block.height - 1) && r.parentId == s.block.parentId
    && r.libNum == (match s.finality.solidifiedHead case None => 0 case Some(head) => head)
    && r.payload == encode(s.block, s.finality)
    && ReadsAs(r.cursor, s.cursor)
  }

  ghost predicate ReadsAs(wire: string, c: Cursor) {
    HexDecode(wire).Some? && FromBytes(HexDecode(wire).value) == Some(c)
  }

  lemma CursorReads(height: Height, id: BlockId)
    ensures ReadsAs(WireCursor(height, id), Cursor(height, id))
  {
    HexRoundTrip(ToBytes(Cursor(height, id)));
    CursorRoundTrip(Cursor(height, id), []);
  }

  lemma ResponseTells(encode: Encoder, o: Output)
    ensures OutputToResponse(encode, o).Some? <==> WireStep(o).Some?
    ensures WireStep(o).Some? ==>
      Tells(encode, OutputToResponse(encode, o).value, WireStep(o).value, o.streamable)
  {
    if WireStep(o).Some? {
      var c := o.streamable.cursor;
      CursorReads(c.height, c.blockId);
      assert Cursor(c.height, c.blockId) == c;
    }
  }

  /** A cached block as it is sent under a head: New, and final exactly when the head has reached it. */
  ghost predicate TellsCached(encode: Encoder, r: Response, b: BufferedBlock, head: Option<Height>) {
    var tier := if head.Some? && b.height <= head.value then Finalized else Seen;
    Tells(encode, r, StepNew, StreamableBlock(StepNew, b, Cursor(b.height, b.blockId), BlockFinality(tier, head)))
  }

  /** Every row from the cache tells of the block cached at its height, under the head the request was given. */
  lemma CachedRowsTell(encode: Encoder, window: Window, m: Cached, archived: seq<Response>, h: Height,
      head: Option<Height>, i: nat)
    requires var r := CacheStage(encode, window, m, archived, h, head); r.Ok? && i < |r.value|
    ensures var rows := CacheStage(encode, window, m, archived, h, head).value;
      var k := (if archived == [] then h else Min(U64_MAX, archived[|archived| - 1].num + 1)) + i;
      k in m && TellsCached(encode, rows[i], m[k].1, head)
  {
    var from := ResumePoint(archived, h);
    CacheWalkedExact(m, from, window.value.1);
    var blocks := CacheWalked(m, from, window.value.1).value;
    CursorReads(blocks[i].height, blocks[i].blockId);
  }

  // The archive stage

  ghost predicate Decodes(decode: Decoder, table: Table, k: Height) {
    k in table && UnpackValue(k, table[k]).Ok? && decode(UnpackValue(k, table[k]).value.payload).Some?
  }

  ghost predicate IsStored(table: Table, row: Row) {
    row.height in table && PackValue(row.blockId, row.payload) == table[row.height]
  }

  lemma {:induction false} ProjectedNums(decode: Decoder, rows: seq<Row>)
    ensures forall n :: n in Nums(Projected(decode, rows)) ==>
      exists i :: 0 <= i < |rows| && rows[i].height == n && decode(rows[i].payload).Some?
    ensures forall i :: 0 <= i < |rows| && decode(rows[i].payload).Some? ==>
      rows[i].height in Nums(Projected(decode, rows))
  {
    if rows != [] {
      var k := |rows| - 1;
      ProjectedNums(decode, rows[..k]);
      var (before, after) := (Nums(Projected(decode, rows[..k])), Nums(Projected(decode, rows)));
      var kept := decode(rows[k].payload).Some?;
      assert after == if kept then before + [rows[k].height] else before;
      forall n | n in after
        ensures exists i :: 0 <= i < |rows| && rows[i].height == n && decode(rows[i].payload).Some?
      {
        if n in before {
          var i :| 0 <= i < |rows[..k]| && rows[..k][i].height == n && decode(rows[..k][i].payload).Some?;
          assert rows[i].height == n;
        }
      }
      forall i | 0 <= i < |rows| && decode(rows[i].payload).Some? ensures rows[i].height in after {
        if i < k {
          assert rows[..k][i] == rows[i];
          assert rows[i].height in before;
        } else {
          assert after[|after| - 1] == rows[k].height;
        }
      }
    }
  }

  lemma {:induction false} ProjectedAscending(decode: Decoder, rows: seq<Row>)
    requires StrictlyAscending(Heights(rows))
    ensures StrictlyAscending(Nums(Projected(decode, rows)))
  {
    if rows != [] {
      var k := |rows| - 1;
      assert Heights(rows[..k]) == Heights(rows)[..k];
      ProjectedAscending(decode, rows[..k]);
      ProjectedNums(decode, rows[..k]);
      var before := Nums(Projected(decode, rows[..k]));
      forall j | 0 <= j < |before| ensures before[j] < rows[k].height {
        assert before[j] in before;
        var i :| 0 <= i < |rows[..k]| && rows[..k][i].height == before[j] && decode(rows[..k][i].payload).Some?;
        assert Heights(rows)[i] < Heights(rows)[k];
      }
      assert Nums(Projected(decode, rows))
          == if decode(rows[k].payload).Some? then before + [rows[k].height] else before;
    }
  }

  /** Rows of a walk: strictly ascending, each within the range, and each the decodable value stored at its
      height. */
  lemma WalkSound(decode: Decoder, table: Table, lo: Height, hi: Height)
    requires ArchiveWalked(decode, table, lo, hi).Ok?
    ensures var nums := Nums(ArchiveWalked(decode, table, lo, hi).value);
      && StrictlyAscending(nums)
      && forall n :: n in nums ==> lo <= n <= hi && Decodes(decode, table, n)
  {
    var rows := Scan(table, lo, hi, ARCHIVE_WALK_LIMIT).value;
    ScanExact(table, lo, hi, ARCHIVE_WALK_LIMIT);
    ProjectedNums(decode, rows);
    ProjectedAscending(decode, rows);
    forall n | n in Nums(Projected(decode, rows)) ensures lo <= n <= hi && Decodes(decode, table, n) {
      var i :| 0 <= i < |rows| && rows[i].height == n && decode(rows[i].payload).Some?;
      assert Heights(rows)[i] in KeysIn(table, lo, hi);
      PackRoundTrip(n, rows[i].blockId, rows[i].payload, []);
    }
  }

  /** A stored, decodable key is served unless the walk stopped before it. */
  lemma WalkComplete(decode: Decoder, table: Table, lo: Height, hi: Height, k: Height)
    requires ArchiveWalked(decode, table, lo, hi).Ok? && lo <= k <= hi && Decodes(decode, table, k)
    requires var nums := Nums(ArchiveWalked(decode, table, lo, hi).value); nums != [] && k <= nums[|nums| - 1]
    ensures k in Nums(ArchiveWalked(decode, table, lo, hi).value)
  {
    var rows := Scan(table, lo, hi, ARCHIVE_WALK_LIMIT).value;
    ScanExact(table, lo, hi, ARCHIVE_WALK_LIMIT);
    LastIsVisited(decode, rows);
    assert k in KeysIn(table, lo, hi) && k in Heights(rows);
    RowVisited(decode, table, rows, k);
  }

  lemma LastIsVisited(decode: Decoder, rows: seq<Row>)
    requires StrictlyAscending(Heights(rows)) && Projected(decode, rows) != []
    ensures var nums := Nums(Projected(decode, rows)); rows != [] && nums[|nums| - 1] <= Heights(rows)[|rows| - 1]
  {
    var nums := Nums(Projected(decode, rows));
    ProjectedNums(decode, rows);
    assert nums[|nums| - 1] in nums;
    var last :| 0 <= last < |rows| && rows[last].height == nums[|nums| - 1];
    assert Heights(rows)[last] <= Heights(rows)[|rows| - 1];
  }

  /** A decodable key that was visited is among the projected numbers. */
  lemma RowVisited(decode: Decoder, table: Table, rows: seq<Row>, k: Height)
    requires Decodes(decode, table, k) && k in Heights(rows)
    requires forall i :: 0 <= i < |rows| ==> IsStored(table, rows[i])
    ensures k in Nums(Projected(decode, rows))
  {
    var i :| 0 <= i < |rows| && Heights(rows)[i] == k;
    ProjectedNums(decode, rows);
    PackRoundTrip(k, rows[i].blockId, rows[i].payload, []);
  }

  /** The response says of an archived row what is stored, and what its payload decodes to. */
  ghost predicate TellsRow(decode: Decoder, r: Response, row: Row) {
    && r.step == StepNew && r.num == row.height && r.blockId == row.blockId && r.payload == row.payload
    && r.parentNum == Max(0, row.height - 1) && ReadsAs(r.cursor, Cursor(row.height, row.blockId))
    && decode(row.payload) == Some(ArchivedMeta(r.parentId, r.libNum))
  }

  lemma {:induction false} ProjectedTell(decode: Decoder, rows: seq<Row>, i: nat)
    requires i < |Projected(decode, rows)|
    ensures exists j :: 0 <= j < |rows| && TellsRow(decode, Projected(decode, rows)[i], rows[j])
  {
    var n := |rows| - 1;
    if i < |Projected(decode, rows[..n])| {
      ProjectedTell(decode, rows[..n], i);
      var j :| 0 <= j < n && TellsRow(decode, Projected(decode, rows)[i], rows[..n][j]);
      assert rows[j] == rows[..n][j];
    } else {
      CursorReads(rows[n].height, rows[n].blockId);
      assert TellsRow(decode, Projected(decode, rows)[i], rows[n]);
    }
  }

  /** Every row served from the archive is the value stored at its height, taken apart: the id in front, the payload
      behind it, and what the payload decodes to. */
  lemma ArchiveRowsTell(decode: Decoder, table: Table, lo: Height, hi: Height, i: nat)
    requires ArchiveWalked(decode, table, lo, hi).Ok? && i < |ArchiveWalked(decode, table, lo, hi).value|
    ensures var r := ArchiveWalked(decode, table, lo, hi).value[i];
      && r.num in table && |table[r.num]| >= 32
      && TellsRow(decode, r, Row(r.num, BlockId(table[r.num][..32]), table[r.num][32..]))
  {
    var rows := Scan(table, lo, hi, ARCHIVE_WALK_LIMIT).value;
    var r := ArchiveWalked(decode, table, lo, hi).value[i];
    ScanExact(table, lo, hi, ARCHIVE_WALK_LIMIT);
    ProjectedTell(decode, rows, i);
    var j :| 0 <= j < |rows| && TellsRow(decode, r, rows[j]);
    PackRoundTrip(r.num, rows[j].blockId, rows[j].payload, []);
  }

  // The cache stage

  lemma {:induction false} CacheWalkedExact(m: Cached, from: int, max: Height)
    requires 0 <= from
    ensures CacheWalked(m, from, max).Ok? <==> forall h: Height :: from <= h <= max ==> h in m
    ensures CacheWalked(m, from, max).Ok? ==>
      var blocks := CacheWalked(m, from, max).value;
      && |blocks| == Max(0, max - from + 1)
      && forall i :: 0 <= i < |blocks| ==> from + i in m && blocks[i] == m[from + i].1
    decreases max - from
  {
    if from <= max && from in m {
      CacheWalkedExact(m, from + 1, max);
      if CacheWalked(m, from + 1, max).Ok? {
        var blocks := CacheWalked(m, from, max).value;
        forall i | 0 <= i < |blocks| ensures from + i in m && blocks[i] == m[from + i].1 {
          if i > 0 {
            assert blocks[i] == CacheWalked(m, from + 1, max).value[i - 1];
          }
        }
      }
    }
  }

  lemma CacheStageExact(encode: Encoder, mn: Height, mx: Height, m: Cached, archived: seq<Response>, h: Height,
      head: Option<Height>)
    requires Keyed(m) && CacheStage(encode, Some((mn, mx)), m, archived, h, head).Ok?
    ensures var cached := CacheStage(encode, Some((mn, mx)), m, archived, h, head).value;
      var from := ResumePoint(archived, h);
      && mn <= from <= mx + 1
      && |cached| == mx + 1 - from
      && forall i :: 0 <= i < |cached| ==> cached[i].num == from + i
  {
    CacheWalkedExact(m, ResumePoint(archived, h), mx);
  }

  // Both stages

  /** Ascending numbers that skip nothing up to the last are consecutive. */
  lemma {:induction false} AscendingComplete(nums: seq<Height>, lo: Height, i: nat)
    requires StrictlyAscending(nums) && i < |nums|
    requires forall j :: 0 <= j < |nums| ==> nums[j] >= lo
    requires forall k: Height :: lo <= k <= nums[|nums| - 1] ==> k in nums
    ensures nums[i] == lo + i
  {
    if i > 0 {
      AscendingComplete(nums, lo, i - 1);
    }
    assert nums[i] <= nums[|nums| - 1];
    var k: Height := lo + i;
    assert k <= nums[i];
    assert k in nums;
    var j :| 0 <= j < |nums| && nums[j] == k;
  }

  /** Against a non-empty cache the archive serves only heights below it. */
  lemma ArchiveStageSound(decode: Decoder, archive: Option<Table>, mn: Height, mx: Height, h: Height)
    requires ArchiveStage(decode, archive, Some((mn, mx)), h).Ok?
    ensures var archived := ArchiveStage(decode, archive, Some((mn, mx)), h).value;
      && StrictlyAscending(Nums(archived))
      && (forall i :: 0 <= i < |archived| ==> h <= archived[i].num < mn)
  {
    if archive.Some? && h < mn {
      WalkSound(decode, archive.value, h, SaturatingPred(mn));
      var archived := ArchiveStage(decode, archive, Some((mn, mx)), h).value;
      forall i | 0 <= i < |archived| ensures h <= archived[i].num < mn {
        assert Nums(archived)[i] in Nums(archived);
      }
    }
  }

  /** The two parts of an accepted backfill against a non-empty cache. */
  lemma StagedParts(encode: Encoder, decode: Decoder, archive: Option<Table>, mn: Height, mx: Height, m: Cached,
      h: Height, head: Option<Height>)
    requires mn <= mx && Keyed(m) && Staged(encode, decode, archive, Some((mn, mx)), m, h, head).Ok?
    ensures ArchiveStage(decode, archive, Some((mn, mx)), h).Ok?
    ensures Parts(ArchiveStage(decode, archive, Some((mn, mx)), h).value,
      Staged(encode, decode, archive, Some((mn, mx)), m, h, head).value, mn, mx, h)
  {
    ArchiveStageSound(decode, archive, mn, mx, h);
    var archived := ArchiveStage(decode, archive, Some((mn, mx)), h).value;
    CacheStageExact(encode, mn, mx, m, archived, h, head);
    JoinParts(archived, CacheStage(encode, Some((mn, mx)), m, archived, h, head).value, mn, mx, h);
  }

  ghost predicate Parts(archived: seq<Response>, rows: seq<Response>, mn: Height, mx: Height, h: Height) {
    && archived <= rows
    && StrictlyAscending(Nums(archived))
    && (forall i :: 0 <= i < |archived| ==> h <= archived[i].num < mn)
    && (if archived == [] then mn <= h else h < mn && archived[|archived| - 1].num == mn - 1)
    && |rows| - |archived| == mx + 1 - Max(h, mn)
    && (forall i :: |archived| <= i < |rows| ==> rows[i].num == Max(h, mn) + (i - |archived|))
  }

  lemma JoinParts(archived: seq<Response>, cached: seq<Response>, mn: Height, mx: Height, h: Height)
    requires mn <= mx && StrictlyAscending(Nums(archived))
    requires forall i :: 0 <= i < |archived| ==> h <= archived[i].num < mn
    requires var from := ResumePoint(archived, h);
      && mn <= from <= mx + 1 && |cached| == mx + 1 - from
      && forall i :: 0 <= i < |cached| ==> cached[i].num == from + i
    ensures Parts(archived, archived + cached, mn, mx, h)
  {
  }

  /** An accepted backfill has strictly ascending heights from the start on; its archive part, if any, ends
      exactly one below the cache; and its last height, if any, is the cache's highest. */
  lemma StagedBackfill(encode: Encoder, decode: Decoder, archive: Option<Table>, mn: Height, mx: Height, m: Cached,
      h: Height, head: Option<Height>)
    requires mn <= mx && Keyed(m) && Staged(encode, decode, archive, Some((mn, mx)), m, h, head).Ok?
    ensures var rows := Staged(encode, decode, archive, Some((mn, mx)), m, h, head).value;
      && StrictlyAscending(Nums(rows))
      && (forall i :: 0 <= i < |rows| ==> h <= rows[i].num)
      && (rows != [] ==> rows[|rows| - 1].num == mx)
      && (forall k: Height :: Max(h, mn) <= k <= mx ==> k in Nums(rows))
  {
    StagedParts(encode, decode, archive, mn, mx, m, h, head);
    var rows := Staged(encode, decode, archive, Some((mn, mx)), m, h, head).value;
    var archived := ArchiveStage(decode, archive, Some((mn, mx)), h).value;
    forall i, j | 0 <= i < j < |rows| ensures Nums(rows)[i] < Nums(rows)[j] {
      if j < |archived| {
        assert Nums(archived)[i] < Nums(archived)[j];
      }
    }
    forall k: Height | Max(h, mn) <= k <= mx ensures k in Nums(rows) {
      assert Nums(rows)[|archived| + k - Max(h, mn)] == k;
    }
  }

  /** More stored rows below the cache than one walk may return: always refused. */
  lemma OverLimitRefused(encode: Encoder, decode: Decoder, table: Table, mn: Height, mx: Height, m: Cached, h: Height,
      head: Option<Height>)
    requires mn <= mx && Keyed(m) && h < mn
    requires |KeysIn(table, h, mn - 1)| > 5000
    ensures Staged(encode, decode, Some(table), Some((mn, mx)), m, h, head).Err?
  {
    if Staged(encode, decode, Some(table), Some((mn, mx)), m, h, head).Ok? {
      StagedParts(encode, decode, Some(table), mn, mx, m, h, head);
      FullWalkFits(decode, table, h, mn - 1);
    }
  }

  /** A walk that reached the end of its range saw every stored row of it. */
  lemma FullWalkFits(decode: Decoder, table: Table, lo: Height, hi: Height)
    requires ArchiveWalked(decode, table, lo, hi).Ok?
    requires var walked := ArchiveWalked(decode, table, lo, hi).value; walked != [] && walked[|walked| - 1].num == hi
    ensures |KeysIn(table, lo, hi)| <= ARCHIVE_WALK_LIMIT
  {
    var rows := Scan(table, lo, hi, ARCHIVE_WALK_LIMIT).value;
    ScanExact(table, lo, hi, ARCHIVE_WALK_LIMIT);
    var nums := Nums(Projected(decode, rows));
    ProjectedNums(decode, rows);
    assert nums[|nums| - 1] in nums;
    var last :| 0 <= last < |rows| && rows[last].height == hi;
    AllVisited(Heights(rows), KeysIn(table, lo, hi), last);
  }

  /** A listing that reaches the greatest key of a set without skipping lists the whole set. */
  lemma AllVisited(keys: seq<Height>, all: set<Height>, last: nat)
    requires last < |keys| && StrictlyAscending(keys) && (forall k :: k in all ==> k <= keys[last])
    requires forall i :: 0 <= i < |keys| ==> keys[i] in all
    requires forall k :: k in all && keys != [] && k <= keys[|keys| - 1] ==> k in keys
    ensures |all| <= |keys|
  {
    assert all == ElementsOf(keys);
    ElementsCount(keys);
  }

  function ElementsOf(keys: seq<Height>): set<Height> {
    set k | k in keys
  }

  lemma {:induction false} ElementsCount(keys: seq<Height>)
    ensures |ElementsOf(keys)| <= |keys|
  {
    if keys != [] {
      var n := |keys| - 1;
      ElementsCount(keys[..n]);
      assert ElementsOf(keys) == ElementsOf(keys[..n]) + {keys[n]};
    }
  }

  ghost predicate Consecutive(nums: seq<Height>, from: Height) {
    forall i :: 0 <= i < |nums| ==> nums[i] == from + i
  }

  /** The archive holds and decodes every height from the start up to, not including, `end`. */
  ghost predicate ArchiveCovers(decode: Decoder, archive: Option<Table>, h: Height, end: int) {
    forall k: Height :: h <= k < end ==> archive.Some? && Decodes(decode, archive.value, k)
  }

  lemma ConsecutiveCovers(decode: Decoder, table: Table, archived: seq<Response>, h: Height, last: Height)
    requires archived != [] && Consecutive(Nums(archived), h) && archived[|archived| - 1].num == last
    requires forall n :: n in Nums(archived) ==> Decodes(decode, table, n)
    ensures ArchiveCovers(decode, Some(table), h, last + 1)
  {
    assert Nums(archived)[|archived| - 1] == last;
    forall k: Height | h <= k < last + 1 ensures Decodes(decode, table, k) {
      assert Nums(archived)[k - h] == k;
      assert k in Nums(archived);
    }
  }

  /** A walk whose rows start no lower than `first` is consecutive from there on when the archive covers
      everything from there up to the last row. */
  lemma CoversConsecutive(decode: Decoder, table: Table, lo: Height, hi: Height, first: Height, last: Height)
    requires ArchiveWalked(decode, table, lo, hi).Ok? && lo <= first
    requires var nums := Nums(ArchiveWalked(decode, table, lo, hi).value);
      nums != [] && nums[|nums| - 1] == last && (forall n :: n in nums ==> first <= n)
    requires ArchiveCovers(decode, Some(table), first, last + 1)
    ensures Consecutive(Nums(ArchiveWalked(decode, table, lo, hi).value), first)
  {
    var nums := Nums(ArchiveWalked(decode, table, lo, hi).value);
    WalkSound(decode, table, lo, hi);
    assert nums[|nums| - 1] in nums;
    forall k: Height | first <= k <= last ensures k in nums {
      assert Decodes(decode, table, k);
      WalkComplete(decode, table, lo, hi, k);
    }
    forall i | 0 <= i < |nums| ensures nums[i] == first + i {
      assert forall j :: 0 <= j < |nums| ==> nums[j] in nums;
      AscendingComplete(nums, first, i);
    }
  }

  /** A walk has no hole exactly when the archive covers everything from the start up to its last row. */
  lemma CoversIff(decode: Decoder, table: Table, lo: Height, hi: Height, last: Height)
    requires ArchiveWalked(decode, table, lo, hi).Ok?
    requires var walked := ArchiveWalked(decode, table, lo, hi).value; walked != [] && walked[|walked| - 1].num == last
    ensures Consecutive(Nums(ArchiveWalked(decode, table, lo, hi).value), lo)
      <==> ArchiveCovers(decode, Some(table), lo, last + 1)
  {
    var walked := ArchiveWalked(decode, table, lo, hi).value;
    WalkSound(decode, table, lo, hi);
    if Consecutive(Nums(walked), lo) {
      ConsecutiveCovers(decode, table, walked, lo, last);
    }
    if ArchiveCovers(decode, Some(table), lo, last + 1) {
      CoversConsecutive(decode, table, lo, hi, lo, last);
    }
  }

  /** Consecutive throughout exactly when consecutive on the archive part. */
  lemma ConsecutiveParts(archived: seq<Response>, rows: seq<Response>, h: Height, mn: Height)
    requires archived <= rows
    requires if archived == [] then mn <= h else h < mn && archived[|archived| - 1].num == mn - 1
    requires forall i :: |archived| <= i < |rows| ==> rows[i].num == Max(h, mn) + (i - |archived|)
    ensures Consecutive(Nums(rows), h) <==> Consecutive(Nums(archived), h)
  {
    if Consecutive(Nums(rows), h) {
      forall i | 0 <= i < |archived| ensures Nums(archived)[i] == h + i {
        assert Nums(rows)[i] == h + i && rows[i] == archived[i];
      }
    }
    if Consecutive(Nums(archived), h) {
      if archived != [] {
        assert Nums(archived)[|archived| - 1] == h + |archived| - 1;
      }
      forall i | 0 <= i < |rows| ensures Nums(rows)[i] == h + i {
        if i < |archived| {
          assert Nums(archived)[i] == h + i && rows[i] == archived[i];
        }
      }
    }
  }

  lemma PartsConsecutive(archived: seq<Response>, rows: seq<Response>, mn: Height, mx: Height, h: Height)
    requires Parts(archived, rows, mn, mx, h)
    ensures Consecutive(Nums(rows), h) <==> Consecutive(Nums(archived), h)
    ensures if archived == [] then mn <= h else h < mn && archived[|archived| - 1].num == mn - 1
  {
    ConsecutiveParts(archived, rows, h, mn);
  }

  /** An accepted backfill is gap-free exactly when the archive holds and decodes every height between the
      start and the cache: only the join with the cache is checked. */
  lemma GapFreeIffArchiveCovers(encode: Encoder, decode: Decoder, archive: Option<Table>, mn: Height, mx: Height,
      m: Cached, h: Height, head: Option<Height>)
    requires mn <= mx && Keyed(m) && Staged(encode, decode, archive, Some((mn, mx)), m, h, head).Ok?
    ensures Consecutive(Nums(Staged(encode, decode, archive, Some((mn, mx)), m, h, head).value), h)
      <==> ArchiveCovers(decode, archive, h, mn)
  {
    StagedParts(encode, decode, archive, mn, mx, m, h, head);
    PartsCover(decode, archive, ArchiveStage(decode, archive, Some((mn, mx)), h).value,
      Staged(encode, decode, archive, Some((mn, mx)), m, h, head).value, mn, mx, h);
  }

  lemma PartsCover(decode: Decoder, archive: Option<Table>, archived: seq<Response>, rows: seq<Response>, mn: Height,
      mx: Height, h: Height)
    requires Parts(archived, rows, mn, mx, h) && ArchiveStage(decode, archive, Some((mn, mx)), h) == Ok(archived)
    ensures Consecutive(Nums(rows), h) <==> ArchiveCovers(decode, archive, h, mn)
  {
    PartsConsecutive(archived, rows, mn, mx, h);
    if archived != [] {
      CoversIff(decode, archive.value, h, mn - 1, mn - 1);
    }
  }

  // With nothing cached

  function KeysFrom(table: Table, lo: Height, end: Height): set<Height> {
    set k | k in table.Keys && lo <= k < end
  }

  /** A stored height that a walk from `h` reaches before its limit. */
  ghost predicate Reachable(table: Table, h: Height, k: Height) {
    k in table && h <= k && |KeysFrom(table, h, k)| < 5000
  }

  /** The values a walk visits are those with fewer than `limit` stored heights before them. */
  lemma ScanVisits(table: Table, h: Height, top: Height, limit: nat, k: Height)
    requires k in KeysIn(table, h, top)
    ensures k in ScanKeys(table, h, top, limit) <==> |KeysFrom(table, h, k)| < limit
  {
    var keys := ScanKeys(table, h, top, limit);
    ScanKeysExact(table, h, top, limit);
    if k in keys {
      var i :| 0 <= i < |keys| && keys[i] == k;
      AllVisitedBefore(table, h, top, keys, i);
    } else {
      MissedIsFull(table, h, top, limit, k);
    }
  }

  lemma AllVisitedBefore(table: Table, h: Height, top: Height, keys: seq<Height>, i: nat)
    requires i < |keys| && StrictlyAscending(keys) && keys[i] in KeysIn(table, h, top)
    requires forall k :: k in KeysIn(table, h, top) && k <= keys[|keys| - 1] ==> k in keys
    ensures |KeysFrom(table, h, keys[i])| <= i
  {
    forall k | k in KeysFrom(table, h, keys[i]) ensures k in ElementsOf(keys[..i]) {
      assert k in KeysIn(table, h, top) && keys[i] <= keys[|keys| - 1];
      var j :| 0 <= j < |keys| && keys[j] == k;
      assert j < i;
      assert keys[..i][j] == k;
    }
    SubsetCardinality(KeysFrom(table, h, keys[i]), ElementsOf(keys[..i]));
    ElementsCount(keys[..i]);
  }

  lemma MissedIsFull(table: Table, h: Height, top: Height, limit: nat, k: Height)
    requires k in KeysIn(table, h, top) && k !in ScanKeys(table, h, top, limit)
    ensures |KeysFrom(table, h, k)| >= limit
  {
    var keys := ScanKeys(table, h, top, limit);
    ScanKeysExact(table, h, top, limit);
    forall x | x in ElementsOf(keys) ensures x in KeysFrom(table, h, k) {
      var i :| 0 <= i < |keys| && keys[i] == x;
      assert keys[i] <= keys[|keys| - 1];
    }
    SubsetCardinality(ElementsOf(keys), KeysFrom(table, h, k));
    AscendingCount(keys);
  }

  lemma {:induction false} AscendingCount(keys: seq<Height>)
    requires StrictlyAscending(keys)
    ensures |ElementsOf(keys)| == |keys|
  {
    if keys != [] {
      var n := |keys| - 1;
      AscendingCount(keys[..n]);
      assert keys[n] !in keys[..n];
      assert ElementsOf(keys) == ElementsOf(keys[..n]) + {keys[n]};
    }
  }

  /** Every value a walk visits has at least a block id. */
  ghost predicate Unpacks(table: Table, k: Height)
    requires k in table
  {
    UnpackValue(k, table[k]).Ok?
  }

  lemma {:induction false} UnpackAllIff(table: Table, keys: seq<Height>)
    requires Stored(table, keys)
    ensures UnpackAll(table, keys).Ok? <==> forall i :: 0 <= i < |keys| ==> Unpacks(table, keys[i])
  {
    if keys != [] {
      var n := |keys| - 1;
      UnpackAllIff(table, keys[..n]);
      assert keys == keys[..n] + [keys[n]];
      assert Unpacks(table, keys[n]) <==> UnpackValue(keys[n], table[keys[n]]).Ok?;
    }
  }

  /** The values of a walk decide its outcome. */
  lemma WalkOutcome(decode: Decoder, table: Table, h: Height, top: Height)
    ensures var keys := ScanKeys(table, h, top, ARCHIVE_WALK_LIMIT);
      var walked := ArchiveWalked(decode, table, h, top);
      && (walked.Ok? <==> forall k :: k in keys ==> Unpacks(table, k))
      && (walked.Ok? ==> (walked.value != [] <==> exists k :: k in keys && Decodes(decode, table, k)))
  {
    var keys := ScanKeys(table, h, top, ARCHIVE_WALK_LIMIT);
    UnpackAllIff(table, keys);
    if UnpackAll(table, keys).Ok? {
      UnpackAllRows(table, keys);
      RowsDecode(decode, table, keys, UnpackAll(table, keys).value);
    }
  }

  lemma RowsDecode(decode: Decoder, table: Table, keys: seq<Height>, rows: seq<Row>)
    requires |rows| == |keys| && Stored(table, keys)
    requires forall i :: 0 <= i < |keys| ==> rows[i].height == keys[i] && IsStored(table, rows[i])
    ensures Projected(decode, rows) != [] <==> exists k :: k in keys && Decodes(decode, table, k)
  {
    ProjectedNums(decode, rows);
    var nums := Nums(Projected(decode, rows));
    forall i | 0 <= i < |rows| ensures Decodes(decode, table, keys[i]) <==> decode(rows[i].payload).Some? {
      PackRoundTrip(keys[i], rows[i].blockId, rows[i].payload, []);
    }
    if nums != [] {
      assert nums[0] in nums;
      var i :| 0 <= i < |rows| && rows[i].height == nums[0] && decode(rows[i].payload).Some?;
      assert keys[i] in keys;
    }
    if k :| k in keys && Decodes(decode, table, k) {
      var i :| 0 <= i < |keys| && keys[i] == k;
      assert rows[i].height in nums;
    }
  }

  /** When a request is served with nothing cached: exactly when among the first stored heights at or above
      the start, up to the walk's limit, none is truncated and at least one decodes. */
  lemma ColdServedIff(encode: Encoder, decode: Decoder, archive: Option<Table>, m: Cached, h: Height,
      head: Option<Height>)
    ensures Staged(encode, decode, archive, None, m, h, head).Ok? <==>
      && archive.Some?
      && (forall k :: Reachable(archive.value, h, k) ==> Unpacks(archive.value, k))
      && (exists k :: Reachable(archive.value, h, k) && Decodes(decode, archive.value, k))
  {
    if archive.Some? {
      var table := archive.value;
      var top := TopOf(table);
      assert forall k :: k in table ==> top.Some? && k <= top.value;
      if top.Some? && top.value >= h {
        WalkOutcome(decode, table, h, top.value);
        ReachableIsVisited(table, h, top.value);
      } else {
        assert forall k :: !Reachable(table, h, k);
      }
    }
  }

  lemma ReachableIsVisited(table: Table, h: Height, top: Height)
    requires forall k :: k in table ==> k <= top
    ensures forall k :: Reachable(table, h, k) <==> k in ScanKeys(table, h, top, ARCHIVE_WALK_LIMIT)
  {
    ScanKeysExact(table, h, top, ARCHIVE_WALK_LIMIT);
    forall k ensures Reachable(table, h, k) <==> k in ScanKeys(table, h, top, ARCHIVE_WALK_LIMIT) {
      if k in KeysIn(table, h, top) {
        ScanVisits(table, h, top, ARCHIVE_WALK_LIMIT, k);
      }
    }
  }

  // With a non-empty cache

  /** The lowest height of the range that is not cached. */
  ghost predicate FirstMissing(m: Cached, from: int, max: Height, k: int) {
    from <= k <= max && k !in m && forall j: Height :: from <= j < k ==> j in m
  }

  lemma {:induction false} CacheWalkRefuses(m: Cached, from: int, max: Height)
    requires 0 <= from && CacheWalked(m, from, max).Err?
    ensures CacheWalked(m, from, max).error.EvictedMidWalk?
    ensures FirstMissing(m, from, max, CacheWalked(m, from, max).error.height)
    decreases max - from
  {
    if from in m {
      CacheWalkRefuses(m, from + 1, max);
    }
  }

  /** A walk whose range is stored up to its end ends there. */
  lemma LastIsEnd(decode: Decoder, table: Table, lo: Height, hi: Height)
    requires ArchiveWalked(decode, table, lo, hi).Ok? && lo <= hi
    requires |KeysIn(table, lo, hi)| <= ARCHIVE_WALK_LIMIT && Decodes(decode, table, hi)
    ensures var walked := ArchiveWalked(decode, table, lo, hi).value;
      walked != [] && walked[|walked| - 1].num == hi
  {
    var rows := Scan(table, lo, hi, ARCHIVE_WALK_LIMIT).value;
    ScanExact(table, lo, hi, ARCHIVE_WALK_LIMIT);
    assert hi in KeysIn(table, lo, hi);
    RowVisited(decode, table, rows, hi);
    WalkSound(decode, table, lo, hi);
    var nums := Nums(ArchiveWalked(decode, table, lo, hi).value);
    EndsAt(nums, hi);
    assert nums[|nums| - 1] in nums;
  }

  lemma EndsAt(nums: seq<Height>, hi: Height)
    requires StrictlyAscending(nums) && hi in nums
    ensures nums != [] && hi <= nums[|nums| - 1]
  {
  }

  /** The archive holds the join: nothing stored from the start up to just below the cache is truncated or too much
      for one walk, and the height just below the cache decodes. */
  ghost predicate Joinable(decode: Decoder, archive: Option<Table>, h: Height, mn: Height)
    requires h < mn
  {
    && archive.Some? && Decodes(decode, archive.value, mn - 1)
    && |KeysIn(archive.value, h, mn - 1)| <= 5000
    && forall k :: k in KeysIn(archive.value, h, mn - 1) ==> Unpacks(archive.value, k)
  }

  lemma AllInWalk(table: Table, lo: Height, hi: Height)
    requires |KeysIn(table, lo, hi)| <= ARCHIVE_WALK_LIMIT
    ensures forall k :: k in ScanKeys(table, lo, hi, ARCHIVE_WALK_LIMIT) <==> k in KeysIn(table, lo, hi)
  {
    ScanKeysExact(table, lo, hi, ARCHIVE_WALK_LIMIT);
    var keys := ScanKeys(table, lo, hi, ARCHIVE_WALK_LIMIT);
    forall k | k in keys ensures k in KeysIn(table, lo, hi) {
      var i :| 0 <= i < |keys| && keys[i] == k;
    }
  }

  lemma JoinableIff(decode: Decoder, table: Table, h: Height, mn: Height)
    requires h < mn
    ensures Joinable(decode, Some(table), h, mn) <==>
      var walked := ArchiveWalked(decode, table, h, mn - 1);
      walked.Ok? && walked.value != [] && walked.value[|walked.value| - 1].num == mn - 1
  {
    var walked := ArchiveWalked(decode, table, h, mn - 1);
    WalkOutcome(decode, table, h, mn - 1);
    if Joinable(decode, Some(table), h, mn) {
      AllInWalk(table, h, mn - 1);
      LastIsEnd(decode, table, h, mn - 1);
    }
    if walked.Ok? && walked.value != [] && walked.value[|walked.value| - 1].num == mn - 1 {
      FullWalkFits(decode, table, h, mn - 1);
      AllInWalk(table, h, mn - 1);
      WalkSound(decode, table, h, mn - 1);
      assert Nums(walked.value)[|walked.value| - 1] in Nums(walked.value);
    }
  }

  ghost predicate AllCached(m: Cached, from: int, max: Height) {
    forall k: Height :: from <= k <= max ==> k in m
  }

  lemma ServedInRange(encode: Encoder, decode: Decoder, archive: Option<Table>, mn: Height, mx: Height, m: Cached,
      h: Height, head: Option<Height>)
    requires mn <= mx && mn <= h
    ensures Staged(encode, decode, archive, Some((mn, mx)), m, h, head).Ok? <==> h <= mx + 1 && AllCached(m, h, mx)
  {
    CacheWalkedExact(m, h, mx);
  }

  /** The cache stage after an archive part that is empty, or ends below the cache or right at it. */
  lemma StageAfter(encode: Encoder, mn: Height, mx: Height, m: Cached, archived: seq<Response>, h: Height,
      head: Option<Height>)
    requires h < mn <= mx && (archived != [] ==> archived[|archived| - 1].num < mn)
    ensures CacheStage(encode, Some((mn, mx)), m, archived, h, head).Ok?
      <==> archived != [] && archived[|archived| - 1].num == mn - 1 && AllCached(m, mn, mx)
  {
    CacheWalkedExact(m, mn, mx);
  }

  lemma ServedFromBelow(encode: Encoder, decode: Decoder, archive: Option<Table>, mn: Height, mx: Height, m: Cached,
      h: Height, head: Option<Height>)
    requires h < mn <= mx
    ensures Staged(encode, decode, archive, Some((mn, mx)), m, h, head).Ok?
      <==> Joinable(decode, archive, h, mn) && AllCached(m, mn, mx)
  {
    if archive.Some? {
      JoinableIff(decode, archive.value, h, mn);
    }
    var stage := ArchiveStage(decode, archive, Some((mn, mx)), h);
    if stage.Ok? {
      ArchiveStageSound(decode, archive, mn, mx, h);
      StageAfter(encode, mn, mx, m, stage.value, h, head);
    }
  }

  /** When a request is served with a non-empty cache, whose lowest and highest heights were taken before: from the
      cache's range or right above it exactly when everything from its start on is cached; from below exactly when the
      archive reaches up to the cache and the whole range is cached. */
  lemma WarmServedIff(encode: Encoder, decode: Decoder, archive: Option<Table>, mn: Height, mx: Height, m: Cached,
      h: Height, head: Option<Height>)
    requires mn <= mx
    ensures Staged(encode, decode, archive, Some((mn, mx)), m, h, head).Ok? <==>
      if mn <= h then h <= mx + 1 && AllCached(m, h, mx) else Joinable(decode, archive, h, mn) && AllCached(m, mn, mx)
  {
    if mn <= h {
      ServedInRange(encode, decode, archive, mn, mx, m, h, head);
    } else {
      ServedFromBelow(encode, decode, archive, mn, mx, m, h, head);
    }
  }

  /** And what a refusal says. */
  lemma WarmRefusal(encode: Encoder, decode: Decoder, archive: Option<Table>, mn: Height, mx: Height, m: Cached,
      h: Height, head: Option<Height>)
    requires mn <= mx && Staged(encode, decode, archive, Some((mn, mx)), m, h, head).Err?
    ensures var e := Staged(encode, decode, archive, Some((mn, mx)), m, h, head).error;
      if h > mx + 1 then e == AheadOfTip(h, mx)
      else if mn <= h then e.EvictedMidWalk? && FirstMissing(m, h, mx, e.height)
      else if Joinable(decode, archive, h, mn) then e.EvictedMidWalk? && FirstMissing(m, mn, mx, e.height)
      else if archive.Some? && ArchiveWalked(decode, archive.value, h, mn - 1).Err?
      then e.ArchiveWalkFailed? && IsTruncated(archive.value, e.error)
      else e == BelowCoverage(h, mn)
  {
    if ArchiveStage(decode, archive, Some((mn, mx)), h).Ok? {
      ArchiveStageSound(decode, archive, mn, mx, h);
    }
    if h < mn && archive.Some? {
      JoinableIff(decode, archive.value, h, mn);
    }
    if h <= mx && CacheWalked(m, Max(h, mn), mx).Err? {
      CacheWalkRefuses(m, Max(h, mn), mx);
    }
    if h < mn && archive.Some? && ArchiveWalked(decode, archive.value, h, mn - 1).Err? {
      WalkTruncated(decode, archive.value, h, mn - 1);
    }
  }

  /** The error names a stored value that is too short for an id, and its length. */
  ghost predicate IsTruncated(table: Table, e: ArchiveError) {
    e.height in table && |table[e.height]| == e.len < 32
  }

  lemma {:induction false} UnpackTruncated(table: Table, keys: seq<Height>)
    requires Stored(table, keys) && UnpackAll(table, keys).Err?
    ensures IsTruncated(table, UnpackAll(table, keys).error)
  {
    var n := |keys| - 1;
    if UnpackAll(table, keys[..n]).Err? {
      UnpackTruncated(table, keys[..n]);
    }
  }

  lemma WalkTruncated(decode: Decoder, table: Table, lo: Height, hi: Height)
    requires ArchiveWalked(decode, table, lo, hi).Err?
    ensures var e := ArchiveWalked(decode, table, lo, hi).error;
      e.ArchiveWalkFailed? && IsTruncated(table, e.error)
  {
    UnpackTruncated(table, ScanKeys(table, lo, hi, ARCHIVE_WALK_LIMIT));
  }

  // Where a request starts

  /** Something is asked for that is not served: an end, final blocks only, or transforms. */
  predicate AsksTooMuch(req: Request) {
    req.stopBlockNum != 0 || req.finalBlocksOnly || req.transforms != 0
  }

  /** A cursor starts the stream right after its height whatever the start number; without one a positive number is
      the start, 0 asks for the live tail, a negative one is refused. A cursor that does not read back is refused as
      such, before anything else is looked at. */
  lemma StartIsExact(req: Request)
    requires -0x8000_0000_0000_0000 <= req.startBlockNum < 0x8000_0000_0000_0000
    ensures req.cursor != "" && !(exists c :: ReadsAs(req.cursor, c)) ==> StartHeight(req) == Err(InvalidCursor)
    ensures forall c :: req.cursor != "" && ReadsAs(req.cursor, c) ==>
      StartHeight(req) == if AsksTooMuch(req) then Err(NotImplemented) else Ok(Some(Min(c.height + 1, U64_MAX)))
    ensures req.cursor == "" && (AsksTooMuch(req) || req.startBlockNum < 0) ==> StartHeight(req) == Err(NotImplemented)
    ensures req.cursor == "" && !AsksTooMuch(req) && req.startBlockNum > 0 ==>
      StartHeight(req) == Ok(Some(req.startBlockNum))
    ensures req.cursor == "" && !AsksTooMuch(req) && req.startBlockNum == 0 ==> StartHeight(req) == Ok(None)
  {
    if req.cursor != "" && HexDecode(req.cursor).Some? && FromBytes(HexDecode(req.cursor).value).Some? {
      assert ReadsAs(req.cursor, FromBytes(HexDecode(req.cursor).value).value);
    }
  }

  // The cache files every entry under its own height

  lemma {:induction false} WritesKeyed(capacity: nat, m: Cached, outs: seq<Output>)
    requires Keyed(m)
    ensures Keyed(WriteAll(capacity, m, outs))
    decreases |outs|
  {
    if outs != [] {
      WritesKeyed(capacity, Write(capacity, m, outs[0]), outs[1..]);
    }
  }
}
