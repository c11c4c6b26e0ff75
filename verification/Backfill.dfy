/** Where a stream starts, and the staged backfill that precedes its live tail. */
module Backfill {
  import opened Types
  import opened CursorCodec
  import opened Cache
  import opened CacheChain
  import opened Archive
  import opened Archiver

  datatype Status =
    | InvalidCursor
    | NotImplemented
    | NoCache
    | ArchiveWalkFailed(error: ArchiveError)
    | BelowCoverage(start: Height, cacheMin: Height)
    | AheadOfTip(start: Height, cacheMax: Height)
    | EvictedMidWalk(height: Height)
    | NothingCached

  /** The fields of a stream request that choose its start. */
  datatype Request = Request(
    cursor: string, startBlockNum: int, stopBlockNum: nat, finalBlocksOnly: bool, transforms: nat)

  /** What goes on the wire: the step, the metadata, the payload and the cursor. */
  datatype Response = Response(
    step: Step, num: Height, blockId: BlockId, parentNum: Height, parentId: BlockId, libNum: Height,
    payload: seq<byte>, cursor: string)

  /** What decoding an archived payload yields; None when it does not decode. */
  datatype ArchivedMeta = ArchivedMeta(parentId: BlockId, libNum: Height)

  type Decoder = seq<byte> -> Option<ArchivedMeta>

  const ARCHIVE_WALK_LIMIT: nat := 5000

  function SaturatingSucc(h: Height): Height {
    if h == U64_MAX then h else h + 1
  }

  function SaturatingPred(h: Height): Height {
    if h == 0 then 0 else h - 1
  }

  /** The first height to serve; None for a live tail. */
  function StartHeight(req: Request): Result<Option<Height>, Status>
    requires -0x8000_0000_0000_0000 <= req.startBlockNum < 0x8000_0000_0000_0000
  {
    var start: Result<Option<Height>, Status> :=
      if req.cursor != "" then
        var bytes := HexDecode(req.cursor);
        if bytes.None? then Err(InvalidCursor)
        else
          var cur := FromBytes(bytes.value);
          if cur.None? then Err(InvalidCursor) else Ok(Some(SaturatingSucc(cur.value.height)))
      else if req.startBlockNum > 0 then Ok(Some(req.startBlockNum))
      else if req.startBlockNum < 0 then Err(NotImplemented)
      else Ok(None);
    if start.Err? then start
    else if req.stopBlockNum != 0 || req.finalBlocksOnly || req.transforms != 0 then Err(NotImplemented)
    else start
  }

  function WireCursor(height: Height, id: BlockId): string {
    HexEncode(ToBytes(Cursor(height, id)))
  }

  /** Resuming with the cursor of a block starts right after it, whatever start number is also given. */
  lemma ResumeAfter(height: Height, id: BlockId, startBlockNum: int)
    requires -0x8000_0000_0000_0000 <= startBlockNum < 0x8000_0000_0000_0000
    ensures StartHeight(Request(WireCursor(height, id), startBlockNum, 0, false, 0)) == Ok(Some(SaturatingSucc(height)))
  {
    HexRoundTrip(ToBytes(Cursor(height, id)));
    CursorRoundTrip(Cursor(height, id), []);
  }

  // Projections

  function ToResponse(encode: Encoder, s: StreamableBlock, step: Step): Response {
    Response(step, s.block.height, s.block.blockId, SaturatingPred(s.block.height), s.block.parentId,
      if s.finality.solidifiedHead.Some? then s.finality.solidifiedHead.value else 0,
      encode(s.block, s.finality), WireCursor(s.cursor.height, s.cursor.blockId))
  }

  function OutputToResponse(encode: Encoder, o: Output): Option<Response> {
    match o
    case New(s) => Some(ToResponse(encode, s, StepNew))
    case Undo(s) => Some(ToResponse(encode, s, StepUndo))
    case Irreversible(s) => Some(ToResponse(encode, s, StepIrreversible))
    case ForkObserved(_) => None
    case ForkResolved(_, _) => None
  }

  function CachedResponse(encode: Encoder, b: BufferedBlock, head: Option<Height>): Response {
    ToResponse(encode, StreamableBlock(StepNew, b, CursorOf(b), ForBlock(b.height, head, false)), StepNew)
  }

  function RowResponse(row: Row, meta: ArchivedMeta): Response {
    Response(StepNew, row.height, row.blockId, SaturatingPred(row.height), meta.parentId, meta.libNum,
      row.payload, WireCursor(row.height, row.blockId))
  }

  // Stage 1: the archive

  /** The decodable rows, projected. */
  function Projected(decode: Decoder, rows: seq<Row>): seq<Response> {
    if rows == [] then []
    else
      var last := rows[|rows| - 1];
      Projected(decode, rows[..|rows| - 1])
      + (match decode(last.payload) case Some(meta) => [RowResponse(last, meta)] case None => [])
  }

  ghost function ArchiveWalked(decode: Decoder, table: Table, lo: Height, hi: Height): Result<seq<Response>, Status> {
    match Scan(table, lo, hi, ARCHIVE_WALK_LIMIT)
    case Err(e) => Err(ArchiveWalkFailed(e))
    case Ok(rows) => Ok(Projected(decode, rows))
  }

  method ArchiveWalk(decode: Decoder, archive: BlockArchive, lo: Height, hi: Height)
      returns (r: Result<seq<Response>, Status>)
    ensures r == ArchiveWalked(decode, archive.table, lo, hi)
  {
    var scanned := archive.Range(lo, hi, ARCHIVE_WALK_LIMIT);
    if scanned.Err? {
      return Err(ArchiveWalkFailed(scanned.error));
    }
    var rows := scanned.value;
    var out: seq<Response> := [];
    for i := 0 to |rows|
      invariant out == Projected(decode, rows[..i])
    {
      assert rows[..i + 1][..i] == rows[..i];
      var meta := decode(rows[i].payload);
      if meta.None? {
        continue;
      }
      out := out + [RowResponse(rows[i], meta.value)];
    }
    assert rows[..|rows|] == rows;
    r := Ok(out);
  }

  type Window = Option<(Height, Height)>

  /** The archive's highest key. */
  ghost function TopOf(table: Table): Option<Height> {
    if table.Keys == {} then None
    else
      GreatestExists(table.Keys);
      var top :| IsGreatest(table.Keys, top);
      Some(top)
  }

  /** The rows served from the archive, for a request below the cache or with nothing cached. */
  ghost function ArchiveStage(decode: Decoder, archive: Option<Table>, window: Window, h: Height)
    : Result<seq<Response>, Status>
  {
    if archive.Some? && window.Some? && h < window.value.0 then
      ArchiveWalked(decode, archive.value, h, SaturatingPred(window.value.0))
    else if archive.Some? && window.None? && TopOf(archive.value).Some? && TopOf(archive.value).value >= h then
      ArchiveWalked(decode, archive.value, h, TopOf(archive.value).value)
    else Ok([])
  }

  // Stage 2: the cache

  /** The cached blocks of `[from, max]`, refused at the first one missing. */
  function CacheWalked(m: Cached, from: int, max: Height): Result<seq<BufferedBlock>, Status>
    requires 0 <= from
    decreases max - from
  {
    if from > max then Ok([])
    else if from !in m then Err(EvictedMidWalk(from))
    else Prepend([m[from].1], CacheWalked(m, from + 1, max))
  }

  function Prepend(rows: seq<BufferedBlock>, rest: Result<seq<BufferedBlock>, Status>)
    : Result<seq<BufferedBlock>, Status>
  {
    match rest
    case Err(e) => Err(e)
    case Ok(more) => Ok(rows + more)
  }

  lemma PrependOne(rows: seq<BufferedBlock>, b: BufferedBlock, rest: Result<seq<BufferedBlock>, Status>)
    ensures Prepend(rows, Prepend([b], rest)) == Prepend(rows + [b], rest)
  {
    if rest.Ok? {
      assert rows + ([b] + rest.value) == (rows + [b]) + rest.value;
    }
  }

  method CacheWalk(cache: BlockCache<BufferedBlock>, from: Height, max: Height)
      returns (r: Result<seq<BufferedBlock>, Status>)
    ensures r == CacheWalked(cache.byHeight, from, max)
  {
    var rows: seq<BufferedBlock> := [];
    var height: int := from;
    assert forall rest: seq<BufferedBlock> :: [] + rest == rest;
    while height <= max
      invariant from <= height
      invariant CacheWalked(cache.byHeight, from, max) == Prepend(rows, CacheWalked(cache.byHeight, height, max))
      decreases max - height
    {
      var entry := cache.GetByHeight(height);
      if entry.None? {
        return Err(EvictedMidWalk(height));
      }
      PrependOne(rows, entry.value.1, CacheWalked(cache.byHeight, height + 1, max));
      rows := rows + [entry.value.1];
      height := height + 1;
    }
    assert rows + [] == rows;
    r := Ok(rows);
  }

  function CachedResponses(encode: Encoder, blocks: seq<BufferedBlock>, head: Option<Height>): seq<Response> {
    seq(|blocks|, i requires 0 <= i < |blocks| => CachedResponse(encode, blocks[i], head))
  }

  function ResumePoint(rows: seq<Response>, h: Height): Height {
    if rows == [] then h else SaturatingSucc(rows[|rows| - 1].num)
  }

  function CacheStage(encode: Encoder, window: Window, m: Cached, archived: seq<Response>, h: Height,
      head: Option<Height>)
    : Result<seq<Response>, Status>
  {
    var from := ResumePoint(archived, h);
    if window.None? then (if archived == [] then Err(NothingCached) else Ok([]))
    else if from < window.value.0 then Err(BelowCoverage(h, window.value.0))
    else if from > SaturatingSucc(window.value.1) then Err(AheadOfTip(h, window.value.1))
    else
      match CacheWalked(m, from, window.value.1)
      case Err(e) => Err(e)
      case Ok(blocks) => Ok(CachedResponses(encode, blocks, head))
  }

  /** Archive rows, then cache rows. The window is the snapshot taken earlier; the cache may have moved on. */
  ghost function Staged(encode: Encoder, decode: Decoder, archive: Option<Table>, window: Window,
      m: Cached, h: Height, head: Option<Height>): Result<seq<Response>, Status>
  {
    match ArchiveStage(decode, archive, window, h)
    case Err(e) => Err(e)
    case Ok(archived) =>
      match CacheStage(encode, window, m, archived, h, head)
      case Err(e) => Err(e)
      case Ok(cached) => Ok(archived + cached)
  }

  class StreamService {
    const cache: BlockCache?<BufferedBlock>
    const archive: BlockArchive?
    const encode: Encoder
    const decode: Decoder

    constructor (cache: BlockCache?<BufferedBlock>, archive: BlockArchive?, encode: Encoder, decode: Decoder)
      ensures this.cache == cache && this.archive == archive && this.encode == encode && this.decode == decode
    {
      this.cache := cache;
      this.archive := archive;
      this.encode := encode;
      this.decode := decode;
    }

    /** Snapshot the cache range; the walk happens later. */
    method Snapshot() returns (r: Result<Window, Status>)
      ensures cache == null ==> r == Err(NoCache)
      ensures cache != null ==> r.Ok? && (r.value.None? <==> cache.byHeight == map[])
      ensures cache != null && r.value.Some? ==>
        IsLeast(cache.byHeight.Keys, r.value.value.0) && IsGreatest(cache.byHeight.Keys, r.value.value.1)
    {
      if cache == null {
        return Err(NoCache);
      }
      var mn := cache.MinHeight();
      var mx := cache.MaxHeight();
      return Ok(if mn.Some? && mx.Some? then Some((mn.value, mx.value)) else None);
    }

    /** The backfill for a start height, given the window snapshot. */
    method BackfillFrom(h: Height, window: Window, head: Option<Height>) returns (r: Result<seq<Response>, Status>)
      ensures r == if cache == null then Err(NoCache) else
        Staged(encode, decode, if archive == null then None else Some(archive.table), window, cache.byHeight, h, head)
    {
      if cache == null {
        return Err(NoCache);
      }
      var archived: Result<seq<Response>, Status> := Ok([]);
      if archive != null {
        var max := archive.MaxHeight();
        assert max == TopOf(archive.table);
        if window.Some? {
          if h < window.value.0 {
            archived := ArchiveWalk(decode, archive, h, SaturatingPred(window.value.0));
          }
        } else if max.Some? && max.value >= h {
          archived := ArchiveWalk(decode, archive, h, max.value);
        }
      }
      if archived.Err? {
        return Err(archived.error);
      }
      var cached := ServeCached(window, archived.value, h, head);
      if cached.Err? {
        return Err(cached.error);
      }
      return Ok(archived.value + cached.value);
    }

    method ServeCached(window: Window, archived: seq<Response>, h: Height, head: Option<Height>)
        returns (r: Result<seq<Response>, Status>)
      requires cache != null
      ensures r == CacheStage(encode, window, cache.byHeight, archived, h, head)
    {
      var from := ResumePoint(archived, h);
      if window.None? {
        return if archived == [] then Err(NothingCached) else Ok([]);
      }
      if from < window.value.0 {
        return Err(BelowCoverage(h, window.value.0));
      }
      if from > SaturatingSucc(window.value.1) {
        return Err(AheadOfTip(h, window.value.1));
      }
      var blocks := CacheWalk(cache, from, window.value.1);
      if blocks.Err? {
        return Err(blocks.error);
      }
      return Ok(CachedResponses(encode, blocks.value, head));
    }
  }
}
