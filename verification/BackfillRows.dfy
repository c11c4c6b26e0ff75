/** Which rows a served backfill has, and what each of them says; and what a refusal with nothing cached says. */
module BackfillRows {
  import opened Types
  import opened CacheChain
  import opened Archive
  import opened Archiver
  import opened Backfill
  import opened BackfillLaws

  /** A walk serves the visited heights that decode, in ascending order. */
  lemma WalkServes(decode: Decoder, table: Table, lo: Height, hi: Height)
    requires ArchiveWalked(decode, table, lo, hi).Ok?
    ensures var nums := Nums(ArchiveWalked(decode, table, lo, hi).value);
      && StrictlyAscending(nums)
      && forall k :: k in nums <==> k in ScanKeys(table, lo, hi, ARCHIVE_WALK_LIMIT) && Decodes(decode, table, k)
  {
    var keys := ScanKeys(table, lo, hi, ARCHIVE_WALK_LIMIT);
    var rows := UnpackAll(table, keys).value;
    WalkSound(decode, table, lo, hi);
    UnpackAllRows(table, keys);
    ProjectedNums(decode, rows);
    var nums := Nums(ArchiveWalked(decode, table, lo, hi).value);
    forall k ensures k in nums <==> k in keys && Decodes(decode, table, k) {
      if k in nums {
        var i :| 0 <= i < |rows| && rows[i].height == k && decode(rows[i].payload).Some?;
        assert keys[i] == k;
      }
      if k in keys && Decodes(decode, table, k) {
        VisitedIsServed(decode, table, keys, rows, k);
      }
    }
  }

  lemma VisitedIsServed(decode: Decoder, table: Table, keys: seq<Height>, rows: seq<Row>, k: Height)
    requires |rows| == |keys| && k in keys && Decodes(decode, table, k)
    requires forall i :: 0 <= i < |keys| ==> rows[i].height == keys[i] && IsStored(table, rows[i])
    ensures k in Nums(Projected(decode, rows))
  {
    var i :| 0 <= i < |keys| && keys[i] == k;
    ProjectedNums(decode, rows);
    PackRoundTrip(k, rows[i].blockId, rows[i].payload, []);
  }

  /** A row of the archive: what is stored at its height, taken apart, and what the payload decodes to. */
  ghost predicate FromArchive(decode: Decoder, table: Table, r: Response) {
    && r.num in table && |table[r.num]| >= 32
    && TellsRow(decode, r, Row(r.num, BlockId(table[r.num][..32]), table[r.num][32..]))
  }

  lemma WalkTells(decode: Decoder, table: Table, lo: Height, hi: Height)
    requires ArchiveWalked(decode, table, lo, hi).Ok?
    ensures var rows := ArchiveWalked(decode, table, lo, hi).value;
      forall i :: 0 <= i < |rows| ==> FromArchive(decode, table, rows[i])
  {
    var rows := ArchiveWalked(decode, table, lo, hi).value;
    forall i | 0 <= i < |rows| ensures FromArchive(decode, table, rows[i]) {
      ArchiveRowsTell(decode, table, lo, hi, i);
    }
  }

  // With nothing cached

  /** A served request gets exactly the heights that decode among those one walk reaches, in ascending order, each
      with what is stored there. */
  lemma ColdRows(encode: Encoder, decode: Decoder, archive: Option<Table>, m: Cached, h: Height, head: Option<Height>)
    requires Staged(encode, decode, archive, None, m, h, head).Ok?
    ensures archive.Some?
    ensures var rows := Staged(encode, decode, archive, None, m, h, head).value;
      && StrictlyAscending(Nums(rows))
      && (forall k :: k in Nums(rows) <==> Reachable(archive.value, h, k) && Decodes(decode, archive.value, k))
      && (forall i :: 0 <= i < |rows| ==> FromArchive(decode, archive.value, rows[i]))
  {
    var table := archive.value;
    var top := TopOf(table).value;
    ReachableIsVisited(table, h, top);
    WalkServes(decode, table, h, top);
    WalkTells(decode, table, h, top);
    var rows := ArchiveWalked(decode, table, h, top).value;
    assert rows + [] == rows;
  }

  /** The lowest of the heights one walk reaches whose value is shorter than an id. */
  ghost predicate FirstShort(table: Table, h: Height, e: ArchiveError) {
    && Reachable(table, h, e.height) && |table[e.height]| == e.len < 32
    && forall k: Height :: Reachable(table, h, k) && k < e.height ==> |table[k]| >= 32
  }

  /** A refused request is told of the first truncated value, or that nothing can be served. */
  lemma ColdRefusal(encode: Encoder, decode: Decoder, archive: Option<Table>, m: Cached, h: Height,
      head: Option<Height>)
    requires Staged(encode, decode, archive, None, m, h, head).Err?
    ensures var e := Staged(encode, decode, archive, None, m, h, head).error;
      if archive.Some? && exists k :: Reachable(archive.value, h, k) && |archive.value[k]| < 32
      then e.ArchiveWalkFailed? && FirstShort(archive.value, h, e.error)
      else e == NothingCached
  {
    if archive.Some? {
      var table := archive.value;
      var top := TopOf(table);
      assert forall k :: k in table ==> top.Some? && k <= top.value;
      if top.Some? && top.value >= h {
        WalkOutcome(decode, table, h, top.value);
        ReachableIsVisited(table, h, top.value);
        if ArchiveWalked(decode, table, h, top.value).Err? {
          ScanRefuses(table, h, top.value, ARCHIVE_WALK_LIMIT);
        }
      }
    }
  }

  // With a non-empty cache

  /** A row of the cache: the block cached at its height, under the head. */
  ghost predicate FromCache(encode: Encoder, m: Cached, head: Option<Height>, r: Response) {
    r.num in m && TellsCached(encode, r, m[r.num].1, head)
  }

  /** A served request gets what the archive holds and decodes from its start up to the cache, each with what is
      stored there, and then the cached heights, each with its block. */
  lemma WarmRows(encode: Encoder, decode: Decoder, archive: Option<Table>, mn: Height, mx: Height, m: Cached,
      h: Height, head: Option<Height>)
    requires mn <= mx && Keyed(m) && Staged(encode, decode, archive, Some((mn, mx)), m, h, head).Ok?
    ensures var rows := Staged(encode, decode, archive, Some((mn, mx)), m, h, head).value;
      && StrictlyAscending(Nums(rows))
      && (forall k: Height :: k in Nums(rows) <==> InArchive(decode, archive, h, mn, k) || Max(h, mn) <= k <= mx)
      && (forall i :: 0 <= i < |rows| ==>
        if rows[i].num < mn then archive.Some? && FromArchive(decode, archive.value, rows[i])
        else FromCache(encode, m, head, rows[i]))
  {
    WarmNums(encode, decode, archive, mn, mx, m, h, head);
    var rows := Staged(encode, decode, archive, Some((mn, mx)), m, h, head).value;
    forall i | 0 <= i < |rows|
      ensures if rows[i].num < mn then archive.Some? && FromArchive(decode, archive.value, rows[i])
        else FromCache(encode, m, head, rows[i])
    {
      WarmRow(encode, decode, archive, mn, mx, m, h, head, i);
    }
  }

  ghost predicate InArchive(decode: Decoder, archive: Option<Table>, h: Height, mn: Height, k: Height) {
    h <= k < mn && archive.Some? && Decodes(decode, archive.value, k)
  }

  lemma WarmRow(encode: Encoder, decode: Decoder, archive: Option<Table>, mn: Height, mx: Height, m: Cached,
      h: Height, head: Option<Height>, i: nat)
    requires mn <= mx && Keyed(m) && Staged(encode, decode, archive, Some((mn, mx)), m, h, head).Ok?
    requires i < |Staged(encode, decode, archive, Some((mn, mx)), m, h, head).value|
    ensures var r := Staged(encode, decode, archive, Some((mn, mx)), m, h, head).value[i];
      if r.num < mn then archive.Some? && FromArchive(decode, archive.value, r) else FromCache(encode, m, head, r)
  {
    StagedParts(encode, decode, archive, mn, mx, m, h, head);
    var archived := ArchiveStage(decode, archive, Some((mn, mx)), h).value;
    if i < |archived| {
      WalkTells(decode, archive.value, h, mn - 1);
    } else {
      CachedRowsTell(encode, Some((mn, mx)), m, archived, h, head, i - |archived|);
    }
  }

  lemma WarmNums(encode: Encoder, decode: Decoder, archive: Option<Table>, mn: Height, mx: Height, m: Cached,
      h: Height, head: Option<Height>)
    requires mn <= mx && Keyed(m) && Staged(encode, decode, archive, Some((mn, mx)), m, h, head).Ok?
    ensures var nums := Nums(Staged(encode, decode, archive, Some((mn, mx)), m, h, head).value);
      && StrictlyAscending(nums)
      && forall k: Height :: k in nums <==> InArchive(decode, archive, h, mn, k) || Max(h, mn) <= k <= mx
  {
    StagedBackfill(encode, decode, archive, mn, mx, m, h, head);
    StagedParts(encode, decode, archive, mn, mx, m, h, head);
    var rows := Staged(encode, decode, archive, Some((mn, mx)), m, h, head).value;
    var archived := ArchiveStage(decode, archive, Some((mn, mx)), h).value;
    ArchivePart(decode, archive, mn, mx, h);
    forall k: Height ensures k in Nums(rows) <==> InArchive(decode, archive, h, mn, k) || Max(h, mn) <= k <= mx {
      JoinedNums(archived, rows, mn, mx, h, k);
    }
  }

  lemma JoinedNums(archived: seq<Response>, rows: seq<Response>, mn: Height, mx: Height, h: Height, k: Height)
    requires mn <= mx && Parts(archived, rows, mn, mx, h)
    ensures k in Nums(rows) <==> k in Nums(archived) || Max(h, mn) <= k <= mx
  {
    var n := |archived|;
    if k in Nums(rows) {
      var i :| 0 <= i < |rows| && rows[i].num == k;
      assert i < n ==> Nums(archived)[i] == k;
    }
    if k in Nums(archived) {
      var i :| 0 <= i < n && archived[i].num == k;
      assert Nums(rows)[i] == k;
    }
    if Max(h, mn) <= k <= mx {
      assert Nums(rows)[n + k - Max(h, mn)] == k;
    }
  }

  lemma ArchivePart(decode: Decoder, archive: Option<Table>, mn: Height, mx: Height, h: Height)
    requires mn <= mx && ArchiveStage(decode, archive, Some((mn, mx)), h).Ok?
    requires var archived := ArchiveStage(decode, archive, Some((mn, mx)), h).value;
      if archived == [] then mn <= h else h < mn && archived[|archived| - 1].num == mn - 1
    ensures var nums := Nums(ArchiveStage(decode, archive, Some((mn, mx)), h).value);
      forall k: Height :: k in nums <==> InArchive(decode, archive, h, mn, k)
  {
    if h < mn {
      var table := archive.value;
      WalkServes(decode, table, h, mn - 1);
      FullWalkFits(decode, table, h, mn - 1);
      AllInWalk(table, h, mn - 1);
    }
  }
}
