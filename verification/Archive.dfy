/** The persistent block archive over a height-keyed table of packed values. */
module Archive {
  import opened Types
  import opened Cache

  type Table = map<Height, seq<byte>>

  datatype ArchiveError = Truncated(height: Height, len: nat)

  datatype Row = Row(height: Height, blockId: BlockId, payload: seq<byte>)

  // Packed values

  function PackValue(id: BlockId, payload: seq<byte>): seq<byte> {
    id.bytes + payload
  }

  function UnpackValue(height: Height, bytes: seq<byte>): Result<Row, ArchiveError> {
    if |bytes| < 32 then Err(Truncated(height, |bytes|))
    else Ok(Row(height, BlockId(bytes[..32]), bytes[32..]))
  }

  /** A packed value is the id followed by the payload; packing and unpacking are mutual inverses, and exactly the
      values shorter than an id are refused. */
  lemma PackRoundTrip(height: Height, id: BlockId, payload: seq<byte>, bytes: seq<byte>)
    ensures PackValue(id, payload)[..32] == id.bytes && PackValue(id, payload)[32..] == payload
    ensures UnpackValue(height, PackValue(id, payload)) == Ok(Row(height, id, payload))
    ensures match UnpackValue(height, bytes)
      case Ok(row) => row.height == height && PackValue(row.blockId, row.payload) == bytes
      case Err(e) => |bytes| < 32 && e == Truncated(height, |bytes|)
  {
  }

  // Ordered scans

  /** The elements in ascending order. */
  ghost function Ascending(s: set<Height>): seq<Height>
    decreases |s|
  {
    if s == {} then []
    else
      LeastExists(s);
      var least :| IsLeast(s, least);
      [least] + Ascending(s - {least})
  }

  lemma AscendingStep(s: set<Height>, least: Height)
    requires IsLeast(s, least)
    ensures Ascending(s) == [least] + Ascending(s - {least})
  {
  }

  lemma {:induction false} AscendingElements(s: set<Height>)
    ensures |Ascending(s)| == |s|
    ensures forall k :: k in Ascending(s) <==> k in s
    decreases |s|
  {
    if s != {} {
      LeastExists(s);
      var least :| IsLeast(s, least);
      AscendingStep(s, least);
      AscendingElements(s - {least});
    }
  }

  lemma {:induction false} AscendingSorted(s: set<Height>)
    ensures StrictlyAscending(Ascending(s))
    decreases |s|
  {
    if s != {} {
      LeastExists(s);
      var least :| IsLeast(s, least);
      AscendingStep(s, least);
      AscendingSorted(s - {least});
      var rest := Ascending(s - {least});
      AscendingElements(s - {least});
      forall i | 0 <= i < |rest| ensures least < rest[i] {
        assert rest[i] in s - {least};
      }
    }
  }

  lemma AscendingExact(s: set<Height>)
    ensures |Ascending(s)| == |s|
    ensures forall k :: k in Ascending(s) <==> k in s
    ensures forall i :: 0 <= i < |Ascending(s)| ==> Ascending(s)[i] in s
    ensures StrictlyAscending(Ascending(s))
  {
    AscendingElements(s);
    AscendingSorted(s);
    assert forall i :: 0 <= i < |Ascending(s)| ==> Ascending(s)[i] in Ascending(s);
  }

  ghost predicate StrictlyAscending(keys: seq<Height>) {
    forall i, j :: 0 <= i < j < |keys| ==> keys[i] < keys[j]
  }

  function KeysIn(table: Table, lo: Height, hi: Height): set<Height> {
    set k | k in table.Keys && lo <= k <= hi
  }

  ghost predicate Stored(table: Table, keys: seq<Height>) {
    forall i :: 0 <= i < |keys| ==> keys[i] in table
  }

  /** The rows of the given keys, up to the first value that does not unpack. */
  ghost function UnpackAll(table: Table, keys: seq<Height>): Result<seq<Row>, ArchiveError>
    requires Stored(table, keys)
  {
    if keys == [] then Ok([])
    else
      var n := |keys| - 1;
      match UnpackAll(table, keys[..n])
      case Err(e) => Err(e)
      case Ok(rows) =>
        match UnpackValue(keys[n], table[keys[n]])
        case Err(e) => Err(e)
        case Ok(row) => Ok(rows + [row])
  }

  /** The keys a scan visits: the first `limit` of the range, in order. */
  ghost function ScanKeys(table: Table, lo: Height, hi: Height, limit: nat): (keys: seq<Height>)
    ensures Stored(table, keys)
  {
    var all := Ascending(KeysIn(table, lo, hi));
    AscendingExact(KeysIn(table, lo, hi));
    all[..Min(limit, |all|)]
  }

  ghost function Scan(table: Table, lo: Height, hi: Height, limit: nat): Result<seq<Row>, ArchiveError> {
    UnpackAll(table, ScanKeys(table, lo, hi, limit))
  }

  lemma {:induction false} UnpackAllRows(table: Table, keys: seq<Height>)
    requires Stored(table, keys) && UnpackAll(table, keys).Ok?
    ensures var rows := UnpackAll(table, keys).value;
      && |rows| == |keys|
      && forall i :: 0 <= i < |keys| ==>
        rows[i].height == keys[i] && PackValue(rows[i].blockId, rows[i].payload) == table[keys[i]]
  {
    if keys != [] {
      var n := |keys| - 1;
      UnpackAllRows(table, keys[..n]);
      PackRoundTrip(keys[n], BlockId(seq(32, _ => 0)), [], table[keys[n]]);
    }
  }

  lemma {:induction false} UnpackAllFails(table: Table, keys: seq<Height>, n: nat)
    requires n <= |keys| && Stored(table, keys)
    requires UnpackAll(table, keys[..n]).Err?
    ensures UnpackAll(table, keys) == UnpackAll(table, keys[..n])
  {
    if n == |keys| {
      assert keys[..n] == keys;
    } else {
      var m := |keys| - 1;
      assert keys[..m][..n] == keys[..n];
      UnpackAllFails(table, keys[..m], n);
    }
  }

  /** A scan in progress takes the least remaining key next. */
  lemma ScanStep(table: Table, lo: Height, hi: Height, limit: nat, remaining: set<Height>, n: nat, height: Height)
    requires IsLeast(remaining, height) && n < limit
    requires n <= |Ascending(KeysIn(table, lo, hi))| && Ascending(remaining) == Ascending(KeysIn(table, lo, hi))[n..]
    ensures n < |ScanKeys(table, lo, hi, limit)| && ScanKeys(table, lo, hi, limit)[n] == height
    ensures Ascending(remaining - {height}) == Ascending(KeysIn(table, lo, hi))[n + 1..]
  {
    var all := Ascending(KeysIn(table, lo, hi));
    AscendingStep(remaining, height);
    assert all[n..][0] == height && all[n..][1..] == all[n + 1..];
  }

  lemma UnpackStep(table: Table, keys: seq<Height>, n: nat, out: seq<Row>)
    requires Stored(table, keys) && n < |keys| && UnpackAll(table, keys[..n]) == Ok(out)
    ensures match UnpackValue(keys[n], table[keys[n]])
      case Ok(row) => UnpackAll(table, keys[..n + 1]) == Ok(out + [row])
      case Err(e) => UnpackAll(table, keys) == Err(e)
  {
    assert keys[..n + 1][..n] == keys[..n];
    if UnpackValue(keys[n], table[keys[n]]).Err? {
      UnpackAllFails(table, keys, n + 1);
    }
  }

  function Heights(rows: seq<Row>): seq<Height> {
    seq(|rows|, i requires 0 <= i < |rows| => rows[i].height)
  }

  /** A prefix of a sorted listing skips nothing before its last element. */
  lemma SortedPrefix(all: seq<Height>, n: nat, k: Height)
    requires StrictlyAscending(all) && 0 < n <= |all| && k in all && k <= all[n - 1]
    ensures k in all[..n]
  {
  }

  lemma ScanKeysExact(table: Table, lo: Height, hi: Height, limit: nat)
    ensures var keys := ScanKeys(table, lo, hi, limit);
      && |keys| == Min(limit, |KeysIn(table, lo, hi)|)
      && StrictlyAscending(keys)
      && (forall i :: 0 <= i < |keys| ==> keys[i] in KeysIn(table, lo, hi))
      && (forall k :: k in KeysIn(table, lo, hi) && keys != [] && k <= keys[|keys| - 1] ==> k in keys)
      && (|KeysIn(table, lo, hi)| <= limit ==> forall k :: k in KeysIn(table, lo, hi) ==> k in keys)
  {
    var all := Ascending(KeysIn(table, lo, hi));
    AscendingExact(KeysIn(table, lo, hi));
    var keys := ScanKeys(table, lo, hi, limit);
    forall k | k in KeysIn(table, lo, hi) && keys != [] && k <= keys[|keys| - 1] ensures k in keys {
      SortedPrefix(all, |keys|, k);
    }
    assert |all| <= limit ==> keys == all;
  }

  /** What a scan returns: ascending stored rows of the range, none skipped before the last one, and all
      of them when the limit was not reached. */
  lemma ScanExact(table: Table, lo: Height, hi: Height, limit: nat)
    requires Scan(table, lo, hi, limit).Ok?
    ensures var rows := Scan(table, lo, hi, limit).value;
      var keys := Heights(rows);
      && |keys| == Min(limit, |KeysIn(table, lo, hi)|)
      && StrictlyAscending(keys)
      && (forall i :: 0 <= i < |keys| ==> keys[i] in KeysIn(table, lo, hi))
      && (forall k :: k in KeysIn(table, lo, hi) && keys != [] && k <= keys[|keys| - 1] ==> k in keys)
      && (|KeysIn(table, lo, hi)| <= limit ==> forall k :: k in KeysIn(table, lo, hi) ==> k in keys)
      && (forall i :: 0 <= i < |rows| ==> (rows[i].height in table
            && PackValue(rows[i].blockId, rows[i].payload) == table[rows[i].height]))
  {
    ScanKeysExact(table, lo, hi, limit);
    UnpackAllRows(table, ScanKeys(table, lo, hi, limit));
    assert Heights(Scan(table, lo, hi, limit).value) == ScanKeys(table, lo, hi, limit);
  }

  /** Why a scan fails: the lowest truncated value of the range, if the scan gets that far. */
  ghost predicate FirstTruncated(table: Table, lo: Height, hi: Height, limit: nat, e: ArchiveError) {
    && e.height in KeysIn(table, lo, hi) && |table[e.height]| == e.len < 32
    && e.height in ScanKeys(table, lo, hi, limit)
    && forall k :: k in KeysIn(table, lo, hi) && k < e.height ==> |table[k]| >= 32
  }

  lemma {:induction false} UnpackAllError(table: Table, keys: seq<Height>) returns (i: nat)
    requires Stored(table, keys) && UnpackAll(table, keys).Err?
    ensures i < |keys| && UnpackAll(table, keys) == Err(Truncated(keys[i], |table[keys[i]]|)) && |table[keys[i]]| < 32
    ensures forall j :: 0 <= j < i ==> |table[keys[j]]| >= 32
  {
    var n := |keys| - 1;
    if UnpackAll(table, keys[..n]).Err? {
      i := UnpackAllError(table, keys[..n]);
      assert forall j :: 0 <= j <= i ==> keys[..n][j] == keys[j];
    } else {
      i := n;
      UnpackAllRows(table, keys[..n]);
      forall j | 0 <= j < n ensures |table[keys[j]]| >= 32 {
        assert keys[..n][j] == keys[j];
      }
    }
  }

  lemma ScanRefuses(table: Table, lo: Height, hi: Height, limit: nat)
    requires Scan(table, lo, hi, limit).Err?
    ensures FirstTruncated(table, lo, hi, limit, Scan(table, lo, hi, limit).error)
  {
    var keys := ScanKeys(table, lo, hi, limit);
    ScanKeysExact(table, lo, hi, limit);
    var i := UnpackAllError(table, keys);
    forall k | k in KeysIn(table, lo, hi) && k < keys[i] ensures |table[k]| >= 32 {
      assert keys[i] <= keys[|keys| - 1];
      var j :| 0 <= j < |keys| && keys[j] == k;
      assert j < i;
    }
  }

  lemma EmptyScan(table: Table, lo: Height, hi: Height, limit: nat)
    requires lo > hi || limit == 0
    ensures Scan(table, lo, hi, limit) == Ok([])
  {
    ScanKeysExact(table, lo, hi, limit);
    assert KeysIn(table, lo, hi) == {} || limit == 0;
    assert ScanKeys(table, lo, hi, limit) == [];
  }

  /** A scan that has returned `out` and has these keys left to visit. */
  ghost predicate Scanning(table: Table, lo: Height, hi: Height, limit: nat, remaining: set<Height>, out: seq<Row>) {
    var (all, keys) := (Ascending(KeysIn(table, lo, hi)), ScanKeys(table, lo, hi, limit));
    && remaining <= table.Keys && |out| <= |keys| <= |all|
    && Ascending(remaining) == all[|out|..]
    && UnpackAll(table, keys[..|out|]) == Ok(out)
  }

  lemma ScanBegins(table: Table, lo: Height, hi: Height, limit: nat, remaining: set<Height>)
    requires remaining == KeysIn(table, lo, hi)
    ensures Scanning(table, lo, hi, limit, remaining, [])
  {
    AscendingExact(remaining);
  }

  lemma ScanTakes(table: Table, lo: Height, hi: Height, limit: nat, remaining: set<Height>, out: seq<Row>,
      height: Height)
    requires Scanning(table, lo, hi, limit, remaining, out) && |out| < limit && IsLeast(remaining, height)
    ensures height in table
    ensures match UnpackValue(height, table[height])
      case Ok(row) => Scanning(table, lo, hi, limit, remaining - {height}, out + [row])
      case Err(e) => Scan(table, lo, hi, limit) == Err(e)
  {
    ScanStep(table, lo, hi, limit, remaining, |out|, height);
    UnpackStep(table, ScanKeys(table, lo, hi, limit), |out|, out);
  }

  lemma ScanEnds(table: Table, lo: Height, hi: Height, limit: nat, remaining: set<Height>, out: seq<Row>)
    requires Scanning(table, lo, hi, limit, remaining, out) && (remaining == {} || |out| >= limit)
    ensures Scan(table, lo, hi, limit) == Ok(out)
  {
    var keys := ScanKeys(table, lo, hi, limit);
    ScanKeysExact(table, lo, hi, limit);
    AscendingExact(KeysIn(table, lo, hi));
    assert keys[..|out|] == keys;
  }

  function KeepFrom(table: Table, floor: Height): Table {
    map k | k in table && k >= floor :: table[k]
  }

  function PutAll(table: Table, items: seq<Row>): Table {
    if items == [] then table
    else
      var last := items[|items| - 1];
      PutAll(table, items[..|items| - 1])[last.height := PackValue(last.blockId, last.payload)]
  }

  /** Item `i` is the last one given for its height. */
  ghost predicate LastGiven(items: seq<Row>, i: nat) {
    i < |items| && forall j :: i < j < |items| ==> items[j].height != items[i].height
  }

  ghost predicate GivenFor(items: seq<Row>, k: Height) {
    exists i :: 0 <= i < |items| && items[i].height == k
  }

  /** Rows as they are after a batch: for each height it names the last item given for it, elsewhere what was there. */
  ghost predicate TookLast(before: Table, items: seq<Row>, after: Table) {
    && (forall i: nat :: LastGiven(items, i) ==> HasItem(after, items[i]))
    && (forall k :: !GivenFor(items, k) ==> SameAt(before, after, k))
  }

  ghost predicate HasItem(table: Table, item: Row) {
    && item.height in table && |table[item.height]| >= 32
    && table[item.height][..32] == item.blockId.bytes && table[item.height][32..] == item.payload
  }

  ghost predicate SameAt(before: Table, after: Table, k: Height) {
    (k in after <==> k in before) && (k in before ==> after[k] == before[k])
  }

  lemma {:induction false} PutAllTakesLast(table: Table, items: seq<Row>)
    ensures TookLast(table, items, PutAll(table, items))
  {
    if items != [] {
      var n := |items| - 1;
      PutAllTakesLast(table, items[..n]);
      PutOneTakesLast(table, items[..n], PutAll(table, items[..n]), items[n]);
      assert items[..n] + [items[n]] == items;
    }
  }

  lemma PutOneTakesLast(table: Table, items: seq<Row>, mid: Table, last: Row)
    requires TookLast(table, items, mid)
    ensures TookLast(table, items + [last], mid[last.height := PackValue(last.blockId, last.payload)])
  {
    var (all, after) := (items + [last], mid[last.height := PackValue(last.blockId, last.payload)]);
    PackRoundTrip(last.height, last.blockId, last.payload, []);
    forall i: nat | LastGiven(all, i) ensures HasItem(after, all[i]) {
      if i < |items| {
        assert all[|items|].height != all[i].height;
        LastGivenBefore(items, last, i);
      }
    }
    forall k | !GivenFor(all, k) ensures SameAt(table, after, k) {
      NotGivenBefore(items, last, k);
    }
  }

  lemma LastGivenBefore(items: seq<Row>, last: Row, i: nat)
    requires LastGiven(items + [last], i) && i < |items|
    ensures LastGiven(items, i) && (items + [last])[i] == items[i]
  {
    forall j | i < j < |items| ensures items[j].height != items[i].height {
      assert (items + [last])[j] == items[j];
    }
  }

  lemma NotGivenBefore(items: seq<Row>, last: Row, k: Height)
    requires !GivenFor(items + [last], k)
    ensures !GivenFor(items, k) && last.height != k
  {
    assert (items + [last])[|items|] == last;
    forall i | 0 <= i < |items| ensures items[i].height != k {
      assert (items + [last])[i] == items[i];
    }
  }

  class BlockArchive {
    var table: Table

    constructor ()
      ensures table == map[]
    {
      table := map[];
    }

    method Put(height: Height, id: BlockId, payload: seq<byte>)
      modifies this
      ensures table == old(table)[height := PackValue(id, payload)]
    {
      table := table[height := PackValue(id, payload)];
    }

    method PutBatch(items: seq<Row>)
      modifies this
      ensures table == PutAll(old(table), items) && TookLast(old(table), items, table)
    {
      for i := 0 to |items|
        invariant table == PutAll(old(table), items[..i])
      {
        assert items[..i + 1][..i] == items[..i];
        table := table[items[i].height := PackValue(items[i].blockId, items[i].payload)];
      }
      assert items[..|items|] == items;
      PutAllTakesLast(old(table), items);
    }

    method Get(height: Height) returns (r: Result<Option<Row>, ArchiveError>)
      ensures r == if height !in table then Ok(None)
        else match UnpackValue(height, table[height]) case Ok(row) => Ok(Some(row)) case Err(e) => Err(e)
    {
      if height !in table {
        return Ok(None);
      }
      match UnpackValue(height, table[height])
      case Ok(row) => return Ok(Some(row));
      case Err(e) => return Err(e);
    }

    /** Inclusive scan in ascending height order, at most `limit` rows. */
    method Range(start: Height, endInclusive: Height, limit: nat) returns (r: Result<seq<Row>, ArchiveError>)
      ensures r == Scan(table, start, endInclusive, limit)
    {
      if start > endInclusive || limit == 0 {
        EmptyScan(table, start, endInclusive, limit);
        return Ok([]);
      }
      var remaining: set<Height> := set k | k in table.Keys && start <= k <= endInclusive;
      var out: seq<Row> := [];
      ScanBegins(table, start, endInclusive, limit, remaining);
      while remaining != {}
        invariant Scanning(table, start, endInclusive, limit, remaining, out) && |out| < limit
        decreases |remaining|
      {
        LeastExists(remaining);
        var height :| height in remaining && IsLeast(remaining, height);
        ScanTakes(table, start, endInclusive, limit, remaining, out, height);
        var unpacked := UnpackValue(height, table[height]);
        if unpacked.Err? {
          return Err(unpacked.error);
        }
        remaining := remaining - {height};
        out := out + [unpacked.value];
        if |out| >= limit {
          break;
        }
      }
      ScanEnds(table, start, endInclusive, limit, remaining, out);
      r := Ok(out);
    }

    method DeleteBelow(floor: Height) returns (removed: nat)
      modifies this
      ensures table == KeepFrom(old(table), floor)
      ensures forall k :: k in table <==> k in old(table) && floor <= k
      ensures forall k :: k in table ==> table[k] == old(table)[k]
      ensures removed == |old(table)| - |table|
    {
      var toRemove := set k | k in table.Keys && k < floor;
      removed := |toRemove|;
      RemoveKeys(toRemove);
      assert table == KeepFrom(old(table), floor);
      assert old(table).Keys == table.Keys + toRemove;
      assert |old(table)| == |old(table).Keys| && |table| == |table.Keys|;
    }

    method RemoveKeys(keys: set<Height>)
      modifies this
      ensures table == old(table) - keys
    {
      var pending := keys;
      while pending != {}
        invariant pending <= keys && table == old(table) - (keys - pending)
        decreases |pending|
      {
        var k :| k in pending;
        assert keys - (pending - {k}) == (keys - pending) + {k};
        table := table - {k};
        pending := pending - {k};
      }
      assert keys - {} == keys;
    }

    method MinHeight() returns (r: Option<Height>)
      ensures r.None? <==> table == map[]
      ensures r.Some? ==> IsLeast(table.Keys, r.value)
    {
      if table.Keys == {} {
        return None;
      }
      LeastExists(table.Keys);
      var least :| least in table.Keys && IsLeast(table.Keys, least);
      return Some(least);
    }

    /** The last key of a full walk. */
    method MaxHeight() returns (r: Option<Height>)
      ensures r.None? <==> table == map[]
      ensures r.Some? ==> IsGreatest(table.Keys, r.value)
    {
      var remaining := table.Keys;
      r := None;
      while remaining != {}
        invariant remaining <= table.Keys
        invariant r.None? ==> remaining == table.Keys
        invariant r.Some? ==> r.value in table.Keys
        invariant r.Some? ==> forall k :: k in table.Keys ==> if k in remaining then r.value <= k else k <= r.value
        decreases |remaining|
      {
        LeastExists(remaining);
        var height :| height in remaining && IsLeast(remaining, height);
        r := Some(height);
        remaining := remaining - {height};
      }
    }
  }
}
