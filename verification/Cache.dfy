/** The bounded two-index block cache, and the single map it stands for. */
module Cache {
  import opened Types

  type Entry<T> = (BlockId, T)

  // What the cache stands for: one map by height, read by linear scan when asked for an id.

  /** Keys of the map strictly above `k`. */
  function KeysAbove<T>(m: map<Height, T>, k: Height): set<Height> {
    set j | j in m.Keys && j > k
  }

  /** The `capacity` greatest heights of the map. */
  function Newest<T>(m: map<Height, T>, capacity: nat): map<Height, T> {
    map k | k in m && |KeysAbove(m, k)| < capacity :: m[k]
  }

  function Without<T>(m: map<Height, Entry<T>>, id: BlockId): map<Height, Entry<T>> {
    map k | k in m && m[k].0 != id :: m[k]
  }

  function Updated<T>(m: map<Height, Entry<T>>, height: Height, id: BlockId, value: T): map<Height, Entry<T>> {
    Without(m, id)[height := (id, value)]
  }

  lemma SubsetCardinality<T>(a: set<T>, b: set<T>)
    requires a <= b
    ensures |a| <= |b|
    ensures a != b ==> |a| < |b|
  {
    assert b == a + (b - a);
    if a != b {
      assert b - a != {};
    }
  }

  predicate IsLeast(s: set<Height>, m: Height) {
    m in s && forall k :: k in s ==> m <= k
  }

  predicate IsGreatest(s: set<Height>, m: Height) {
    m in s && forall k :: k in s ==> k <= m
  }

  /** A non-empty set of heights has a least one. */
  lemma {:induction false} LeastExists(s: set<Height>)
    requires s != {}
    ensures exists m :: IsLeast(s, m)
  {
    var x :| x in s;
    if s == {x} {
      assert IsLeast(s, x);
    } else {
      LeastExists(s - {x});
      var m :| IsLeast(s - {x}, m);
      var least := if x < m then x else m;
      forall k | k in s ensures least <= k {
        assert k == x || k in s - {x};
      }
      assert IsLeast(s, least);
    }
  }

  lemma {:induction false} GreatestExists(s: set<Height>)
    requires s != {}
    ensures exists m :: IsGreatest(s, m)
  {
    var x :| x in s;
    if s == {x} {
      assert IsGreatest(s, x);
    } else {
      GreatestExists(s - {x});
      var m :| IsGreatest(s - {x}, m);
      var greatest := if x > m then x else m;
      forall k | k in s ensures k <= greatest {
        assert k == x || k in s - {x};
      }
      assert IsGreatest(s, greatest);
    }
  }

  /** A map that fits is kept whole. */
  lemma NewestAll<T>(m: map<Height, T>, capacity: nat)
    requires |m| <= capacity
    ensures Newest(m, capacity) == m
  {
    forall k | k in m ensures |KeysAbove(m, k)| < capacity {
      assert |m.Keys| == |m|;
      SubsetCardinality(KeysAbove(m, k), m.Keys);
      assert k !in KeysAbove(m, k);
    }
  }

  /** Dropping the least key of an overfull map does not change what is newest. */
  lemma NewestDropLeast<T>(m: map<Height, T>, capacity: nat, least: Height)
    requires |m| > capacity && IsLeast(m.Keys, least)
    ensures Newest(m - {least}, capacity) == Newest(m, capacity)
  {
    var rest := m - {least};
    assert KeysAbove(m, least) == m.Keys - {least};
    assert |m.Keys| == |m|;
    forall k | k in rest ensures KeysAbove(rest, k) == KeysAbove(m, k) {}
  }

  /** Never more than `capacity` heights, every kept height above every dropped one. */
  lemma NewestIsTop<T>(m: map<Height, T>, capacity: nat)
    ensures Newest(m, capacity).Keys <= m.Keys
    ensures forall k, d :: k in Newest(m, capacity) && d in m && d !in Newest(m, capacity) ==> d < k
    ensures |Newest(m, capacity)| == Min(|m|, capacity)
  {
    forall k, d | k in Newest(m, capacity) && d in m && d !in Newest(m, capacity) ensures d < k {
      if k < d {
        SubsetCardinality(KeysAbove(m, d), KeysAbove(m, k));
      }
    }
    NewestSize(m, capacity);
  }

  lemma SizeDropKey<T>(m: map<Height, T>, k: Height)
    requires k in m
    ensures |m - {k}| == |m| - 1
  {
  }

  lemma {:induction false} NewestSize<T>(m: map<Height, T>, capacity: nat)
    ensures |Newest(m, capacity)| == Min(|m|, capacity)
    decreases |m|
  {
    if |m| <= capacity {
      NewestAll(m, capacity);
    } else {
      assert |m.Keys| == |m|;
      LeastExists(m.Keys);
      var least :| IsLeast(m.Keys, least);
      NewestDropLeast(m, capacity, least);
      SizeDropKey(m, least);
      NewestSize(m - {least}, capacity);
    }
  }

  /** The two indexes are mutually inverse. */
  ghost predicate Inverse<T>(m: map<Height, Entry<T>>, i: map<BlockId, Height>) {
    && (forall h :: h in m ==> m[h].0 in i && i[m[h].0] == h)
    && (forall id :: id in i ==> i[id] in m && m[i[id]].0 == id)
  }

  ghost function IndexAfterPut<T>(m: map<Height, Entry<T>>, i: map<BlockId, Height>, height: Height, id: BlockId)
    : map<BlockId, Height>
  {
    (i - {id} - (if height in m then {m[height].0} else {}))[id := height]
  }

  lemma PutKeepsInverse<T>(m: map<Height, Entry<T>>, i: map<BlockId, Height>, height: Height, id: BlockId, value: T)
    requires Inverse(m, i)
    ensures Inverse(Updated(m, height, id, value), IndexAfterPut(m, i, height, id))
  {
  }

  function WithoutElsewhere<T>(m: map<Height, Entry<T>>, id: BlockId, height: Height): map<Height, Entry<T>> {
    map k | k in m && (k == height || m[k].0 != id) :: m[k]
  }

  function PlaceId<T>(m: map<Height, Entry<T>>, i: map<BlockId, Height>, height: Height, id: BlockId)
    : map<BlockId, Height>
  {
    (if height in m && m[height].0 != id then i - {m[height].0} else i)[id := height]
  }

  lemma ForgetThenPlace<T>(m: map<Height, Entry<T>>, i: map<BlockId, Height>, height: Height, id: BlockId, value: T)
    ensures WithoutElsewhere(m, id, height)[height := (id, value)] == Updated(m, height, id, value)
    ensures PlaceId(WithoutElsewhere(m, id, height), i - {id}, height, id) == IndexAfterPut(m, i, height, id)
  {
  }

  // The cache itself

  class BlockCache<T> {
    var byHeight: map<Height, Entry<T>>
    var byId: map<BlockId, Height>
    const capacity: nat

    /** The two indexes are mutually inverse and bounded. */
    ghost predicate Valid()
      reads this
    {
      && capacity > 0
      && |byHeight| <= capacity
      && Indexed()
    }

    ghost predicate Indexed()
      reads this
    {
      Inverse(byHeight, byId)
    }

    constructor (capacity: nat)
      requires capacity > 0
      ensures Valid() && byHeight == map[] && this.capacity == capacity
    {
      this.capacity := capacity;
      byHeight, byId := map[], map[];
    }

    /** Insert leaves exactly the `capacity` greatest heights of the updated map, even when the inserted
        block is itself the lowest. */
    method Insert(height: Height, id: BlockId, value: T) returns (evicted: bool)
      requires Valid()
      modifies this
      ensures Valid()
      ensures byHeight == Newest(Updated(old(byHeight), height, id, value), capacity)
      ensures evicted <==> |Updated(old(byHeight), height, id, value)| > capacity
    {
      ghost var updated := Updated(byHeight, height, id, value);
      Put(height, id, value);
      evicted := false;
      while |byHeight| > capacity
        invariant Indexed()
        invariant Newest(byHeight, capacity) == Newest(updated, capacity)
        invariant evicted <==> byHeight != updated
        invariant |byHeight| <= |updated| && (evicted ==> capacity < |updated|)
        decreases |byHeight|
      {
        ghost var before := byHeight;
        var first := PopFirst();
        SizeDropKey(before, first);
        NewestDropLeast(before, capacity, first);
        evicted := true;
      }
      NewestAll(byHeight, capacity);
    }

    /** Both indexes after the write, before any eviction. */
    method Put(height: Height, id: BlockId, value: T)
      requires Valid()
      modifies this
      ensures Indexed()
      ensures byHeight == Updated(old(byHeight), height, id, value)
    {
      PutKeepsInverse(byHeight, byId, height, id, value);
      ForgetThenPlace(byHeight, byId, height, id, value);
      Forget(id, height);
      Place(height, id, value);
    }

    /** Write the entry, unmapping the id it displaces. */
    method Place(height: Height, id: BlockId, value: T)
      modifies this
      ensures byHeight == old(byHeight)[height := (id, value)]
      ensures byId == PlaceId(old(byHeight), old(byId), height, id)
    {
      if height in byHeight {
        var displaced := byHeight[height].0;
        if displaced != id {
          byId := byId - {displaced};
        }
      }
      byHeight := byHeight[height := (id, value)];
      byId := byId[id := height];
    }

    /** Drop the id's mapping, and its entry when that sits at another height. */
    method Forget(id: BlockId, height: Height)
      requires Valid()
      modifies this
      ensures byId == old(byId) - {id}
      ensures byHeight == WithoutElsewhere(old(byHeight), id, height)
    {
      ghost var before := byHeight;
      if id in byId {
        var prior := byId[id];
        byId := byId - {id};
        if prior != height {
          byHeight := byHeight - {prior};
        }
        forall h | h in before ensures before[h].0 == id <==> h == prior {
          assert old(byId)[before[h].0] == h;
        }
      }
      assert byHeight == WithoutElsewhere(before, id, height);
    }

    /** Drop and return the lowest height, from both indexes. */
    method PopFirst() returns (first: Height)
      requires Indexed() && byHeight != map[]
      modifies this
      ensures Indexed()
      ensures IsLeast(old(byHeight).Keys, first) && byHeight == old(byHeight) - {first}
    {
      LeastExists(byHeight.Keys);
      first :| first in byHeight.Keys && IsLeast(byHeight.Keys, first);
      ghost var id := byHeight[first].0;
      byId := byId - {byHeight[first].0};
      byHeight := byHeight - {first};
      forall h | h in byHeight ensures byHeight[h].0 != id {
        assert old(byId)[byHeight[h].0] == h;
      }
    }

    method GetByHeight(height: Height) returns (r: Option<Entry<T>>)
      ensures r == if height in byHeight then Some(byHeight[height]) else None
    {
      r := if height in byHeight then Some(byHeight[height]) else None;
    }

    /** The second index answers what a scan of the first would. */
    method GetById(id: BlockId) returns (r: Option<(Height, T)>)
      requires Valid()
      ensures r.Some? ==> r.value.0 in byHeight && byHeight[r.value.0] == (id, r.value.1)
      ensures r.None? ==> forall h :: h in byHeight ==> byHeight[h].0 != id
    {
      if id !in byId {
        return None;
      }
      var height := byId[id];
      if height !in byHeight {
        return None;
      }
      return Some((height, byHeight[height].1));
    }

    method RemoveById(id: BlockId) returns (r: Option<(Height, T)>)
      requires Valid()
      modifies this
      ensures Valid()
      ensures byHeight == Without(old(byHeight), id)
      ensures r.Some? ==> r.value.0 in old(byHeight) && old(byHeight)[r.value.0] == (id, r.value.1)
      ensures r.None? ==> byHeight == old(byHeight)
    {
      if id !in byId {
        assert Without(byHeight, id) == byHeight;
        return None;
      }
      var height := byId[id];
      byId := byId - {id};
      r := Some((height, byHeight[height].1));
      ghost var rest := Without(byHeight, id);
      SubsetCardinality(rest.Keys, byHeight.Keys);
      byHeight := byHeight - {height};
      assert byHeight == rest;
    }

    /** Drop every entry strictly below the height. */
    method PruneBelow(height: Height) returns (removed: nat)
      requires Valid()
      modifies this
      ensures Valid()
      ensures byHeight == map k | k in old(byHeight) && k >= height :: old(byHeight)[k]
      ensures removed == |old(byHeight)| - |byHeight|
    {
      removed := 0;
      ghost var kept := map k | k in byHeight && k >= height :: byHeight[k];
      while byHeight != map[]
        invariant Valid()
        invariant removed == |old(byHeight)| - |byHeight|
        invariant kept == map k | k in byHeight && k >= height :: byHeight[k]
        decreases |byHeight|
      {
        LeastExists(byHeight.Keys);
        var first :| first in byHeight.Keys && IsLeast(byHeight.Keys, first);
        if first >= height {
          break;
        }
        SizeDropKey(byHeight, first);
        var _ := PopFirst();
        removed := removed + 1;
      }
      assert byHeight == kept;
    }

    method MinHeight() returns (r: Option<Height>)
      ensures r.None? <==> byHeight == map[]
      ensures r.Some? ==> IsLeast(byHeight.Keys, r.value)
    {
      if byHeight == map[] {
        return None;
      }
      LeastExists(byHeight.Keys);
      var least :| least in byHeight.Keys && IsLeast(byHeight.Keys, least);
      return Some(least);
    }

    method MaxHeight() returns (r: Option<Height>)
      ensures r.None? <==> byHeight == map[]
      ensures r.Some? ==> IsGreatest(byHeight.Keys, r.value)
    {
      if byHeight == map[] {
        return None;
      }
      GreatestExists(byHeight.Keys);
      var greatest :| greatest in byHeight.Keys && IsGreatest(byHeight.Keys, greatest);
      return Some(greatest);
    }
  }
}
