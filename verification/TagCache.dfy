/** A tag cache: a ring of the tags observed most recently and a map for finding them.

    Cache is the abstract value of the cache. The methods of TagCache update the ring and the
    map in place; each one's new abstract value is given by a function on Cache. */
module TagCaches {
  import opened Words
  import opened TagMap

  datatype Cache = Cache(tags: set<ulong>, ring: seq<ulong>, oldest: nat)

  function Empty(depth: nat): Cache {
    Cache({}, seq(depth, _ => NULL), 0)
  }

  /** What FD_TCACHE_INSERT does to a cache. */
  function Inserted(c: Cache, tag: ulong): Cache
    requires c.oldest < |c.ring|
  {
    if tag in c.tags then c
    else Cache(c.tags + {tag} - {c.ring[c.oldest]}, c.ring[c.oldest := tag],
               if c.oldest + 1 >= |c.ring| then 0 else c.oldest + 1)
  }

  /** What fd_tcache_remove does: the ring keeps the tag. */
  function Removed(c: Cache, tag: ulong): Cache {
    c.(tags := c.tags - {tag})
  }

  ghost function Elements(s: seq<ulong>): set<ulong> {
    set t | t in s
  }

  /** The map holds only non-null tags that are also in the ring. */
  ghost predicate Wf(c: Cache) {
    c.oldest < |c.ring| && NULL !in c.tags && c.tags <= Elements(c.ring)
  }

  /** Every mix of insertions, removals and resets keeps the map's tags within the ring's. */
  lemma WfKept(c: Cache, tag: ulong)
    requires Wf(c)
    ensures tag != NULL ==> Wf(Inserted(c, tag))
    ensures Wf(Removed(c, tag)) && Wf(Empty(|c.ring|))
    ensures |Inserted(c, tag).ring| == |c.ring|
  {
    if tag !in c.tags {
      var r := c.ring[c.oldest := tag];
      assert r[c.oldest] == tag;
      forall t | t in c.tags && t != c.ring[c.oldest]
        ensures t in r
      {
        var i :| 0 <= i < |c.ring| && c.ring[i] == t;
        assert r[i] == t;
      }
    }
  }

  lemma {:induction false} ElementsCard(s: seq<ulong>)
    ensures |Elements(s)| <= |s|
  {
    if s != [] {
      ElementsCard(s[1..]);
      assert Elements(s) == Elements(s[1..]) + {s[0]};
    }
  }

  /** At rest the map's load is at most depth. */
  lemma LoadBound(c: Cache)
    requires Wf(c)
    ensures |c.tags| <= |c.ring|
  {
    ElementsCard(c.ring);
    SubsetCard(c.tags, Elements(c.ring));
  }

  lemma {:induction false} SubsetCard(a: set<ulong>, b: set<ulong>)
    requires a <= b
    ensures |a| <= |b|
    decreases a
  {
    if a != {} {
      var x :| x in a;
      SubsetCard(a - {x}, b - {x});
    }
  }

  /** A map with fewer distinct tags than slots has a free slot, so probing it ends. */
  lemma FreeSlot(m: seq<ulong>)
    requires Distinct(m) && |Tags(m)| < |m|
    ensures HasFree(m)
  {
    if NULL !in m {
      FullCard(m);
    }
  }

  lemma {:induction false} FullCard(m: seq<ulong>)
    requires Distinct(m) && NULL !in m
    ensures |Tags(m)| == |m|
  {
    if m != [] {
      var r := m[1..];
      FullCard(r);
      assert Tags(m) == Tags(r) + {m[0]};
      assert m[0] !in r;
    }
  }

  class TagCache {
    const depth: ulong
    const ring: array<ulong>
    const slots: array<ulong>
    var oldest: ulong

    ghost predicate Valid()
      reads this, ring, slots
    {
      && ring != slots
      && ring.Length == depth && depth + 2 <= slots.Length < TWO64
      && MapOk(slots[..]) && HasFree(slots[..])
      && Wf(Abs())
    }

    ghost function Abs(): Cache
      reads this, ring, slots
    {
      Cache(Tags(slots[..]), ring[..], oldest)
    }

    /** A new cache is empty. */
    constructor (depth: ulong, mapCnt: ulong)
      requires 0 < depth && depth + 2 <= mapCnt && IsPow2(mapCnt)
      ensures Valid() && Abs() == Empty(depth) && this.depth == depth && slots.Length == mapCnt && oldest == 0
      ensures fresh(ring) && fresh(slots)
    {
      this.depth := depth;
      ring := new ulong[depth](_ => NULL);
      slots := new ulong[mapCnt](_ => NULL);
      oldest := 0;
      new;
      assert slots[0] in slots[..];
      assert ring[..] == Empty(depth).ring;
    }

    /** fd_tcache_reset. */
    method Reset()
      requires Valid()
      modifies this, ring, slots
      ensures Valid() && Abs() == Empty(depth) && oldest == 0
      ensures forall j :: 0 <= j < ring.Length ==> ring[j] == NULL
      ensures forall j :: 0 <= j < slots.Length ==> slots[j] == NULL
    {
      for i := 0 to ring.Length
        invariant forall j :: 0 <= j < i ==> ring[j] == NULL
      {
        ring[i] := NULL;
      }
      for i := 0 to slots.Length
        invariant forall j :: 0 <= j < ring.Length ==> ring[j] == NULL
        invariant forall j :: 0 <= j < i ==> slots[j] == NULL
      {
        slots[i] := NULL;
      }
      oldest := 0;
      assert slots[0] in slots[..];
      assert ring[..] == Empty(depth).ring;
    }

    method Find(tag: ulong) returns (found: bool, idx: ulong)
      requires Valid() && tag != NULL
      ensures found <==> tag in Abs().tags
      ensures idx < slots.Length && slots[idx] == if found then tag else NULL
    {
      found, idx := Query(slots, tag);
    }

    /** FD_TCACHE_INSERT. */
    method Insert(tag: ulong) returns (dup: bool)
      requires Valid() && tag != NULL
      modifies this, ring, slots
      ensures Valid() && Abs() == Inserted(old(Abs()), tag)
      ensures dup <==> tag in old(Abs()).tags
    {
      ghost var c := Abs();
      ghost var m := slots[..];
      var idx;
      WfKept(c, tag);
      dup, idx := Query(slots, tag);
      if !dup {
        slots[idx] := tag;
        assert slots[..] == m[idx := tag];
        PlacedTags(m, tag, idx);
        LoadBound(c);
        FreeSlot(slots[..]);

        var tagOldest := ring[oldest];
        ring[oldest] := tag;
        assert ring[..] == c.ring[c.oldest := tag];
        oldest := oldest + 1;
        if oldest >= depth {
          oldest := 0;
        }

        Remove(slots, tagOldest);
      }
    }

    /** fd_tcache_remove on its own. */
    method Evict(tag: ulong)
      requires Valid()
      modifies slots
      ensures Valid() && Abs() == Removed(old(Abs()), tag)
    {
      WfKept(Abs(), tag);
      Remove(slots, tag);
    }
  }

  lemma PlacedTags(m: seq<ulong>, tag: ulong, idx: nat)
    requires idx < |m| && m[idx] == NULL && tag != NULL
    ensures Tags(m[idx := tag]) == Tags(m) + {tag}
  {
    var p := m[idx := tag];
    assert p[idx] == tag;
    forall t | t in Tags(m)
      ensures t in p
    {
      var i :| 0 <= i < |m| && m[i] == t;
      assert p[i] == t;
    }
  }
}
