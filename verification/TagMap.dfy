/** The linear-probed key-only map of a tag cache: FD_TCACHE_QUERY and fd_tcache_remove.

    A map is an array of tags, NULL marking a free slot. A tag may sit away from its start
    slot as long as no free slot lies between the two, going round cyclically. */
module TagMap {
  import opened Words

  const NULL: ulong := 0

  ghost predicate Size(n: int) {
    0 < n < TWO64 && IsPow2(n)
  }

  /** fd_tcache_map_start. */
  function MapStart(tag: ulong, cnt: ulong): (start: ulong)
    requires Size(cnt)
    ensures start < cnt && start == tag % cnt
  {
    assert And(tag, cnt - 1) == tag % cnt by {
      var k: nat :| cnt == Pow2(k);
      AndMask(tag, k);
      LowIsMod(tag, k);
    }
    And(tag, cnt - 1)
  }

  /** fd_tcache_map_next. */
  function MapNext(idx: ulong, cnt: ulong): (next: ulong)
    requires Size(cnt) && idx < cnt
    ensures next == if idx + 1 == cnt then 0 else idx + 1
  {
    assert And(idx + 1, cnt - 1) == (if idx + 1 == cnt then 0 else idx + 1) by {
      var k: nat :| cnt == Pow2(k);
      AndMask(idx + 1, k);
      LowIsMod(idx + 1, k);
      IncMod(idx, cnt);
    }
    And(idx + 1, cnt - 1)
  }

  /** j lies in the cyclic interval [s,i). */
  ghost predicate InArc(s: int, j: int, i: int) {
    if s <= i then s <= j < i else s <= j || j < i
  }

  /** The number of steps from a forward to b in a cycle of n slots. */
  ghost function Dist(n: nat, a: nat, b: nat): (d: nat)
    requires a < n && b < n
    ensures d < n
  {
    if a <= b then b - a else b - a + n
  }

  ghost function Tags(m: seq<ulong>): set<ulong> {
    set t | t in m && t != NULL
  }

  ghost predicate Distinct(m: seq<ulong>) {
    forall i, j :: 0 <= i < j < |m| && m[i] != NULL ==> m[i] != m[j]
  }

  /** No free slot, other than possibly `hole`, lies between a tag's start slot and the tag. */
  ghost predicate ReachableBut(m: seq<ulong>, hole: int)
    requires Size(|m|)
  {
    forall i, j :: 0 <= i < |m| && 0 <= j < |m| && m[i] != NULL && m[j] == NULL && j != hole
                   ==> !InArc(MapStart(m[i], |m|), j, i)
  }

  ghost predicate MapOk(m: seq<ulong>) {
    Size(|m|) && Distinct(m) && ReachableBut(m, |m|)
  }

  ghost predicate HasFree(m: seq<ulong>) {
    NULL in m
  }

  /** FD_TCACHE_QUERY. When the tag is absent, idx is a slot it can be stored in. */
  method Query(slots: array<ulong>, tag: ulong) returns (found: bool, idx: ulong)
    requires MapOk(slots[..]) && HasFree(slots[..]) && tag != NULL
    ensures idx < slots.Length
    ensures found <==> tag in slots[..]
    ensures found ==> slots[idx] == tag
    ensures !found ==> MapOk(slots[..][idx := tag]) && slots[idx] == NULL
  {
    ghost var m := slots[..];
    ghost var z: nat :| z < |m| && m[z] == NULL;
    var cnt: ulong := slots.Length;
    idx := MapStart(tag, cnt);
    ghost var start := idx;
    while true
      invariant idx < cnt
      invariant forall j :: 0 <= j < cnt && InArc(start, j, idx) ==> m[j] != NULL && m[j] != tag
      decreases Dist(cnt, idx, z)
    {
      var mapTag := slots[idx];
      found := tag == mapTag;
      if found || mapTag == NULL {
        break;
      }
      idx := MapNext(idx, cnt);
    }
    if !found {
      Absent(m, tag, idx);
      Placed(m, tag, idx);
    }
  }

  lemma Absent(m: seq<ulong>, tag: ulong, idx: ulong)
    requires MapOk(m) && tag != NULL && idx < |m| && m[idx] == NULL
    requires forall j :: 0 <= j < |m| && InArc(MapStart(tag, |m|), j, idx) ==> m[j] != NULL && m[j] != tag
    ensures tag !in m
  {
    forall i | 0 <= i < |m|
      ensures m[i] != tag
    {
      assert m[i] != NULL ==> !InArc(MapStart(m[i], |m|), idx, i);
    }
  }

  /** Storing an absent tag at the free slot its probe stopped at keeps the map well formed. */
  lemma Placed(m: seq<ulong>, tag: ulong, idx: ulong)
    requires MapOk(m) && tag != NULL && tag !in m && idx < |m| && m[idx] == NULL
    requires forall j :: 0 <= j < |m| && InArc(MapStart(tag, |m|), j, idx) ==> m[j] != NULL
    ensures MapOk(m[idx := tag])
  {
  }

  /** The state between two rounds of backward-shift deletion: `slot` is about to be freed. */
  ghost predicate Shifting(m: seq<ulong>, slot: ulong, tags: set<ulong>)
    requires slot < |m|
  {
    var c := m[slot := NULL];
    Size(|m|) && m[slot] != NULL && Distinct(c) && ReachableBut(c, slot) && Tags(c) == tags
  }

  /** The test fd_tcache_remove makes on a tag found at `slot`: it may stay if its start slot
      is in the cyclic interval (hole,slot]. */
  predicate MayStay(hole: ulong, start: ulong, slot: ulong) {
    (hole < start && start <= slot) || (hole > slot && (hole < start || start <= slot))
  }

  /** Every tag strictly after `hole`, up to but not including `slot`, may stay where it is. */
  ghost predicate Scanned(m: seq<ulong>, hole: ulong, slot: ulong)
    requires Size(|m|)
  {
    forall i :: 0 <= i < |m| && i != hole && InArc(hole, i, slot) ==>
      m[i] != NULL && !InArc(MapStart(m[i], |m|), hole, i)
  }

  /** The inner loop of fd_tcache_remove: walk from the hole to the next free slot or to the
      next tag that must move into the hole. */
  method Scan(slots: array<ulong>, hole: ulong, ghost z: nat) returns (slot: ulong)
    requires Size(slots.Length) && hole < slots.Length && z < slots.Length && hole != z
    requires slots[hole] == slots[z] == NULL
    ensures slot < slots.Length && slot != hole
    ensures Scanned(slots[..], hole, slot)
    ensures slots[slot] == NULL || InArc(MapStart(slots[slot], slots.Length), hole, slot)
    ensures slots[slot] != NULL ==> Dist(slots.Length, slot, z) < Dist(slots.Length, hole, z)
  {
    var cnt: ulong := slots.Length;
    slot := hole;
    while true
      invariant slot < cnt && slot != z
      invariant Dist(cnt, hole, slot) + Dist(cnt, slot, z) == Dist(cnt, hole, z)
      invariant Scanned(slots[..], hole, slot)
      invariant slot != hole ==> slots[slot] != NULL && !InArc(MapStart(slots[slot], cnt), hole, slot)
      decreases Dist(cnt, slot, z)
    {
      slot := MapNext(slot, cnt);
      var t := slots[slot];
      if t == NULL {
        return;
      }
      if !MayStay(hole, MapStart(t, cnt), slot) {
        return;
      }
    }
  }

  /** fd_tcache_remove: backward-shift deletion. */
  method Remove(slots: array<ulong>, tag: ulong)
    requires MapOk(slots[..]) && HasFree(slots[..])
    modifies slots
    ensures MapOk(slots[..]) && HasFree(slots[..])
    ensures Tags(slots[..]) == Tags(old(slots[..])) - {tag}
  {
    if tag != NULL {
      var found, slot := Query(slots, tag);
      if found {
        ghost var z: nat :| z < slots.Length && slots[z] == NULL;
        ghost var tags := Tags(slots[..]) - {tag};
        BeginShift(slots[..], slot);
        while true
          invariant 0 <= slot < slots.Length && slots[z] == NULL && Shifting(slots[..], slot, tags)
          decreases Dist(slots.Length, slot, z)
        {
          ghost var m := slots[..][slot := NULL];
          slots[slot] := NULL;
          assert slots[..] == m;
          var hole := slot;
          slot := Scan(slots, hole, z);
          if slots[slot] == NULL {
            HoleClosed(m, hole, slot);
            return;
          }
          Shifted(m, hole, slot, tags);
          slots[hole] := slots[slot];
          assert slots[..] == m[hole := m[slot]];
        }
      }
    }
  }

  lemma BeginShift(m: seq<ulong>, slot: ulong)
    requires MapOk(m) && slot < |m| && m[slot] != NULL
    ensures Shifting(m, slot, Tags(m) - {m[slot]})
  {
    var c := m[slot := NULL];
    forall t | t in Tags(m) - {m[slot]}
      ensures t in c
    {
      var i :| 0 <= i < |m| && m[i] == t;
      assert c[i] == t;
    }
    forall t | t in Tags(c)
      ensures t in m && t != m[slot]
    {
      var i :| 0 <= i < |c| && c[i] == t;
      assert m[i] == t;
    }
  }

  /** Once the scan from the hole meets a free slot, no tag's probe crosses the hole. */
  lemma HoleClosed(m: seq<ulong>, hole: ulong, slot: ulong)
    requires Size(|m|) && hole < |m| && slot < |m| && hole != slot
    requires m[hole] == NULL && m[slot] == NULL && ReachableBut(m, hole)
    requires Scanned(m, hole, slot)
    ensures ReachableBut(m, |m|)
  {
    forall i | 0 <= i < |m| && m[i] != NULL
      ensures !InArc(MapStart(m[i], |m|), hole, i)
    {
      assert !InArc(MapStart(m[i], |m|), slot, i);
    }
  }

  /** Moving a tag back into the hole moves the hole to the tag's slot. */
  lemma Shifted(m: seq<ulong>, hole: ulong, slot: ulong, tags: set<ulong>)
    requires Size(|m|) && hole < |m| && slot < |m| && hole != slot
    requires m[hole] == NULL && m[slot] != NULL && Distinct(m) && ReachableBut(m, hole) && Tags(m) == tags
    requires InArc(MapStart(m[slot], |m|), hole, slot)
    ensures Shifting(m[hole := m[slot]], slot, tags)
  {
    var t := m[slot];
    var c := m[hole := t][slot := NULL];
    forall u | u in tags
      ensures u in c
    {
      var i :| 0 <= i < |m| && m[i] == u;
      assert c[hole] == t && (i != slot ==> c[i] == u);
    }
    forall u | u in Tags(c)
      ensures u in tags
    {
      var i :| 0 <= i < |c| && c[i] == u;
      assert i == hole || m[i] == u;
    }
  }
}
