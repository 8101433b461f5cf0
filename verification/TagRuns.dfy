/** Whole runs of a tag cache: it is a window on the log of tags it accepted. */
module TagRuns {
  import opened Words
  import opened TagMap
  import opened TagCaches

  datatype Op = Insert(tag: ulong) | Lookup(tag: ulong) | Reset | Remove(tag: ulong)

  ghost predicate Legal(op: Op) {
    op.Insert? ==> op.tag != NULL
  }

  function Step(c: Cache, op: Op): Cache
    requires c.oldest < |c.ring|
  {
    match op
    case Insert(t) => Inserted(c, t)
    case Lookup(_) => c
    case Reset => Empty(|c.ring|)
    case Remove(t) => Removed(c, t)
  }

  ghost function Run(depth: nat, ops: seq<Op>): (c: Cache)
    requires depth > 0 && forall op :: op in ops ==> Legal(op)
    ensures Wf(c) && |c.ring| == depth
  {
    if ops == [] then Empty(depth)
    else
      var c := Run(depth, ops[..|ops| - 1]);
      var op := ops[|ops| - 1];
      assert Legal(op);
      WfKept(c, match op case Insert(t) => t case Remove(t) => t case _ => 1);
      Step(c, op)
  }

  /** Whatever the mix of operations, the load leaves two free slots at rest and one while
      an insertion is under way. */
  lemma LoadOverRuns(depth: nat, mapCnt: nat, ops: seq<Op>, tag: ulong)
    requires 0 < depth && depth + 2 <= mapCnt && forall op :: op in ops ==> Legal(op)
    ensures |Run(depth, ops).tags| <= mapCnt - 2
    ensures |Run(depth, ops).tags + {tag}| <= mapCnt - 1
  {
    var c := Run(depth, ops);
    LoadBound(c);
    assert c.tags + {tag} == c.tags || |c.tags + {tag}| == |c.tags| + 1;
  }

  function Last(log: seq<ulong>, depth: nat): seq<ulong> {
    if |log| <= depth then log else log[|log| - depth..]
  }

  /** The specification of the cache: a log of accepted tags. A tag is a duplicate when it is
      among the `depth` tags accepted most recently. */
  function Accept(depth: nat, log: seq<ulong>, op: Op): seq<ulong> {
    match op
    case Insert(t) => if t in Last(log, depth) then log else log + [t]
    case Reset => []
    case _ => log
  }

  function Log(depth: nat, ops: seq<Op>): seq<ulong> {
    if ops == [] then [] else Accept(depth, Log(depth, ops[..|ops| - 1]), ops[|ops| - 1])
  }

  /** The ring read from its oldest entry. */
  function Rotated(c: Cache): seq<ulong>
    requires c.oldest < |c.ring|
  {
    c.ring[c.oldest..] + c.ring[..c.oldest]
  }

  ghost predicate NoDup(s: seq<ulong>) {
    forall i, j :: 0 <= i < j < |s| ==> s[i] != s[j]
  }

  /** The cache holds the queue q but for the tags in gone: the map has the others, and the ring
      has, from its oldest entry on, the nulls not used yet and then q in order. */
  ghost predicate HoldsBut(c: Cache, q: seq<ulong>, gone: set<ulong>) {
    && c.oldest < |c.ring| && |q| <= |c.ring|
    && NULL !in q && NoDup(q)
    && c.tags == Elements(q) - gone
    && Rotated(c) == seq(|c.ring| - |q|, _ => NULL) + q
  }

  /** The cache holds exactly the queue q. */
  ghost predicate Holds(c: Cache, q: seq<ulong>) {
    HoldsBut(c, q, {})
  }

  lemma RotatedInserted(c: Cache, tag: ulong)
    requires c.oldest < |c.ring| && tag !in c.tags
    ensures Inserted(c, tag).oldest < |c.ring|
    ensures Rotated(c)[0] == c.ring[c.oldest]
    ensures Rotated(Inserted(c, tag)) == Rotated(c)[1..] + [tag]
  {
    var n, o := |c.ring|, c.oldest;
    var r := c.ring[o := tag];
    if o + 1 == n {
      assert r[0..] + r[..0] == Rotated(c)[1..] + [tag];
    } else {
      assert r[o + 1..] == c.ring[o + 1..];
      assert r[..o + 1] == c.ring[..o] + [tag];
    }
  }

  lemma LastPush(log: seq<ulong>, tag: ulong, n: nat)
    requires n > 0
    ensures var q := Last(log, n);
            Last(log + [tag], n) == if |q| == n then q[1..] + [tag] else q + [tag]
  {
  }

  /** Inserting into a full cache drops exactly its oldest tag. */
  lemma PushFull(c: Cache, q: seq<ulong>, gone: set<ulong>, tag: ulong)
    requires HoldsBut(c, q, gone) && |q| == |c.ring| && tag !in q && tag != NULL
    ensures HoldsBut(Inserted(c, tag), q[1..] + [tag], gone - {tag})
  {
    RotatedInserted(c, tag);
    assert Rotated(c) == q;
    QueueTags(q, gone, tag);
    var q' := q[1..] + [tag];
    assert seq(0, _ => NULL) + q' == q';
  }

  /** Inserting into a cache that is not full uses up one null of the ring. */
  lemma PushPart(c: Cache, q: seq<ulong>, gone: set<ulong>, tag: ulong)
    requires HoldsBut(c, q, gone) && |q| < |c.ring| && tag !in q && tag != NULL
    ensures HoldsBut(Inserted(c, tag), q + [tag], gone - {tag})
  {
    RotatedInserted(c, tag);
    var k := |c.ring| - |q|;
    var nulls := seq(k - 1, _ => NULL);
    assert seq(k, _ => NULL) == [NULL] + nulls;
    assert Rotated(c)[1..] == nulls + q;
    assert Rotated(c)[1..] + [tag] == nulls + (q + [tag]);
    assert Elements(q + [tag]) == Elements(q) + {tag};
  }

  lemma InsertedHolds(c: Cache, log: seq<ulong>, gone: set<ulong>, tag: ulong)
    requires HoldsBut(c, Last(log, |c.ring|), gone) && tag != NULL
    requires tag in c.tags || tag !in Last(log, |c.ring|)
    ensures HoldsBut(Inserted(c, tag), Last(Accept(|c.ring|, log, Insert(tag)), |c.ring|),
                     if tag in Last(log, |c.ring|) then gone else gone - {tag})
  {
    var q := Last(log, |c.ring|);
    if tag !in c.tags {
      LastPush(log, tag, |c.ring|);
      if |q| == |c.ring| {
        PushFull(c, q, gone, tag);
      } else {
        PushPart(c, q, gone, tag);
      }
    }
  }

  lemma QueueTags(q: seq<ulong>, gone: set<ulong>, tag: ulong)
    requires q != [] && NoDup(q) && tag !in q
    ensures NoDup(q[1..] + [tag])
    ensures Elements(q[1..] + [tag]) - (gone - {tag}) == (Elements(q) - gone) + {tag} - {q[0]}
  {
    assert q == [q[0]] + q[1..];
  }

  /** FIFO refinement: over every run without standalone removals, the cache holds exactly the
      `depth` tags accepted most recently, oldest first. */
  lemma {:induction false} FifoRefinement(depth: nat, ops: seq<Op>)
    requires depth > 0 && forall op :: op in ops ==> Legal(op) && !op.Remove?
    ensures Holds(Run(depth, ops), Last(Log(depth, ops), depth))
  {
    if ops == [] {
      assert Rotated(Empty(depth)) == seq(depth, _ => NULL) + [];
    } else {
      var pre, op := ops[..|ops| - 1], ops[|ops| - 1];
      FifoRefinement(depth, pre);
      assert Legal(op) && op in ops;
      match op {
        case Insert(t) => InsertedHolds(Run(depth, pre), Log(depth, pre), {}, t);
        case Reset => assert Rotated(Empty(depth)) == seq(depth, _ => NULL) + [];
        case _ =>
      }
    }
  }

  /** The answer an insertion gives after any such run, and what it evicts. */
  lemma DupAndEviction(depth: nat, ops: seq<Op>, tag: ulong)
    requires depth > 0 && tag != NULL && forall op :: op in ops ==> Legal(op) && !op.Remove?
    ensures tag in Run(depth, ops).tags <==> tag in Last(Log(depth, ops), depth)
    ensures var c, log := Run(depth, ops), Log(depth, ops);
            tag !in c.tags && |log| >= depth ==>
              Inserted(c, tag).tags == c.tags + {tag} - {log[|log| - depth]}
    ensures var c, log := Run(depth, ops), Log(depth, ops);
            tag !in c.tags && |log| < depth ==> Inserted(c, tag).tags == c.tags + {tag}
  {
    FifoRefinement(depth, ops);
    var c, q := Run(depth, ops), Last(Log(depth, ops), depth);
    assert Rotated(c)[0] == c.ring[c.oldest];
    if |q| == depth {
      assert Rotated(c)[0] == q[0];
    }
  }

  // ----- runs with standalone removals

  /** Tags that were removed and not accepted again since. */
  function GoneStep(depth: nat, log: seq<ulong>, gone: set<ulong>, op: Op): set<ulong> {
    match op
    case Insert(t) => if t in Last(log, depth) then gone else gone - {t}
    case Reset => {}
    case Remove(t) => gone + {t}
    case _ => gone
  }

  function Gone(depth: nat, ops: seq<Op>): set<ulong> {
    if ops == [] then {} else
    var pre := ops[..|ops| - 1];
    GoneStep(depth, Log(depth, pre), Gone(depth, pre), ops[|ops| - 1])
  }

  /** A caller can insert a tag safely when the map has it or the ring does not. */
  ghost predicate Safe(c: Cache, tag: ulong) {
    tag in c.tags || tag !in c.ring
  }

  ghost predicate AllSafe(depth: nat, ops: seq<Op>)
    requires depth > 0 && forall op :: op in ops ==> Legal(op)
  {
    forall k :: 0 <= k < |ops| && ops[k].Insert? ==> Safe(Run(depth, ops[..k]), ops[k].tag)
  }

  /** A run with standalone removals whose insertions are all safe is still first-in first-out:
      the map has the tags of the window that were not removed. */
  lemma {:induction false} FifoWithRemovals(depth: nat, ops: seq<Op>)
    requires depth > 0 && (forall op :: op in ops ==> Legal(op)) && AllSafe(depth, ops)
    ensures HoldsBut(Run(depth, ops), Last(Log(depth, ops), depth), Gone(depth, ops))
  {
    if ops == [] {
      assert Rotated(Empty(depth)) == seq(depth, _ => NULL) + [];
    } else {
      var pre, op := ops[..|ops| - 1], ops[|ops| - 1];
      SafePrefix(depth, ops);
      FifoWithRemovals(depth, pre);
      StepHolds(Run(depth, pre), Log(depth, pre), Gone(depth, pre), op);
    }
  }

  lemma SafePrefix(depth: nat, ops: seq<Op>)
    requires depth > 0 && (forall op :: op in ops ==> Legal(op)) && AllSafe(depth, ops) && ops != []
    ensures var pre, op := ops[..|ops| - 1], ops[|ops| - 1];
            Legal(op) && AllSafe(depth, pre) && (op.Insert? ==> Safe(Run(depth, pre), op.tag))
  {
    var n := |ops| - 1;
    assert ops[n] in ops;
    assert forall k :: 0 <= k < n ==> ops[..n][..k] == ops[..k];
  }

  lemma StepHolds(c: Cache, log: seq<ulong>, gone: set<ulong>, op: Op)
    requires c.oldest < |c.ring| && HoldsBut(c, Last(log, |c.ring|), gone)
    requires Legal(op) && (op.Insert? ==> Safe(c, op.tag))
    ensures HoldsBut(Step(c, op), Last(Accept(|c.ring|, log, op), |c.ring|), GoneStep(|c.ring|, log, gone, op))
  {
    match op {
      case Insert(t) =>
        RingHolds(c, Last(log, |c.ring|), gone, t);
        InsertedHolds(c, log, gone, t);
      case Reset => assert Rotated(Empty(|c.ring|)) == seq(|c.ring|, _ => NULL) + [];
      case _ =>
    }
  }

  lemma RotatedHolds(c: Cache, tag: ulong)
    requires c.oldest < |c.ring|
    ensures tag in c.ring <==> tag in Rotated(c)
  {
    assert c.ring == c.ring[..c.oldest] + c.ring[c.oldest..];
  }

  lemma RingHolds(c: Cache, q: seq<ulong>, gone: set<ulong>, tag: ulong)
    requires HoldsBut(c, q, gone) && tag != NULL
    ensures tag in c.ring <==> tag in q
  {
    RotatedHolds(c, tag);
  }

  /** The cache after further operations. */
  ghost function RunFrom(c: Cache, ops: seq<Op>): (r: Cache)
    requires c.oldest < |c.ring|
    decreases |ops|
  {
    if ops == [] then c else RunFrom(Step(c, ops[0]), ops[1..])
  }

  function Insertions(ops: seq<Op>): nat {
    if ops == [] then 0 else (if ops[0].Insert? then 1 else 0) + Insertions(ops[1..])
  }

  /** Operations after which tag is still to be there: no reset and no removal of tag itself. */
  ghost predicate Spares(ops: seq<Op>, tag: ulong) {
    forall i :: 0 <= i < |ops| ==> Legal(ops[i]) && !ops[i].Reset? && ops[i] != Remove(tag)
  }

  /** tag is in the map, and of the ring's entries only the one p insertions away from being
      reused holds it. */
  ghost predicate HeldAt(c: Cache, tag: ulong, p: nat)
    requires c.oldest < |c.ring|
  {
    && tag in c.tags && p < |c.ring| && Rotated(c)[p] == tag
    && forall i :: 0 <= i < |c.ring| && Rotated(c)[i] == tag ==> i == p
  }

  lemma {:induction false} HeldOn(c: Cache, tag: ulong, p: nat, ops: seq<Op>)
    requires c.oldest < |c.ring| && HeldAt(c, tag, p) && Spares(ops, tag) && Insertions(ops) <= p
    ensures tag in RunFrom(c, ops).tags
    decreases |ops|
  {
    if ops != [] {
      var op, rest := ops[0], ops[1..];
      if op.Insert? && op.tag !in c.tags {
        RotatedInserted(c, op.tag);
        HeldOn(Inserted(c, op.tag), tag, p - 1, rest);
      } else {
        assert Rotated(Step(c, op)) == Rotated(c);
        HeldOn(Step(c, op), tag, p, rest);
      }
    }
  }

  /** A tag the ring does not hold stays for all of the next depth - 1 insertions. */
  lemma StaysIfNew(c: Cache, tag: ulong, ops: seq<Op>)
    requires Wf(c) && tag !in c.tags && tag !in c.ring && Spares(ops, tag) && Insertions(ops) < |c.ring|
    ensures tag in RunFrom(Inserted(c, tag), ops).tags
  {
    RotatedInserted(c, tag);
    RotatedHolds(c, tag);
    HeldOn(Inserted(c, tag), tag, |c.ring| - 1, ops);
  }

  /** There is always a tag to insert that the cache does not have. */
  lemma NewTag(tags: set<ulong>, n: nat) returns (t: ulong)
    requires |tags| < n < TWO64
    ensures t != NULL && t !in tags
  {
    if forall x: ulong :: 1 <= x <= n ==> x in tags {
      UpToCard(tags, n);
      assert false;
    }
    t :| 1 <= t <= n && t !in tags;
  }

  lemma {:induction false} UpToCard(tags: set<ulong>, n: nat)
    requires n < TWO64 && forall x: ulong :: 1 <= x <= n ==> x in tags
    ensures |tags| >= n
  {
    if n > 0 {
      UpToCard(tags - {n}, n - 1);
    }
  }

  /** A tag with a copy in the ring p insertions away from being reused is evicted by at most
      p + 1 insertions of new tags. */
  lemma {:induction false} LostAfter(c: Cache, tag: ulong, p: nat) returns (ops: seq<Op>)
    requires Wf(c) && |c.ring| + 1 < TWO64 && p < |c.ring| && Rotated(c)[p] == tag && tag in c.tags
    ensures Insertions(ops) <= p + 1 && Spares(ops, tag) && tag !in RunFrom(c, ops).tags
    decreases p
  {
    LoadBound(c);
    var t := NewTag(c.tags, |c.ring| + 1);
    WfKept(c, t);
    RotatedInserted(c, t);
    var d := Inserted(c, t);
    if tag in d.tags {
      var rest := LostAfter(d, tag, p - 1);
      ops := [Insert(t)] + rest;
      assert ops[1..] == rest;
    } else {
      ops := [Insert(t)];
      assert ops[1..] == [] && RunFrom(c, ops) == RunFrom(d, []);
    }
  }

  /** Exactly when an accepted tag stays for as long as first-in first-out promises, which is
      through any operations with at most depth - 1 insertions: when its insertion was safe, that
      is when the ring does not still hold a removed copy of it. */
  lemma InsertStays(c: Cache, tag: ulong)
    requires Wf(c) && |c.ring| + 1 < TWO64 && tag != NULL && tag !in c.tags
    ensures tag !in c.ring <==>
            forall ops :: Spares(ops, tag) && Insertions(ops) < |c.ring| ==> tag in RunFrom(Inserted(c, tag), ops).tags
  {
    if tag !in c.ring {
      forall ops | Spares(ops, tag) && Insertions(ops) < |c.ring|
        ensures tag in RunFrom(Inserted(c, tag), ops).tags
      {
        StaysIfNew(c, tag, ops);
      }
    } else {
      RotatedHolds(c, tag);
      var j :| 0 <= j < |c.ring| && Rotated(c)[j] == tag;
      WfKept(c, tag);
      RotatedInserted(c, tag);
      var d := Inserted(c, tag);
      if tag in d.tags {
        var ops := LostAfter(d, tag, j - 1);
      } else {
        assert Spares([], tag) && RunFrom(d, []) == d;
      }
    }
  }

  // ----- only safe insertions keep the window

  ghost predicate IsWindow(c: Cache, q: seq<ulong>) {
    exists gone :: HoldsBut(c, q, gone)
  }

  /** After an insertion that is not safe the cache is no window of its log, whatever tags count
      as removed. */
  lemma UnsafeBreaks(c: Cache, log: seq<ulong>, gone: set<ulong>, tag: ulong)
    requires |c.ring| >= 2 && tag != NULL && HoldsBut(c, Last(log, |c.ring|), gone) && !Safe(c, tag)
    ensures !IsWindow(Inserted(c, tag), Last(Accept(|c.ring|, log, Insert(tag)), |c.ring|))
  {
    var q := Last(log, |c.ring|);
    RingHolds(c, q, gone, tag);
    RotatedInserted(c, tag);
    var r, d := Rotated(c), Inserted(c, tag);
    forall g ensures !HoldsBut(d, q, g) {
      if HoldsBut(d, q, g) {
        assert r == r[1..] + [tag];
        AllSame(r, tag, 0);
        assert r[0] == tag && r[1] == tag by {
          AllSame(r, tag, 1);
        }
        TwoOfOne(c, q, gone, tag);
      }
    }
  }

  lemma {:induction false} AllSame(r: seq<ulong>, tag: ulong, i: nat)
    requires i < |r| && r == r[1..] + [tag]
    ensures r[i] == tag
    decreases |r| - i
  {
    if i + 1 < |r| {
      AllSame(r, tag, i + 1);
      assert r[i] == (r[1..] + [tag])[i];
    } else {
      assert r[i] == (r[1..] + [tag])[i];
    }
  }

  lemma TwoOfOne(c: Cache, q: seq<ulong>, gone: set<ulong>, tag: ulong)
    requires HoldsBut(c, q, gone) && |c.ring| >= 2 && tag != NULL
    ensures !(Rotated(c)[0] == tag && Rotated(c)[1] == tag)
  {
  }

  /** Exactly when a run is first-in first-out at all times: when all its insertions are safe. A
      ring of one slot is the exception, see OneSlot. */
  lemma WindowExact(depth: nat, ops: seq<Op>)
    requires depth >= 2 && forall op :: op in ops ==> Legal(op)
    ensures AllSafe(depth, ops) <==>
            forall k :: 0 <= k <= |ops| ==> IsWindow(Run(depth, ops[..k]), Last(Log(depth, ops[..k]), depth))
  {
    if AllSafe(depth, ops) {
      forall k | 0 <= k <= |ops| ensures IsWindow(Run(depth, ops[..k]), Last(Log(depth, ops[..k]), depth)) {
        assert AllSafe(depth, ops[..k]) by {
          assert forall i :: 0 <= i < k ==> ops[..k][..i] == ops[..i];
        }
        FifoWithRemovals(depth, ops[..k]);
      }
    } else {
      var k :| 0 <= k < |ops| && ops[k].Insert? && !Safe(Run(depth, ops[..k]), ops[k].tag);
      UnsafeStep(depth, ops, k);
    }
  }

  lemma UnsafeStep(depth: nat, ops: seq<Op>, k: nat)
    requires depth >= 2 && (forall op :: op in ops ==> Legal(op))
    requires k < |ops| && ops[k].Insert? && !Safe(Run(depth, ops[..k]), ops[k].tag)
    ensures IsWindow(Run(depth, ops[..k]), Last(Log(depth, ops[..k]), depth)) ==>
              !IsWindow(Run(depth, ops[..k + 1]), Last(Log(depth, ops[..k + 1]), depth))
  {
    var c, log := Run(depth, ops[..k]), Log(depth, ops[..k]);
    assert ops[..k + 1][..k] == ops[..k] && ops[k] in ops;
    if IsWindow(c, Last(log, depth)) {
      var gone :| HoldsBut(c, Last(log, depth), gone);
      UnsafeBreaks(c, log, gone, ops[k].tag);
    }
  }

  /** With one slot every run is: a tag lost at once counts as removed. */
  lemma {:induction false} OneSlot(ops: seq<Op>)
    requires forall op :: op in ops ==> Legal(op)
    ensures IsWindow(Run(1, ops), Last(Log(1, ops), 1))
  {
    if ops == [] {
      FifoRefinement(1, ops);
    } else {
      var pre, op := ops[..|ops| - 1], ops[|ops| - 1];
      OneSlot(pre);
      assert op in ops;
      var c, log := Run(1, pre), Log(1, pre);
      var gone :| HoldsBut(c, Last(log, 1), gone);
      if op.Insert? && !Safe(c, op.tag) {
        RingHolds(c, Last(log, 1), gone, op.tag);
        assert HoldsBut(Inserted(c, op.tag), Last(log, 1), {op.tag});
      } else {
        StepHolds(c, log, gone, op);
      }
    }
  }

  // ----- runs in which a tag is lost

  lemma InsertLost()
    ensures var ops := [Insert(5), Remove(5), Insert(5)];
            (forall op :: op in ops ==> Legal(op)) && Run(1, ops).tags == {}
  {
    var a: Op, b: Op := Insert(5), Remove(5);
    var ops := [a, b, a];
    assert ops[..2] == [a, b] && [a, b][..1] == [a] && [a][..0] == [];
    assert Run(1, []) == Empty(1);
    assert Run(1, [a]) == Cache({5}, [5], 0);
    assert Run(1, [a, b]) == Cache({}, [5], 0);
  }

  /** A tag kept at first and lost one insertion later, while it is one of the two accepted last. */
  lemma InsertLostLater()
    ensures var ops := [Insert(5), Remove(5), Insert(5), Insert(6)];
            (forall op :: op in ops ==> Legal(op)) && Run(2, ops[..3]).tags == {5} && Run(2, ops).tags == {6}
  {
    var a: Op, b: Op, d: Op := Insert(5), Remove(5), Insert(6);
    var ops := [a, b, a, d];
    assert ops[..3] == [a, b, a] && [a, b, a][..2] == [a, b] && [a, b][..1] == [a] && [a][..0] == [];
    assert Run(2, []) == Cache({}, [0, 0], 0);
    assert Run(2, [a]) == Cache({5}, [5, 0], 1);
    assert Run(2, [a, b]) == Cache({}, [5, 0], 1);
    assert Run(2, [a, b, a]) == Cache({5}, [5, 5], 0);
  }

  /** Without standalone removals no accepted insertion is lost. */
  lemma InsertNeverLost(depth: nat, ops: seq<Op>, tag: ulong)
    requires depth > 0 && tag != NULL && forall op :: op in ops ==> Legal(op) && !op.Remove?
    ensures tag in Inserted(Run(depth, ops), tag).tags
  {
    FifoRefinement(depth, ops);
    var c := Run(depth, ops);
    assert Rotated(c)[0] == c.ring[c.oldest];
  }

  /** fd_tcache_map_cnt_default: the map size used for a depth, 0 if there is none. */
  function MapCntDefault(depth: ulong): ulong {
    if depth == 0 then 0
    else if depth == ULONG_MAX then 0
    else
      var lg := FindMsb(depth + 1) + 2;
      if lg > 63 then 0 else Shl64(1, lg)
  }

  /** The default map size is a power of two that leaves the map between a quarter and a half
      full, and it exists exactly for depths below 2^62 - 1. */
  lemma MapCntDefaultFits(depth: ulong)
    ensures var cnt := MapCntDefault(depth);
            && (cnt == 0 <==> depth == 0 || depth + 1 >= 0x4000_0000_0000_0000)
            && (cnt != 0 ==> IsPow2(cnt) && depth + 2 <= cnt && 2 * (depth + 1) < cnt <= 4 * (depth + 1))
  {
    if 0 < depth < ULONG_MAX {
      MsbBound(depth + 1, FindMsb(depth + 1));
    }
  }

  lemma MsbBound(x: nat, b: nat)
    requires Pow2(b) <= x < Pow2(b + 1)
    ensures b >= 62 <==> x >= 0x4000_0000_0000_0000
    ensures b < 62 ==> Shl64(1, b + 2) == Pow2(b + 2) == 4 * Pow2(b) && Pow2(b + 1) == 2 * Pow2(b)
  {
    var m := Exponent62();
    if b >= m {
      Pow2Mono(m, b);
    } else {
      Pow2Mono(b + 1, m);
      ShlMul(1, b + 2);
      assert Pow2(b + 2) == 2 * Pow2(b + 1);
    }
  }

  lemma Exponent62() returns (m: nat)
    ensures m == 62 && Pow2(m) == 0x4000_0000_0000_0000
  {
    Pow2Consts();
    m := 62;
  }
}
