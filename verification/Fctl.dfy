/** Credit-based flow control of a transmitter by its reliable receivers. */
module Fctls {
  import opened Words

  /** What one receiver allows: rx_cr_query of fd_fctl_cr_query. Every intermediate value is a
      64-bit signed integer. */
  function Credit(crMax: long, txSeq: ulong, rxSeq: ulong): (cr: nat)
    requires crMax >= 1
    ensures cr <= crMax
  {
    var diff: long := SeqDiff(txSeq, rxSeq);
    var delta: long := if diff >= 0 then diff else 0;
    var test: long := crMax - delta;
    if test >= 0 then test else 0
  }

  /** In exact arithmetic, for positions less than 2^63 apart. */
  lemma CreditExact(crMax: long, tx: int, rx: int)
    requires crMax >= 1 && -TWO63 <= tx - rx < TWO63
    ensures Credit(crMax, Wrap(tx), Wrap(rx)) ==
            if tx <= rx then crMax else if tx - rx >= crMax then 0 else crMax - (tx - rx)
  {
    SeqDiffExact(tx, rx);
  }

  /** A query under way: the credits so far and the receiver limiting them, ULONG_MAX if none. */
  datatype Acc = Acc(cr: nat, slow: ulong)

  function QueryStep(acc: Acc, idx: ulong, credit: nat): Acc {
    if credit < acc.cr then Acc(credit, idx) else acc
  }

  /** A query over the receivers' credits, None for an inactive receiver. */
  function Scan(credits: seq<Option<nat>>, crMax: nat): Acc
    requires |credits| < ULONG_MAX
  {
    if credits == [] then Acc(crMax, ULONG_MAX)
    else
      var k := |credits| - 1;
      var acc := Scan(credits[..k], crMax);
      if credits[k].None? then acc else QueryStep(acc, k, credits[k].value)
  }

  predicate Active(credits: seq<Option<nat>>, i: int) {
    0 <= i < |credits| && credits[i].Some?
  }

  /** A query returns the least of cr_max and all active receivers' credits, and the lowest
      index among the receivers that attain it when they are what limits it. */
  lemma {:induction false} ScanIsMinimum(credits: seq<Option<nat>>, crMax: nat)
    requires |credits| < ULONG_MAX
    ensures var acc := Scan(credits, crMax);
            && acc.cr <= crMax
            && (forall i :: Active(credits, i) ==> acc.cr <= credits[i].value)
            && (acc.slow == ULONG_MAX <==> acc.cr == crMax)
            && (acc.slow != ULONG_MAX ==>
                  Active(credits, acc.slow) && credits[acc.slow].value == acc.cr
                  && forall j :: Active(credits, j) && j < acc.slow ==> credits[j].value > acc.cr)
  {
    if credits != [] {
      var k := |credits| - 1;
      ScanIsMinimum(credits[..k], crMax);
      forall i | Active(credits, i) && i < k
        ensures Scan(credits[..k], crMax).cr <= credits[i].value
      {
        assert Active(credits[..k], i);
      }
      forall j | Active(credits, j) && j < Scan(credits[..k], crMax).slow && Scan(credits[..k], crMax).slow < k
        ensures credits[j].value > Scan(credits[..k], crMax).cr
      {
        assert Active(credits[..k], j);
      }
    }
  }

  /** The thresholds set by fd_fctl_cfg_done. */
  datatype Thresholds = Thresholds(crBurst: nat, crMax: nat, crResume: nat, crRefill: nat)

  predicate Configured(t: Thresholds) {
    1 <= t.crBurst <= t.crResume <= t.crMax <= LONG_MAX && 1 <= t.crRefill <= t.crResume
  }

  predicate NeedsQuery(t: Thresholds, crAvail: nat, inRefill: bool) {
    crAvail < t.crRefill || inRefill
  }

  /** What an update makes of a finished query: the refilling state, the credits, and whether
      the slow receiver's counter is increased. */
  function Updated(t: Thresholds, inRefill: bool, crAvail: nat, cr: nat): (bool, nat, bool) {
    if cr >= t.crResume then (false, cr, false)
    else if !inRefill then (true, crAvail, true)
    else (true, crAvail, false)
  }

  /** cr is the least of crMax and the active receivers' credits. */
  ghost predicate Least(credits: seq<Option<nat>>, crMax: nat, cr: nat) {
    && cr <= crMax && (forall i :: Active(credits, i) ==> cr <= credits[i].value)
    && (cr == crMax || exists i :: Active(credits, i) && credits[i].value == cr)
  }

  /** Some active receiver allows less than cr_resume. */
  ghost predicate Short(credits: seq<Option<nat>>, crResume: nat) {
    exists i :: Active(credits, i) && credits[i].value < crResume
  }

  lemma LeastIs(credits: seq<Option<nat>>, crMax: nat)
    requires |credits| < ULONG_MAX
    ensures Least(credits, crMax, Scan(credits, crMax).cr)
  {
    ScanIsMinimum(credits, crMax);
  }

  /** An update that queries leaves the refilling state on exactly when no receiver is short, with
      the least credit found, and otherwise leaves the credits as they were. */
  lemma UpdatedIs(t: Thresholds, credits: seq<Option<nat>>, inRefill: bool, crAvail: nat)
    requires Configured(t) && |credits| < ULONG_MAX
    ensures var u := Updated(t, inRefill, crAvail, Scan(credits, t.crMax).cr);
            && (u.0 <==> Short(credits, t.crResume))
            && (if u.0 then u.1 == crAvail else Least(credits, t.crMax, u.1) && u.1 >= t.crResume)
            && (u.2 <==> u.0 && !inRefill)
  {
    LeastIs(credits, t.crMax);
  }

  /** A query that is too low to resume was limited by some receiver, so entering the
      refilling state always has a receiver to blame. */
  lemma EnteringRefillBlamesOne(t: Thresholds, credits: seq<Option<nat>>)
    requires Configured(t) && |credits| < ULONG_MAX && Scan(credits, t.crMax).cr < t.crResume
    ensures Active(credits, Scan(credits, t.crMax).slow)
  {
    ScanIsMinimum(credits, t.crMax);
  }

  ghost predicate InReach(t: Thresholds, credits: seq<Option<nat>>) {
    forall i :: Active(credits, i) ==> t.crResume <= credits[i].value
  }

  lemma ResumesAtMost(t: Thresholds, credits: seq<Option<nat>>, crAvail: nat, inRefill: bool)
    requires Configured(t) && |credits| < ULONG_MAX
    ensures var u := Updated(t, inRefill, crAvail, Scan(credits, t.crMax).cr);
            (!u.0 <==> InReach(t, credits)) && (!u.0 ==> u.1 >= t.crBurst)
  {
    ScanIsMinimum(credits, t.crMax);
  }

  class Cell {
    var v: ulong

    constructor (v: ulong)
      ensures this.v == v
    {
      this.v := v;
    }
  }

  /** One receiver of a flow control; no seqLaddr marks an inactive one. */
  datatype Rx = Rx(crMax: long, seqLaddr: Cell?, slowLaddr: Cell)

  class Fctl {
    const rx: seq<Rx>
    const t: Thresholds
    var inRefill: bool

    constructor (rx: seq<Rx>, t: Thresholds)
      requires |rx| <= 65535 && Configured(t) && forall r :: r in rx ==> r.crMax >= 1
      ensures Valid() && this.rx == rx && this.t == t && !inRefill
    {
      this.rx, this.t, this.inRefill := rx, t, false;
    }

    ghost predicate Valid() {
      |rx| <= 65535 && Configured(t) && forall r :: r in rx ==> r.crMax >= 1
    }

    /** The receivers' credits for a transmitter at txSeq. */
    ghost function Credits(txSeq: ulong): (c: seq<Option<nat>>)
      requires Valid()
      reads set r | r in rx && r.seqLaddr != null :: r.seqLaddr
      ensures |c| == |rx|
    {
      seq(|rx|, i requires 0 <= i < |rx| && rx[i] in rx
                  reads set r | r in rx && r.seqLaddr != null :: r.seqLaddr =>
        if rx[i].seqLaddr == null then None else Some(Credit(rx[i].crMax, txSeq, rx[i].seqLaddr.v)))
    }

    /** fd_fctl_rx_cr_return on the cell of receiver i: it replaces the credits of the receivers
        that have this cell, for every position of the transmitter, and no others. */
    method RxCrReturn(i: nat, rxSeq: ulong)
      requires Valid() && i < |rx| && rx[i].seqLaddr != null
      modifies rx[i].seqLaddr
      ensures rx[i].seqLaddr.v == rxSeq
      ensures forall txSeq: ulong, j :: 0 <= j < |rx| ==>
                Credits(txSeq)[j] == if rx[j].seqLaddr == rx[i].seqLaddr then Some(Credit(rx[j].crMax, txSeq, rxSeq))
                                     else old(Credits(txSeq))[j]
    {
      rx[i].seqLaddr.v := rxSeq;
    }

    /** Every active receiver has returned a position at or past txSeq. */
    ghost predicate CaughtUp(txSeq: ulong)
      requires Valid()
      reads set r | r in rx && r.seqLaddr != null :: r.seqLaddr
    {
      forall r :: r in rx && r.seqLaddr != null ==> SeqDiff(txSeq, r.seqLaddr.v) <= 0
    }

    /** cr_resume is within what every active receiver ever allows. */
    ghost predicate ResumeInReach() {
      forall r :: r in rx && r.seqLaddr != null ==> t.crResume <= r.crMax
    }

    /** The credits of receivers that have caught up are their cr_max. */
    lemma CaughtUpCredits(txSeq: ulong)
      requires Valid() && CaughtUp(txSeq)
      ensures InReach(t, Credits(txSeq)) <==> ResumeInReach()
    {
      var credits := Credits(txSeq);
      forall i | 0 <= i < |rx| && rx[i].seqLaddr != null
        ensures Active(credits, i) && credits[i].value == rx[i].crMax
      {
        assert rx[i] in rx;
      }
      if ResumeInReach() {
        forall i | Active(credits, i) ensures t.crResume <= credits[i].value {
          assert rx[i] in rx;
        }
      } else {
        var r :| r in rx && r.seqLaddr != null && t.crResume > r.crMax;
        var i :| 0 <= i < |rx| && rx[i] == r;
        assert Active(credits, i);
      }
    }

    /** With every receiver caught up, a transmitter that needs credits resumes after one update,
        with enough for a burst, exactly when cr_resume is in reach of every active receiver. */
    lemma ResumesWhenCaughtUp(txSeq: ulong, crAvail: nat)
      requires Valid()
      ensures var u := Updated(t, inRefill, crAvail, Scan(Credits(txSeq), t.crMax).cr);
              CaughtUp(txSeq) ==> (!u.0 <==> ResumeInReach()) && (!u.0 ==> u.1 >= t.crBurst)
    {
      if CaughtUp(txSeq) {
        CaughtUpCredits(txSeq);
        ResumesAtMost(t, Credits(txSeq), crAvail, inRefill);
      }
    }

    /** fd_fctl_cr_query. */
    method CrQuery(txSeq: ulong) returns (cr: nat, slow: ulong)
      requires Valid()
      ensures Acc(cr, slow) == Scan(Credits(txSeq), t.crMax)
    {
      ghost var credits := Credits(txSeq);
      cr, slow := t.crMax, ULONG_MAX;
      var i := 0;
      while i < |rx|
        invariant i <= |rx|
        invariant Acc(cr, slow) == Scan(credits[..i], t.crMax)
      {
        assert credits[..i + 1][..i] == credits[..i];
        var r := rx[i];
        if r.seqLaddr != null {
          var rxSeq := r.seqLaddr.v;
          var query := Credit(r.crMax, txSeq, rxSeq);
          slow := if query < cr then i else slow;
          cr := if query < cr then query else cr;
        }
        i := i + 1;
      }
      assert credits[..i] == credits;
    }

    /** fd_fctl_tx_cr_update. */
    method TxCrUpdate(crAvail: nat, txSeq: ulong) returns (cr: nat)
      requires Valid()
      modifies this, set r | r in rx :: r.slowLaddr
      ensures NeedsQuery(t, crAvail, old(inRefill)) ==>
                var u := Updated(t, old(inRefill), crAvail, Scan(old(Credits(txSeq)), t.crMax).cr);
                (inRefill, cr) == (u.0, u.1)
      ensures !NeedsQuery(t, crAvail, old(inRefill)) ==> cr == crAvail && !inRefill
      ensures !old(inRefill) && inRefill ==>
                var acc := Scan(old(Credits(txSeq)), t.crMax);
                acc.slow < |rx| && rx[acc.slow].slowLaddr.v == Wrap(old(rx[acc.slow].slowLaddr.v) + 1)
                && forall r :: r in rx && r.slowLaddr != rx[acc.slow].slowLaddr ==> r.slowLaddr.v == old(r.slowLaddr.v)
      ensures old(inRefill) || !inRefill ==> forall r :: r in rx ==> r.slowLaddr.v == old(r.slowLaddr.v)
      ensures old(inRefill) || crAvail < t.crRefill ==>
                (inRefill <==> Short(old(Credits(txSeq)), t.crResume))
                && (!inRefill ==> Least(old(Credits(txSeq)), t.crMax, cr) && cr >= t.crResume)
      ensures !old(inRefill) && crAvail >= t.crRefill ==> !inRefill && cr == crAvail
      ensures inRefill ==> cr == crAvail
      ensures cr < t.crRefill ==> inRefill
      ensures NeedsQuery(t, crAvail, old(inRefill)) && old(CaughtUp(txSeq)) ==>
                (!inRefill <==> ResumeInReach()) && (!inRefill ==> cr >= t.crBurst)
    {
      cr := crAvail;
      ResumesWhenCaughtUp(txSeq, crAvail);
      UpdatedIs(t, Credits(txSeq), inRefill, crAvail);
      if crAvail < t.crRefill || inRefill {
        var crQuery, slow := CrQuery(txSeq);
        ScanIsMinimum(Credits(txSeq), t.crMax);
        if crQuery >= t.crResume {
          inRefill := false;
          cr := crQuery;
        } else if !inRefill {
          if slow != ULONG_MAX {
            Blame(slow);
          }
          inRefill := true;
        }
      }
    }

    /** The slow counter of a receiver is increased by one, wrapping. */
    method Blame(slow: ulong)
      requires Valid() && slow < |rx|
      modifies rx[slow].slowLaddr
      ensures rx[slow].slowLaddr.v == Wrap(old(rx[slow].slowLaddr.v) + 1)
    {
      var counter := rx[slow].slowLaddr;
      counter.v := Wrap(counter.v + 1);
    }
  }
}
