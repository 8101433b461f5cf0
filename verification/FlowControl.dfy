/** The whole link under flow control: the documented transmitter loop, its queries of the
    receivers' positions one load at a time, the publishes it makes and the waits of its
    receivers, interleaved step by step.

    Receiver i of the flow control is consumer i of the mcache. Consumers that are not active
    receivers are unreliable: they may be overrun and go on wherever they like. */
module FlowControl {
  import opened Words
  import opened Frags
  import opened Fctls
  import L = Link

  datatype RxCfg = RxCfg(crMax: long, active: bool)

  datatype Cfg = Cfg(link: L.Cfg, t: Thresholds, rx: seq<RxCfg>)

  ghost predicate CfgOk(c: Cfg) {
    && L.CfgOk(c.link) && Configured(c.t) && |c.rx| <= 65535
    && forall i :: 0 <= i < |c.rx| ==> 1 <= c.rx[i].crMax && (c.rx[i].active ==> c.rx[i].crMax <= c.link.depth)
  }

  predicate Reliable(c: Cfg, i: int) {
    0 <= i < |c.rx| && c.rx[i].active
  }

  /** read holds the credits a query under way found so far, None for an inactive receiver. */
  datatype Phase = Loop | Query(read: seq<Option<nat>>, acc: Acc) | Burst(cnt: nat, sent: nat)

  /** returned holds the positions the receivers have returned; memory holds their 64-bit
      values. */
  datatype State = State(link: L.State, returned: seq<int>, txSeq: int, crAvail: nat, inRefill: bool, phase: Phase)

  datatype Step =
    | QueryBegin
    | QueryRx
    | QueryEnd
    | BurstBegin(cnt: nat)
    | Publish(step: L.Step)
    | BurstEnd
    | Consume(step: L.Step)
    | CrReturn(i: nat, position: int)

  ghost predicate Shaped(c: Cfg, s: State) {
    CfgOk(c) && L.Shaped(c.link, s.link) && |s.returned| == |c.rx| <= |s.link.rx|
  }

  ghost predicate Enabled(c: Cfg, s: State, step: Step)
    requires Shaped(c, s)
  {
    match step
    case QueryBegin => s.phase.Loop? && NeedsQuery(c.t, s.crAvail, s.inRefill)
    case QueryRx => s.phase.Query? && |s.phase.read| < |c.rx|
    case QueryEnd => s.phase.Query? && |s.phase.read| == |c.rx|
    case BurstBegin(cnt) => s.phase.Loop? && s.crAvail >= c.t.crBurst && cnt <= c.t.crBurst
    case Publish(p) => s.phase.Burst? && s.phase.sent < s.phase.cnt
                       && L.IsProducerStep(p) && L.Enabled(c.link, s.link, p)
    case BurstEnd => s.phase.Burst? && s.phase.sent == s.phase.cnt
    case Consume(p) => !L.IsProducerStep(p) && L.Enabled(c.link, s.link, p)
                       && (p.Leave? && Reliable(c, p.i) ==> p.expected == s.link.rx[p.i].expected)
    case CrReturn(i, position) => i < |c.rx| && s.returned[i] <= position <= s.link.rx[i].expected
  }

  ghost function Apply(c: Cfg, s: State, step: Step): State
    requires Shaped(c, s) && Enabled(c, s, step)
  {
    match step
    case QueryBegin => s.(phase := Query([], Acc(c.t.crMax, ULONG_MAX)))
    case QueryRx =>
      var k := |s.phase.read|;
      var credit := Credit(c.rx[k].crMax, Wrap(s.txSeq), Wrap(s.returned[k]));
      if c.rx[k].active then s.(phase := Query(s.phase.read + [Some(credit)], QueryStep(s.phase.acc, k, credit)))
      else s.(phase := Query(s.phase.read + [None], s.phase.acc))
    case QueryEnd =>
      var u := Updated(c.t, s.inRefill, s.crAvail, s.phase.acc.cr);
      s.(phase := Loop, inRefill := u.0, crAvail := u.1)
    case BurstBegin(cnt) => s.(phase := Burst(cnt, 0))
    case Publish(p) =>
      s.(link := L.Apply(c.link, s.link, p),
         phase := if p.Finish? then Burst(s.phase.cnt, s.phase.sent + 1) else s.phase)
    case BurstEnd =>
      s.(phase := Loop, txSeq := s.txSeq + s.phase.cnt, crAvail := Wrap(s.crAvail - s.phase.cnt))
    case Consume(p) => s.(link := L.Apply(c.link, s.link, p))
    case CrReturn(i, position) => s.(returned := s.returned[i := position])
  }

  /** Everybody starts at seq0, and the transmitter has no credits yet. */
  ghost predicate Init(c: Cfg, s: State) {
    && Shaped(c, s) && L.Init(c.link, s.link)
    && s.txSeq == c.link.seq0 && s.crAvail == 0 && !s.inRefill && s.phase.Loop?
    && forall i :: Reliable(c, i) ==> s.returned[i] == s.link.rx[i].expected == c.link.seq0
  }

  ghost predicate Moves(c: Cfg, s: State, t: State) {
    Shaped(c, s) && exists step :: Enabled(c, s, step) && t == Apply(c, s, step)
  }

  ghost predicate IsRun(c: Cfg, run: seq<State>) {
    run != [] && Init(c, run[0]) && forall k :: 0 <= k < |run| - 1 ==> Moves(c, run[k], run[k + 1])
  }

  // ----- the invariant

  function Sent(s: State): nat {
    if s.phase.Burst? then s.phase.sent else 0
  }

  ghost predicate TxInv(c: Cfg, s: State) {
    && Shaped(c, s) && L.ProducerInv(c.link, s.link)
    && s.txSeq + Sent(s) == L.Next(c.link, s.link)
    && (s.link.writer.Writing? ==> s.phase.Burst? && s.phase.sent < s.phase.cnt)
    && (s.phase.Burst? ==> s.phase.sent <= s.phase.cnt <= c.t.crBurst <= s.crAvail)
    && (s.phase.Query? ==> |s.phase.read| <= |c.rx| && NeedsQuery(c.t, s.crAvail, s.inRefill))
    && (s.phase.Query? ==> s.phase.acc.cr <= c.t.crMax)
    && (s.phase.Query? ==> s.phase.acc == Scan(s.phase.read, c.t.crMax))
    && s.crAvail <= c.t.crMax
  }

  /** Credits cr held at txSeq never take the transmitter beyond what receiver i allows. */
  predicate Covered(c: Cfg, s: State, i: nat, cr: nat)
    requires i < |c.rx| && i < |s.returned|
  {
    cr == 0 || s.txSeq + cr <= s.returned[i] + c.rx[i].crMax
  }

  ghost predicate CreditInv(c: Cfg, s: State, i: nat)
    requires TxInv(c, s) && Reliable(c, i)
  {
    && c.link.seq0 <= s.returned[i] <= s.link.rx[i].expected <= L.Next(c.link, s.link)
    && L.Next(c.link, s.link) <= s.returned[i] + c.rx[i].crMax
    && Covered(c, s, i, s.crAvail)
    && (s.phase.Query? && i < |s.phase.read| ==> Covered(c, s, i, s.phase.acc.cr))
  }

  /** A reliable receiver never sees a number beyond the one it expects, and what it has been
      delivered is exactly what was published before that. */
  ghost predicate RxTight(c: Cfg, r: L.Rx) {
    && (r.pc.Reading? ==> r.pc.foundNum <= r.expected)
    && (r.pc.Returned? ==> r.pc.foundNum <= r.expected && r.pc.testNum <= r.expected)
    && (forall q :: q in r.delivered <==> c.link.seq0 <= q < r.expected)
  }

  ghost predicate ReliableInv(c: Cfg, s: State, i: nat) {
    && TxInv(c, s) && Reliable(c, i) && CreditInv(c, s, i)
    && L.RxGood(c.link, s.link, i) && RxTight(c, s.link.rx[i])
  }

  ghost predicate Inv(c: Cfg, s: State) {
    TxInv(c, s) && forall i :: Reliable(c, i) ==> ReliableInv(c, s, i)
  }

  /** The lines a reliable receiver may still need are intact. */
  lemma Intact(c: Cfg, s: State, i: nat, q: int)
    requires TxInv(c, s) && Reliable(c, i) && CreditInv(c, s, i)
    requires s.returned[i] <= q < L.Next(c.link, s.link)
    ensures L.LineOf(c.link, s.link.lines, q).num == q
    ensures L.Published(c.link, s.link, q, L.LineOf(c.link, s.link.lines, q).frag)
  {
    L.LineFacts(c.link, s.link, q);
  }

  lemma ReliableNear(c: Cfg, s: State, i: nat)
    requires TxInv(c, s) && Reliable(c, i) && CreditInv(c, s, i)
    ensures var e := s.link.rx[i].expected;
            L.Near(c.link, s.link, s.link.rx[i]) && L.LineOf(c.link, s.link.lines, e).num <= e
  {
    var e := s.link.rx[i].expected;
    L.LineFacts(c.link, s.link, e);
    if e < L.Next(c.link, s.link) {
      Intact(c, s, i, e);
    }
  }

  lemma InitInv(c: Cfg, s: State)
    requires Init(c, s)
    ensures Inv(c, s)
  {
    L.InitInv(c.link, s.link);
  }

  lemma TxKeeps(c: Cfg, s: State, step: Step)
    requires TxInv(c, s) && Enabled(c, s, step)
    ensures TxInv(c, Apply(c, s, step))
  {
    match step {
      case Publish(p) => TxPublishes(c, s, p);
      case Consume(p) => L.ProducerKeeps(c.link, s.link, p);
      case QueryEnd => TxResumes(c, s);
      case BurstEnd => TxSpends(c, s);
      case _ =>
    }
  }

  lemma TxResumes(c: Cfg, s: State)
    requires TxInv(c, s) && Enabled(c, s, QueryEnd)
    ensures TxInv(c, Apply(c, s, QueryEnd))
  {
  }

  /** Credits spent on a burst never underflow. */
  lemma TxSpends(c: Cfg, s: State)
    requires TxInv(c, s) && Enabled(c, s, BurstEnd)
    ensures TxInv(c, Apply(c, s, BurstEnd)) && Apply(c, s, BurstEnd).crAvail == s.crAvail - s.phase.cnt
  {
  }

  lemma TxPublishes(c: Cfg, s: State, p: L.Step)
    requires TxInv(c, s) && Enabled(c, s, Publish(p))
    ensures TxInv(c, Apply(c, s, Publish(p)))
  {
    L.ProducerKeeps(c.link, s.link, p);
  }

  /** A receiver's cell is read at some point of a query and may advance afterwards: the
      credits it allows stay covered. */
  lemma QueryCovers(c: Cfg, s: State, i: nat)
    requires TxInv(c, s) && Reliable(c, i) && CreditInv(c, s, i) && s.phase.Query?
    ensures Covered(c, s, i, Credit(c.rx[i].crMax, Wrap(s.txSeq), Wrap(s.returned[i])))
  {
    CreditExact(c.rx[i].crMax, s.txSeq, s.returned[i]);
  }

  lemma CreditKeeps(c: Cfg, s: State, step: Step, i: nat)
    requires ReliableInv(c, s, i) && Enabled(c, s, step) && TxInv(c, Apply(c, s, step))
    ensures CreditInv(c, Apply(c, s, step), i)
  {
    match step {
      case QueryRx => QueryCredit(c, s, i);
      case QueryEnd => QueryEndCredit(c, s, i);
      case Publish(p) => PublishCredit(c, s, p, i);
      case Consume(p) => ConsumeCredit(c, s, p, i);
      case _ =>
    }
  }

  lemma QueryCredit(c: Cfg, s: State, i: nat)
    requires ReliableInv(c, s, i) && Enabled(c, s, QueryRx) && TxInv(c, Apply(c, s, QueryRx))
    ensures CreditInv(c, Apply(c, s, QueryRx), i)
  {
    if i == |s.phase.read| {
      QueryCovers(c, s, i);
    }
  }

  lemma QueryEndCredit(c: Cfg, s: State, i: nat)
    requires ReliableInv(c, s, i) && Enabled(c, s, QueryEnd) && TxInv(c, Apply(c, s, QueryEnd))
    ensures CreditInv(c, Apply(c, s, QueryEnd), i)
  {
  }

  lemma PublishCredit(c: Cfg, s: State, p: L.Step, i: nat)
    requires ReliableInv(c, s, i) && Enabled(c, s, Publish(p)) && TxInv(c, Apply(c, s, Publish(p)))
    ensures CreditInv(c, Apply(c, s, Publish(p)), i)
  {
  }

  /** What a reliable receiver accepts had been published. */
  lemma ConsumeCredit(c: Cfg, s: State, p: L.Step, i: nat)
    requires ReliableInv(c, s, i) && Enabled(c, s, Consume(p)) && TxInv(c, Apply(c, s, Consume(p)))
    ensures CreditInv(c, Apply(c, s, Consume(p)), i)
  {
    if p.i == i && p.Accept? {
      L.WaitSound(c.link, s.link, s.link.rx[i]);
    }
  }

  lemma RxKeeps(c: Cfg, s: State, step: Step, i: nat)
    requires ReliableInv(c, s, i) && Enabled(c, s, step)
    ensures L.RxGood(c.link, Apply(c, s, step).link, i) && RxTight(c, Apply(c, s, step).link.rx[i])
  {
    match step {
      case Publish(p) => LinkKeeps(c, s, p, i);
      case Consume(p) => LinkKeeps(c, s, p, i);
      case _ =>
    }
  }

  lemma LinkKeeps(c: Cfg, s: State, p: L.Step, i: nat)
    requires ReliableInv(c, s, i) && L.Enabled(c.link, s.link, p)
    requires p.Leave? && p.i == i ==> p.expected == s.link.rx[i].expected
    ensures L.RxGood(c.link, L.Apply(c.link, s.link, p), i) && RxTight(c, L.Apply(c.link, s.link, p).rx[i])
  {
    ReliableNear(c, s, i);
    L.RxKeeps(c.link, s.link, i, p);
    if !L.IsProducerStep(p) && p.i == i {
      TightKept(c, s, p, i);
    }
  }

  lemma TightKept(c: Cfg, s: State, p: L.Step, i: nat)
    requires L.Shaped(c.link, s.link) && i < |s.link.rx| && RxTight(c, s.link.rx[i])
    requires L.Enabled(c.link, s.link, p) && !L.IsProducerStep(p) && p.i == i
    requires s.link.rx[i].expected >= c.link.seq0
    requires L.LineOf(c.link, s.link.lines, s.link.rx[i].expected).num <= s.link.rx[i].expected
    requires p.Leave? ==> p.expected == s.link.rx[i].expected
    ensures RxTight(c, L.RxStep(c.link, s.link, i, p))
  {
  }

  lemma StepKeeps(c: Cfg, s: State, step: Step)
    requires Inv(c, s) && Enabled(c, s, step)
    ensures Inv(c, Apply(c, s, step))
  {
    TxKeeps(c, s, step);
    forall i | Reliable(c, i)
      ensures ReliableInv(c, Apply(c, s, step), i)
    {
      assert ReliableInv(c, s, i);
      CreditKeeps(c, s, step, i);
      RxKeeps(c, s, step, i);
    }
  }

  // ----- whole runs

  lemma {:induction false} RunInv(c: Cfg, run: seq<State>, k: nat)
    requires IsRun(c, run) && k < |run|
    ensures Inv(c, run[k])
  {
    if k == 0 {
      InitInv(c, run[0]);
    } else {
      RunInv(c, run, k - 1);
      assert Moves(c, run[k - 1], run[k - 1 + 1]);
      var step :| Enabled(c, run[k - 1], step) && run[k] == Apply(c, run[k - 1], step);
      StepKeeps(c, run[k - 1], step);
    }
  }

  /** Every step of the composed system is a step of the link or leaves the link alone, so
      what Link proves of every consumer holds here too. */
  lemma Refines(c: Cfg, s: State, t: State)
    requires Moves(c, s, t)
    ensures t.link == s.link || L.Moves(c.link, s.link, t.link)
  {
    var step :| Enabled(c, s, step) && t == Apply(c, s, step);
  }

  lemma {:induction false} UnreliableGood(c: Cfg, run: seq<State>, i: nat, k: nat)
    requires IsRun(c, run) && k < |run| && i < |run[0].link.rx|
    requires forall j :: 0 <= j < |run| ==>
               Shaped(c, run[j]) && i < |run[j].link.rx| && L.Near(c.link, run[j].link, run[j].link.rx[i])
    ensures L.RxGood(c.link, run[k].link, i)
  {
    RunInv(c, run, k);
    if k > 0 {
      UnreliableGood(c, run, i, k - 1);
      RunInv(c, run, k - 1);
      assert Moves(c, run[k - 1], run[k - 1 + 1]);
      var step :| Enabled(c, run[k - 1], step) && run[k] == Apply(c, run[k - 1], step);
      GoodKeeps(c, run[k - 1], step, i);
    }
  }

  lemma GoodKeeps(c: Cfg, s: State, step: Step, i: nat)
    requires Shaped(c, s) && Enabled(c, s, step)
    requires L.RxGood(c.link, s.link, i) && L.Near(c.link, s.link, s.link.rx[i])
    ensures L.RxGood(c.link, Apply(c, s, step).link, i)
  {
    match step {
      case Publish(p) => L.RxKeeps(c.link, s.link, i, p);
      case Consume(p) => L.RxKeeps(c.link, s.link, i, p);
      case _ =>
    }
  }

  /** The other consumers: as long as one stays within 2^63 numbers of the producer, its waits
      are sound and its deliveries faithful. */
  lemma UnreliableSound(c: Cfg, run: seq<State>, i: nat, k: nat)
    requires IsRun(c, run) && k < |run| && i < |run[0].link.rx|
    requires forall j :: 0 <= j < |run| ==>
               Shaped(c, run[j]) && i < |run[j].link.rx| && L.Near(c.link, run[j].link, run[j].link.rx[i])
    ensures L.Shaped(c.link, run[k].link) && L.WaitIsSound(c.link, run[k].link, run[k].link.rx[i])
  {
    UnreliableGood(c, run, i, k);
    L.GoodIsSound(c.link, run[k].link, i);
  }

  /** A reliable receiver is never overrun: in every state of every run, no line it has not
      returned is overwritten or being overwritten, its waits never report a difference, the
      data of a wait that did not time out is what was published, rechecking the line after
      processing succeeds, and it has been delivered every number from seq0 up to the one it
      expects, each exactly as published. */
  lemma NeverOverrun(c: Cfg, run: seq<State>, k: nat, i: nat)
    requires IsRun(c, run) && k < |run| && Reliable(c, i)
    ensures var s := run[k];
            && Shaped(c, s) && s.returned[i] <= s.link.rx[i].expected
            && (forall q :: s.returned[i] <= q < L.Next(c.link, s.link) ==>
                  L.Published(c.link, s.link, q, L.LineOf(c.link, s.link.lines, q).frag))
            && var r := s.link.rx[i];
            && (r.pc.Returned? && r.pollMax > 0 ==>
                  && r.pc.diff == 0
                  && L.Faithful(c.link, s.link, r.expected, r.pc.copy, r.pc.got) && BODY <= r.pc.got
                  && L.LineOf(c.link, s.link.lines, r.expected).frag.seqNo == Wrap(r.expected))
            && (forall q :: q in r.delivered <==> c.link.seq0 <= q < r.expected)
            && (forall q :: q in r.delivered ==> L.Published(c.link, s.link, q, r.delivered[q]))
  {
    RunInv(c, run, k);
    var s := run[k];
    assert ReliableInv(c, s, i);
    var r := s.link.rx[i];
    forall q | s.returned[i] <= q < L.Next(c.link, s.link)
      ensures L.Published(c.link, s.link, q, L.LineOf(c.link, s.link.lines, q).frag)
    {
      Intact(c, s, i, q);
    }
    if r.pc.Returned? && r.pollMax > 0 {
      SeqDiffExact(r.pc.foundNum, r.expected);
      L.WaitSound(c.link, s.link, r);
      L.LineFacts(c.link, s.link, r.expected);
      Intact(c, s, i, r.expected);
    }
  }

  /** Credits are sound over runs: a transmitter with credits left cannot use them to go
      beyond what any active receiver allows, what it has begun to send is within that too,
      and its credits never underflow. */
  lemma CreditsSound(c: Cfg, run: seq<State>, k: nat, i: nat)
    requires IsRun(c, run) && k < |run| && Reliable(c, i)
    ensures var s := run[k];
            && Shaped(c, s)
            && (s.crAvail == 0 || s.txSeq + s.crAvail <= s.returned[i] + c.rx[i].crMax)
            && L.Next(c.link, s.link) <= s.returned[i] + c.rx[i].crMax
            && s.crAvail <= c.t.crMax
            && (s.phase.Burst? ==> s.phase.cnt <= s.crAvail)
  {
    RunInv(c, run, k);
    assert ReliableInv(c, run[k], i);
  }

  /** The step from run[j] ends a query and resumes. */
  ghost predicate ResumesAt(run: seq<State>, j: nat) {
    j + 1 < |run| && run[j].phase.Query? && run[j + 1].phase.Loop? && !run[j + 1].inRefill
  }

  /** After a resume from position, a transmitter that has not queried since still has the credits
      it has not sent. */
  ghost predicate Holding(c: Cfg, s: State, position: int) {
    s.txSeq - position >= c.t.crResume - c.t.crRefill + 1
    || (!s.inRefill && !s.phase.Query? && s.crAvail + s.txSeq - position >= c.t.crResume)
  }

  lemma StepOf(c: Cfg, run: seq<State>, k: nat) returns (step: Step)
    requires IsRun(c, run) && 0 < k < |run|
    ensures TxInv(c, run[k - 1]) && Enabled(c, run[k - 1], step) && run[k] == Apply(c, run[k - 1], step)
  {
    RunInv(c, run, k - 1);
    assert Moves(c, run[k - 1], run[k - 1 + 1]);
    step :| Enabled(c, run[k - 1], step) && run[k] == Apply(c, run[k - 1], step);
  }

  lemma HoldingStarts(c: Cfg, s: State, step: Step)
    requires TxInv(c, s) && Enabled(c, s, step) && s.phase.Query?
    ensures var t := Apply(c, s, step); t.phase.Loop? && !t.inRefill ==> Holding(c, t, s.txSeq)
  {
  }

  lemma HoldingKeeps(c: Cfg, s: State, step: Step, position: int)
    requires TxInv(c, s) && Enabled(c, s, step) && Holding(c, s, position)
    ensures Holding(c, Apply(c, s, step), position)
  {
  }

  lemma {:induction false} HoldsOn(c: Cfg, run: seq<State>, j: nat, k: nat)
    requires IsRun(c, run) && ResumesAt(run, j) && j < k < |run|
    ensures Holding(c, run[k], run[j].txSeq)
  {
    var step := StepOf(c, run, k);
    if k == j + 1 {
      HoldingStarts(c, run[j], step);
    } else {
      HoldsOn(c, run, j, k - 1);
      HoldingKeeps(c, run[k - 1], step, run[j].txSeq);
    }
  }

  /** Hysteresis: whenever a transmitter that resumed queries again, it has published at least
      cr_resume - cr_refill + 1 numbers since. */
  lemma Hysteresis(c: Cfg, run: seq<State>, j: nat, k: nat)
    requires IsRun(c, run) && ResumesAt(run, j) && j < k < |run| && run[k].phase.Query?
    ensures |run[k].link.log| - |run[j].link.log| >= c.t.crResume - c.t.crRefill + 1
  {
    HoldsOn(c, run, j, k);
    RunInv(c, run, j);
    RunInv(c, run, k);
  }

  /** When the transmitter is between bursts and queries, it is to query exactly when its credits
      are below cr_refill or it is refilling; and a query that ends resumes exactly when no receiver
      it read was short, with the least of what it read. */
  lemma QueriesExact(c: Cfg, run: seq<State>, k: nat)
    requires IsRun(c, run) && k < |run|
    ensures Shaped(c, run[k])
    ensures Enabled(c, run[k], QueryBegin) <==> run[k].phase.Loop? && (run[k].crAvail < c.t.crRefill || run[k].inRefill)
    ensures Enabled(c, run[k], QueryEnd) ==>
              var t, read := Apply(c, run[k], QueryEnd), run[k].phase.read;
              && |read| == |c.rx| && t.phase.Loop?
              && (t.inRefill <==> Short(read, c.t.crResume))
              && (if t.inRefill then t.crAvail == run[k].crAvail
                  else Least(read, c.t.crMax, t.crAvail) && t.crAvail >= c.t.crResume)
  {
    RunInv(c, run, k);
    if Enabled(c, run[k], QueryEnd) {
      UpdatedIs(c.t, run[k].phase.read, run[k].inRefill, run[k].crAvail);
    }
  }

  /** A query reads exactly one receiver at a time, in order: what it allows at that moment, or
      nothing of an inactive one. */
  lemma ReadExact(c: Cfg, s: State)
    requires TxInv(c, s) && Enabled(c, s, QueryRx)
    requires var k := |s.phase.read|; c.rx[k].active ==> -TWO63 <= s.txSeq - s.returned[k] < TWO63
    ensures var k, t := |s.phase.read|, Apply(c, s, QueryRx);
            && t.phase.Query? && t == s.(phase := t.phase)
            && |t.phase.read| == k + 1 && t.phase.read[..k] == s.phase.read
            && (t.phase.read[k].None? <==> !c.rx[k].active)
            && (c.rx[k].active ==>
                  var ahead := s.txSeq - s.returned[k];
                  t.phase.read[k].value ==
                    if ahead <= 0 then c.rx[k].crMax else if ahead >= c.rx[k].crMax then 0 else c.rx[k].crMax - ahead)
  {
    var k := |s.phase.read|;
    if c.rx[k].active {
      CreditExact(c.rx[k].crMax, s.txSeq, s.returned[k]);
    }
  }

  /** What a query would read of receiver k's credit now. */
  function CreditOf(c: Cfg, s: State, k: nat): nat
    requires k < |c.rx| && k < |s.returned| && c.rx[k].crMax >= 1
  {
    Credit(c.rx[k].crMax, Wrap(s.txSeq), Wrap(s.returned[k]))
  }

  /** Returning a position keeps the invariant, and never lowers what any receiver allows: a
      query that reads the cells afterwards finds at least the credit it would have found before. */
  lemma ReturnKeeps(c: Cfg, s: State, i: nat, position: int, k: nat)
    requires Inv(c, s) && Enabled(c, s, CrReturn(i, position)) && Reliable(c, k)
    ensures var t := Apply(c, s, CrReturn(i, position));
            && Inv(c, t)
            && CreditOf(c, t, k) >= CreditOf(c, s, k)
            && (k == i && position >= s.txSeq ==> CreditOf(c, t, k) == c.rx[k].crMax)
  {
    StepKeeps(c, s, CrReturn(i, position));
    assert ReliableInv(c, s, k) && ReliableInv(c, Apply(c, s, CrReturn(i, position)), k);
    CreditExact(c.rx[k].crMax, s.txSeq, s.returned[k]);
    CreditExact(c.rx[k].crMax, s.txSeq, Apply(c, s, CrReturn(i, position)).returned[k]);
  }

  // ----- starvation

  /** cr_resume is within what every reliable receiver ever allows. */
  ghost predicate ResumeInReach(c: Cfg) {
    forall i :: Reliable(c, i) ==> c.t.crResume <= c.rx[i].crMax
  }

  /** The transmitter has no credits, and no query can find enough to resume once it has read
      receiver i. */
  ghost predicate Starved(c: Cfg, s: State, i: nat) {
    && TxInv(c, s) && s.crAvail == 0 && s.link.log == [] && !s.phase.Burst?
    && (s.phase.Query? && i < |s.phase.read| ==> s.phase.acc.cr < c.t.crResume)
  }

  lemma StarvedKeeps(c: Cfg, s: State, step: Step, i: nat)
    requires Starved(c, s, i) && Reliable(c, i) && c.rx[i].crMax < c.t.crResume && Enabled(c, s, step)
    ensures Starved(c, Apply(c, s, step), i)
  {
    TxKeeps(c, s, step);
  }

  /** With one reliable receiver whose cr_max is below cr_resume nothing is ever sent. */
  lemma {:induction false} NeverSends(c: Cfg, run: seq<State>, k: nat, i: nat)
    requires IsRun(c, run) && k < |run| && Reliable(c, i) && c.rx[i].crMax < c.t.crResume
    ensures Starved(c, run[k], i)
  {
    if k == 0 {
      InitInv(c, run[0]);
    } else {
      NeverSends(c, run, k - 1, i);
      assert Moves(c, run[k - 1], run[k - 1 + 1]);
      var step :| Enabled(c, run[k - 1], step) && run[k] == Apply(c, run[k - 1], step);
      StarvedKeeps(c, run[k - 1], step, i);
    }
  }

  ghost predicate Reaches(c: Cfg, s0: State, s: State) {
    exists run :: IsRun(c, run) && run[0] == s0 && run[|run| - 1] == s
  }

  lemma ReachInit(c: Cfg, s0: State)
    requires Init(c, s0)
    ensures Reaches(c, s0, s0)
  {
    var run := [s0];
    assert IsRun(c, run) && run[0] == s0 && run[|run| - 1] == s0;
  }

  lemma ReachStep(c: Cfg, s0: State, s: State, step: Step)
    requires Reaches(c, s0, s) && Shaped(c, s) && Enabled(c, s, step)
    ensures Reaches(c, s0, Apply(c, s, step))
  {
    var run :| IsRun(c, run) && run[0] == s0 && run[|run| - 1] == s;
    var longer := run + [Apply(c, s, step)];
    forall k | 0 <= k < |longer| - 1 ensures Moves(c, longer[k], longer[k + 1]) {
      if k < |run| - 1 {
        assert Moves(c, run[k], run[k + 1]);
      }
    }
    assert IsRun(c, longer) && longer[0] == s0 && longer[|longer| - 1] == Apply(c, s, step);
  }

  /** The transmitter is between bursts and every reliable receiver has returned its position. */
  ghost predicate AllBack(c: Cfg, s: State) {
    && Shaped(c, s) && s.phase.Loop? && s.link.writer.Idle?
    && forall i :: Reliable(c, i) ==> s.returned[i] == s.txSeq
  }

  /** A query under way since s1, when all receivers were back, that found enough so far. */
  ghost predicate Querying(c: Cfg, s0: State, s1: State, s: State, k: nat) {
    && AllBack(c, s1) && Reaches(c, s0, s) && k <= |c.rx|
    && s.phase.Query? && |s.phase.read| == k && s.phase.acc.cr >= c.t.crResume && s == s1.(phase := s.phase)
  }

  lemma QueryMore(c: Cfg, s0: State, s1: State, s: State, k: nat) returns (t: State)
    requires Querying(c, s0, s1, s, k) && k < |c.rx| && ResumeInReach(c)
    ensures Querying(c, s0, s1, t, k + 1)
  {
    ReachStep(c, s0, s, QueryRx);
    t := Apply(c, s, QueryRx);
    if Reliable(c, k) {
      CreditExact(c.rx[k].crMax, s.txSeq, s.returned[k]);
    }
  }

  lemma {:induction false} QueryAll(c: Cfg, s0: State, s1: State, s: State, k: nat) returns (t: State)
    requires Querying(c, s0, s1, s, k) && ResumeInReach(c)
    ensures Querying(c, s0, s1, t, |c.rx|)
    decreases |c.rx| - k
  {
    t := s;
    if k < |c.rx| {
      t := QueryMore(c, s0, s1, s, k);
      t := QueryAll(c, s0, s1, t, k + 1);
    }
  }

  /** From a query that found enough, the transmitter goes on with at least cr_resume credits. */
  lemma Resumed(c: Cfg, s0: State, s1: State, s: State) returns (t: State)
    requires Querying(c, s0, s1, s, |c.rx|)
    ensures Reaches(c, s0, t) && Ready(c, t) && !t.inRefill && t.crAvail >= c.t.crResume && t.link == s1.link
  {
    ReachStep(c, s0, s, QueryEnd);
    t := Apply(c, s, QueryEnd);
  }

  /** The transmitter is between bursts, with credits for another one. */
  ghost predicate Ready(c: Cfg, s: State) {
    Shaped(c, s) && s.phase.Loop? && s.crAvail >= c.t.crBurst && s.link.writer.Idle?
  }

  lemma PublishOne(c: Cfg, s0: State, s: State) returns (t: State)
    requires Reaches(c, s0, s) && Shaped(c, s) && s.phase.Burst? && s.phase.sent < s.phase.cnt && s.link.writer.Idle?
    ensures Reaches(c, s0, t) && Shaped(c, t) && t.link.writer.Idle? && |t.link.log| == |s.link.log| + 1
    ensures t == s.(link := t.link, phase := Burst(s.phase.cnt, s.phase.sent + 1))
  {
    t := BeginOne(c, s0, s);
    ReachStep(c, s0, t, Publish(L.Write(BODY)));
    t := Apply(c, t, Publish(L.Write(BODY)));
    assert t.link.writer.done == BODY;
    t := FinishOne(c, s0, t);
  }

  lemma BeginOne(c: Cfg, s0: State, s: State) returns (t: State)
    requires Reaches(c, s0, s) && Shaped(c, s) && s.phase.Burst? && s.phase.sent < s.phase.cnt && s.link.writer.Idle?
    ensures Reaches(c, s0, t) && Shaped(c, t) && t.link.writer.Writing? && t.link.writer.done == {}
    ensures t == s.(link := t.link) && t.link.log == s.link.log
  {
    var f := Meta(Wrap(L.Next(c.link, s.link)), 0, 0, 0, 0, 0, 0);
    ReachStep(c, s0, s, Publish(L.Begin(f, {})));
    t := Apply(c, s, Publish(L.Begin(f, {})));
  }

  lemma FinishOne(c: Cfg, s0: State, s: State) returns (t: State)
    requires Reaches(c, s0, s) && Shaped(c, s) && s.phase.Burst? && s.phase.sent < s.phase.cnt
    requires s.link.writer.Writing? && s.link.writer.done == BODY
    ensures Reaches(c, s0, t) && Shaped(c, t) && t.link.writer.Idle? && |t.link.log| == |s.link.log| + 1
    ensures t == s.(link := t.link, phase := Burst(s.phase.cnt, s.phase.sent + 1))
  {
    ReachStep(c, s0, s, Publish(L.Finish));
    t := Apply(c, s, Publish(L.Finish));
  }

  lemma {:induction false} PublishAll(c: Cfg, s0: State, s: State) returns (t: State)
    requires Reaches(c, s0, s) && Shaped(c, s) && s.phase.Burst? && s.phase.sent <= s.phase.cnt && s.link.writer.Idle?
    ensures Reaches(c, s0, t) && Shaped(c, t) && t.link.writer.Idle?
    ensures |t.link.log| == |s.link.log| + s.phase.cnt - s.phase.sent
    ensures t == s.(link := t.link, phase := Burst(s.phase.cnt, s.phase.cnt))
    decreases s.phase.cnt - s.phase.sent
  {
    t := s;
    if s.phase.sent < s.phase.cnt {
      t := PublishOne(c, s0, s);
      t := PublishAll(c, s0, t);
    }
  }

  /** A transmitter that is ready can send any burst, and spends just what it sends. */
  lemma SendBurst(c: Cfg, s0: State, s: State, cnt: nat) returns (t: State)
    requires Reaches(c, s0, s) && Ready(c, s) && cnt <= c.t.crBurst && s.crAvail < TWO63
    ensures Reaches(c, s0, t) && Shaped(c, t) && t.phase.Loop? && t.inRefill == s.inRefill && t.link.writer.Idle?
    ensures t.crAvail == s.crAvail - cnt && t.txSeq == s.txSeq + cnt && |t.link.log| == |s.link.log| + cnt
  {
    ReachStep(c, s0, s, BurstBegin(cnt));
    t := PublishAll(c, s0, Apply(c, s, BurstBegin(cnt)));
    ReachStep(c, s0, t, BurstEnd);
    t := Apply(c, t, BurstEnd);
  }

  /** With all receivers back and cr_resume in their reach, one query is enough. */
  lemma QueryReady(c: Cfg, s0: State, s: State) returns (t: State)
    requires Reaches(c, s0, s) && AllBack(c, s) && NeedsQuery(c.t, s.crAvail, s.inRefill) && ResumeInReach(c)
    ensures Reaches(c, s0, t) && Ready(c, t) && !t.inRefill && t.crAvail < TWO63 && t.link == s.link
  {
    ReachStep(c, s0, s, QueryBegin);
    t := QueryAll(c, s0, s, Apply(c, s, QueryBegin), 0);
    t := Resumed(c, s0, s, t);
    ReachInv(c, s0, t);
  }

  lemma ReachReady(c: Cfg, s0: State) returns (t: State)
    requires Init(c, s0) && ResumeInReach(c)
    ensures Reaches(c, s0, t) && Ready(c, t) && !t.inRefill && t.crAvail < TWO63
  {
    ReachInit(c, s0);
    t := QueryReady(c, s0, s0);
  }

  lemma ReachInv(c: Cfg, s0: State, s: State)
    requires Reaches(c, s0, s)
    ensures Inv(c, s)
  {
    var run :| IsRun(c, run) && run[0] == s0 && run[|run| - 1] == s;
    RunInv(c, run, |run| - 1);
  }

  /** Whether the system can ever do anything: some run from a given start sends a number exactly
      when cr_resume is in reach of every reliable receiver. */
  lemma CanSend(c: Cfg, s0: State)
    requires Init(c, s0)
    ensures (exists s :: Reaches(c, s0, s) && s.link.log != []) <==> ResumeInReach(c)
  {
    if ResumeInReach(c) {
      var t := ReachReady(c, s0);
      t := SendBurst(c, s0, t, 1);
    } else {
      var i :| Reliable(c, i) && c.rx[i].crMax < c.t.crResume;
      forall s | Reaches(c, s0, s) ensures s.link.log == [] {
        var run :| IsRun(c, run) && run[0] == s0 && run[|run| - 1] == s;
        NeverSends(c, run, |run| - 1, i);
      }
    }
  }

  /** A configuration within the documented ranges under which nothing is ever sent. */
  lemma StalledForever(c: Cfg, run: seq<State>, k: nat)
    requires c.t == Thresholds(1, 10, 8, 4) && c.rx == [RxCfg(5, true)]
    requires IsRun(c, run) && k < |run|
    ensures Configured(c.t) && run[k].crAvail == 0 && run[k].link.log == []
  {
    NeverSends(c, run, k, 0);
  }

  // ----- a transmitter that neither queries nor sends

  /** Too many credits to query for more, too few for a burst. */
  ghost predicate Stranded(c: Cfg, s: State) {
    Shaped(c, s) && s.phase.Loop? && !s.inRefill && c.t.crRefill <= s.crAvail < c.t.crBurst
  }

  /** Such a transmitter stays as it is, whatever its receivers do. */
  lemma StrandedStays(c: Cfg, s: State, step: Step)
    requires Stranded(c, s) && Enabled(c, s, step) && L.ProducerInv(c.link, s.link) && s.link.writer.Idle?
    ensures var t := Apply(c, s, step);
            Stranded(c, t) && t.crAvail == s.crAvail && t.link.log == s.link.log && t.link.writer.Idle?
  {
  }

  lemma {:induction false} Spend(c: Cfg, s0: State, s: State) returns (t: State)
    requires Reaches(c, s0, s) && Ready(c, s) && !s.inRefill && s.crAvail < TWO63 && CfgOk(c)
    ensures Reaches(c, s0, t) && Shaped(c, t) && t.phase.Loop? && !t.inRefill && t.crAvail == c.t.crBurst - 1
    decreases s.crAvail
  {
    var over := s.crAvail - (c.t.crBurst - 1);
    if over <= c.t.crBurst {
      t := SendBurst(c, s0, s, over);
    } else {
      t := SendBurst(c, s0, s, c.t.crBurst);
      t := Spend(c, s0, t);
    }
  }

  /** A transmitter can strand itself exactly when cr_refill is below cr_burst. */
  lemma StrandsExact(c: Cfg, s0: State)
    requires Init(c, s0) && ResumeInReach(c)
    ensures (exists s :: Reaches(c, s0, s) && Stranded(c, s)) <==> c.t.crRefill < c.t.crBurst
  {
    if c.t.crRefill < c.t.crBurst {
      var s := ReachReady(c, s0);
      s := Spend(c, s0, s);
      assert Stranded(c, s);
    }
  }

  // ----- everything can be delivered

  /** t is s but for what consumer i did. */
  ghost predicate OnlyRx(s: State, t: State, i: nat) {
    i < |s.link.rx| == |t.link.rx| && t == s.(link := s.link.(rx := s.link.rx[i := t.link.rx[i]]))
  }

  /** What a reliable receiver expects is present as soon as it is published. */
  lemma PresentNext(c: Cfg, s: State, i: nat)
    requires ReliableInv(c, s, i) && s.link.rx[i].expected < L.Next(c.link, s.link)
    ensures L.Present(c.link, s.link, s.link.rx[i].expected)
  {
  }

  lemma ReachConsume(c: Cfg, s0: State, s: State, i: nat, p: L.Step) returns (t: State)
    requires Reaches(c, s0, s) && Shaped(c, s) && Reliable(c, i)
    requires !L.IsProducerStep(p) && p.i == i && L.Enabled(c.link, s.link, p)
    requires p.Leave? ==> p.expected == s.link.rx[i].expected
    ensures Reaches(c, s0, t) && OnlyRx(s, t, i) && t.link == L.Apply(c.link, s.link, p)
  {
    ReachStep(c, s0, s, Consume(p));
    t := Apply(c, s, Consume(p));
  }

  lemma PollReach(c: Cfg, s0: State, s: State, i: nat) returns (t: State)
    requires Reaches(c, s0, s) && Inv(c, s) && Reliable(c, i) && s.link.rx[i].pc.Polling?
    ensures Reaches(c, s0, t) && OnlyRx(s, t, i)
    ensures t.link == L.Poll(c.link, s.link, i, BODY, s.link.lines[0].frag)
  {
    assert ReliableInv(c, s, i);
    t := ReachConsume(c, s0, s, i, L.ReadSeq(i, BODY, s.link.lines[0].frag));
    t := ReachConsume(c, s0, t, i, L.ReadBody(i, BODY - BODY));
    t := ReachConsume(c, s0, t, i, L.ReadTest(i));
  }

  /** A poll for a number that is present always ends the wait. */
  lemma PollReturns(c: Cfg, s0: State, s: State, i: nat) returns (t: State)
    requires Reaches(c, s0, s) && Reliable(c, i) && i < |s.link.rx| && s.link.rx[i].pc.Polling?
    requires s.link.rx[i].expected < L.Next(c.link, s.link)
    ensures Reaches(c, s0, t) && OnlyRx(s, t, i) && t.link.rx[i].pc.Returned?
    ensures t.link.rx[i].expected == s.link.rx[i].expected && t.link.rx[i].delivered == s.link.rx[i].delivered
    ensures s.link.rx[i].pollMax > 1 ==> t.link.rx[i].pollMax > 0 && t.link.rx[i].pc.diff == 0
    ensures Shaped(c, t)
    ensures L.LineOf(c.link, t.link.lines, t.link.rx[i].expected).frag.seqNo == Wrap(t.link.rx[i].expected)
  {
    ReachInv(c, s0, s);
    assert ReliableInv(c, s, i);
    PresentNext(c, s, i);
    L.LineFacts(c.link, s.link, s.link.rx[i].expected);
    t := PollReach(c, s0, s, i);
    var copy := L.PollIs(c.link, s.link, i, BODY, s.link.lines[0].frag);
  }

  /** Wherever a reliable receiver is in its wait, it can get back to its loop. */
  lemma ToAway(c: Cfg, s0: State, s: State, i: nat) returns (t: State)
    requires Reaches(c, s0, s) && Shaped(c, s) && Reliable(c, i) && s.link.rx[i].expected < L.Next(c.link, s.link)
    ensures Reaches(c, s0, t) && OnlyRx(s, t, i) && t.link.rx[i].pc.Away?
    ensures t.link.rx[i].expected == s.link.rx[i].expected && t.link.rx[i].delivered == s.link.rx[i].delivered
  {
    t := s;
    if t.link.rx[i].pc.Reading? {
      t := FinishReading(c, s0, t, i);
    }
    if t.link.rx[i].pc.Polling? {
      t := PollReturns(c, s0, t, i);
    }
    if t.link.rx[i].pc.Returned? {
      t := ReachConsume(c, s0, t, i, L.Leave(i, t.link.rx[i].expected));
    }
  }

  lemma FinishReading(c: Cfg, s0: State, s: State, i: nat) returns (t: State)
    requires Reaches(c, s0, s) && Shaped(c, s) && Reliable(c, i) && s.link.rx[i].pc.Reading?
    ensures Reaches(c, s0, t) && OnlyRx(s, t, i) && (t.link.rx[i].pc.Polling? || t.link.rx[i].pc.Returned?)
    ensures t.link.rx[i].expected == s.link.rx[i].expected && t.link.rx[i].delivered == s.link.rx[i].delivered
  {
    t := ReachConsume(c, s0, s, i, L.ReadBody(i, BODY));
    t := ReachConsume(c, s0, t, i, L.ReadTest(i));
  }

  /** The documented loop of a reliable receiver can take the next number. */
  lemma TakeNext(c: Cfg, s0: State, s: State, i: nat) returns (t: State)
    requires Reaches(c, s0, s) && Shaped(c, s) && Reliable(c, i) && s.link.rx[i].expected < L.Next(c.link, s.link)
    ensures Reaches(c, s0, t) && OnlyRx(s, t, i) && t.link.rx[i].expected == s.link.rx[i].expected + 1
  {
    t := ToAway(c, s0, s, i);
    t := ReachConsume(c, s0, t, i, L.Enter(i, 2));
    t := PollReturns(c, s0, t, i);
    t := ReachConsume(c, s0, t, i, L.Accept(i));
  }

  lemma {:induction false} TakeAll(c: Cfg, s0: State, s: State, i: nat) returns (t: State)
    requires Reaches(c, s0, s) && Shaped(c, s) && Reliable(c, i) && s.link.rx[i].expected <= L.Next(c.link, s.link)
    ensures Reaches(c, s0, t) && OnlyRx(s, t, i) && t.link.rx[i].expected == L.Next(c.link, s.link)
    decreases L.Next(c.link, s.link) - s.link.rx[i].expected
  {
    t := s;
    if s.link.rx[i].expected < L.Next(c.link, s.link) {
      t := TakeNext(c, s0, s, i);
      t := TakeAll(c, s0, t, i);
    }
  }

  /** From every state of every run, a reliable receiver can be given all that is published so far,
      exactly as published, by its own steps alone. */
  lemma CanDeliver(c: Cfg, s0: State, s: State, i: nat)
    requires Reaches(c, s0, s) && Reliable(c, i)
    ensures Shaped(c, s) && exists t ::
              && Reaches(c, s0, t) && OnlyRx(s, t, i)
              && forall q :: c.link.seq0 <= q < L.Next(c.link, s.link) ==>
                   q in t.link.rx[i].delivered && L.Published(c.link, s.link, q, t.link.rx[i].delivered[q])
  {
    ReachInv(c, s0, s);
    assert ReliableInv(c, s, i);
    var t := TakeAll(c, s0, s, i);
    ReachInv(c, s0, t);
    assert ReliableInv(c, t, i);
    forall q | c.link.seq0 <= q < L.Next(c.link, s.link)
      ensures q in t.link.rx[i].delivered && L.Published(c.link, s.link, q, t.link.rx[i].delivered[q])
    {
      assert L.Published(c.link, t.link, q, t.link.rx[i].delivered[q]);
    }
  }

  // ----- no deadlock

  /** A burst under way can be finished. */
  lemma EndBurst(c: Cfg, s0: State, s: State) returns (t: State)
    requires Reaches(c, s0, s) && s.phase.Burst?
    ensures Reaches(c, s0, t) && Shaped(c, t) && t.phase.Loop? && t.link.writer.Idle? && |t.link.log| >= |s.link.log|
  {
    ReachInv(c, s0, s);
    t := s;
    if t.link.writer.Writing? {
      ReachStep(c, s0, t, Publish(L.Write(BODY)));
      t := Apply(c, t, Publish(L.Write(BODY)));
      ReachInv(c, s0, t);
      assert t.link.writer.done == BODY;
      t := FinishOne(c, s0, t);
      ReachInv(c, s0, t);
    }
    t := PublishAll(c, s0, t);
    ReachStep(c, s0, t, BurstEnd);
    t := Apply(c, t, BurstEnd);
  }

  /** So can a query. */
  lemma {:induction false} EndQuery(c: Cfg, s0: State, s: State) returns (t: State)
    requires Reaches(c, s0, s) && Shaped(c, s) && s.phase.Query? && |s.phase.read| <= |c.rx| && s.link.writer.Idle?
    ensures Reaches(c, s0, t) && Shaped(c, t) && t.phase.Loop? && t.link.writer.Idle? && t.link == s.link
    decreases |c.rx| - |s.phase.read|
  {
    if |s.phase.read| < |c.rx| {
      ReachStep(c, s0, s, QueryRx);
      t := EndQuery(c, s0, Apply(c, s, QueryRx));
    } else {
      ReachStep(c, s0, s, QueryEnd);
      t := Apply(c, s, QueryEnd);
    }
  }

  /** The transmitter can always get back to its loop. */
  lemma ToLoop(c: Cfg, s0: State, s: State) returns (t: State)
    requires Reaches(c, s0, s)
    ensures Reaches(c, s0, t) && Shaped(c, t) && t.phase.Loop? && t.link.writer.Idle? && |t.link.log| >= |s.link.log|
  {
    ReachInv(c, s0, s);
    match s.phase {
      case Loop => t := s;
      case Burst(_, _) => t := EndBurst(c, s0, s);
      case Query(_, _) => t := EndQuery(c, s0, s);
    }
  }

  /** t is s but for what receivers did. */
  ghost predicate OnlyReceivers(s: State, t: State) {
    |t.link.rx| == |s.link.rx| && |t.returned| == |s.returned|
    && t == s.(link := s.link.(rx := t.link.rx), returned := t.returned)
  }

  /** Receiver i can take all there is and return its position. */
  lemma BringBack(c: Cfg, s0: State, s: State, i: nat) returns (t: State)
    requires Reaches(c, s0, s) && Shaped(c, s) && s.phase.Loop? && Reliable(c, i)
    ensures Reaches(c, s0, t) && Shaped(c, t) && OnlyReceivers(s, t)
    ensures t.returned == s.returned[i := s.txSeq]
  {
    ReachInv(c, s0, s);
    assert ReliableInv(c, s, i);
    t := TakeAll(c, s0, s, i);
    ReachInv(c, s0, t);
    assert ReliableInv(c, t, i);
    ReachStep(c, s0, t, CrReturn(i, s.txSeq));
    t := Apply(c, t, CrReturn(i, s.txSeq));
  }

  ghost predicate BackUpTo(c: Cfg, s: State, n: nat, position: int) {
    n <= |s.returned| && forall i :: 0 <= i < n && Reliable(c, i) ==> s.returned[i] == position
  }

  lemma BringOne(c: Cfg, s0: State, s: State, i: nat) returns (t: State)
    requires Reaches(c, s0, s) && Shaped(c, s) && s.phase.Loop? && i < |c.rx| && BackUpTo(c, s, i, s.txSeq)
    ensures Reaches(c, s0, t) && Shaped(c, t) && OnlyReceivers(s, t) && BackUpTo(c, t, i + 1, s.txSeq)
  {
    t := s;
    if Reliable(c, i) {
      t := BringBack(c, s0, s, i);
    }
  }

  lemma {:induction false} BringAllBack(c: Cfg, s0: State, s: State, n: nat) returns (t: State)
    requires Reaches(c, s0, s) && Shaped(c, s) && s.phase.Loop? && n <= |c.rx|
    ensures Reaches(c, s0, t) && Shaped(c, t) && OnlyReceivers(s, t) && BackUpTo(c, t, n, s.txSeq)
  {
    if n == 0 {
      t := s;
    } else {
      var u := BringAllBack(c, s0, s, n - 1);
      t := BringOne(c, s0, u, n - 1);
      OnlyTrans(s, u, t);
    }
  }

  lemma OnlyTrans(s: State, u: State, t: State)
    requires OnlyReceivers(s, u) && OnlyReceivers(u, t)
    ensures OnlyReceivers(s, t)
  {
  }

  /** No deadlock: with cr_resume in reach and cr_refill at least cr_burst, as documented, from
      every state of every run some continuation publishes another number. */
  lemma CanAlwaysSend(c: Cfg, s0: State, s: State)
    requires Reaches(c, s0, s) && ResumeInReach(c) && c.t.crBurst <= c.t.crRefill
    ensures exists t :: Reaches(c, s0, t) && |t.link.log| > |s.link.log|
  {
    var t := ToLoop(c, s0, s);
    ReachInv(c, s0, t);
    if t.crAvail < c.t.crBurst {
      t := BringAllBack(c, s0, t, |c.rx|);
      t := QueryReady(c, s0, t);
    }
    ReachInv(c, s0, t);
    t := SendBurst(c, s0, t, 1);
  }
}
