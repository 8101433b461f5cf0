/** One producer and any number of consumers sharing an mcache, every load and every store of
    a metadata field a step of its own.

    The producer follows fd_mcache_publish or fd_mcache_publish_sse, the consumers
    FD_MCACHE_WAIT, FD_MCACHE_WAIT_REG or FD_MCACHE_WAIT_SSE: which fields an access covers
    and in which order the body fields are accessed is left open, so every form is covered.
    Sequence numbers in memory are 64-bit; `num` fields and `expected` are the unbounded
    numbers behind them. */
module Link {
  import opened Words
  import opened LineIndex
  import opened Frags

  /** idx gives the line of a number. */
  datatype Cfg = Cfg(depth: ulong, seq0: ulong, idx: int -> nat)

  ghost predicate SharesLine(c: Cfg, p: int, q: int)
    requires c.depth > 0
  {
    c.idx(p) < c.depth && (c.idx(p) == c.idx(q) <==> (p - q) % c.depth == 0)
  }

  /** What the producer and its consumers need of the line index. */
  ghost predicate CfgOk(c: Cfg) {
    BLOCK <= c.depth <= TWO63 && forall p, q {:trigger SharesLine(c, p, q)} :: SharesLine(c, p, q)
  }

  /** The configuration of an mcache of a given depth and interleave. */
  function MCacheCfg(depth: ulong, lg: nat, seq0: ulong): Cfg
    requires depth >= BLOCK && lg <= LG_BLOCK
  {
    Cfg(depth, seq0, q => Idx(q, depth, lg))
  }

  lemma MCacheCfgOk(depth: ulong, lg: nat, seq0: ulong)
    requires Geometry(depth, lg)
    ensures CfgOk(MCacheCfg(depth, lg, seq0))
  {
    var c := MCacheCfg(depth, lg, seq0);
    forall p, q
      ensures SharesLine(c, p, q)
    {
      IdxCorrect(p, q, depth, lg);
    }
  }

  datatype Writer = Idle | Writing(frag: Frag, done: set<Field>)

  /** Where a consumer is in its wait. foundNum and testNum are history: the numbers behind
      the sequence fields it read first and last. */
  datatype Pc =
    | Away
    | Polling
    | Reading(found: ulong, foundNum: int, copy: Frag, got: set<Field>)
    | Returned(found: ulong, foundNum: int, testNum: int, copy: Frag, got: set<Field>, diff: long)

  datatype Rx = Rx(expected: int, pollMax: ulong, pc: Pc, delivered: map<int, Frag>)

  /** log is history: the fragments published so far, the first of them as number seq0. */
  datatype State = State(lines: seq<Line>, log: seq<Frag>, writer: Writer, rx: seq<Rx>)

  datatype Step =
    | Begin(frag: Frag, w: set<Field>)
    | Write(w: set<Field>)
    | Finish
    | Enter(i: nat, pollMax: ulong)
    | ReadSeq(i: nat, w: set<Field>, junk: Frag)
    | ReadBody(i: nat, w: set<Field>)
    | ReadTest(i: nat)
    | Accept(i: nat)
    | Leave(i: nat, expected: int)

  /** The number the producer publishes next. */
  function Next(c: Cfg, s: State): int {
    c.seq0 + |s.log|
  }

  ghost predicate Shaped(c: Cfg, s: State) {
    CfgOk(c) && |s.lines| == c.depth
  }

  ghost function LineOf(c: Cfg, lines: seq<Line>, q: int): Line
    requires CfgOk(c) && |lines| == c.depth
  {
    assert SharesLine(c, q, q);
    lines[c.idx(q)]
  }

  ghost function SetLine(c: Cfg, lines: seq<Line>, q: int, l: Line): (r: seq<Line>)
    requires CfgOk(c) && |lines| == c.depth
    ensures |r| == c.depth
    ensures forall p :: LineOf(c, r, p) == if (p - q) % c.depth == 0 then l else LineOf(c, lines, p)
  {
    assert SharesLine(c, q, q);
    var r := lines[c.idx(q) := l];
    assert forall p :: LineOf(c, r, p) == if (p - q) % c.depth == 0 then l else LineOf(c, lines, p) by {
      forall p
        ensures LineOf(c, r, p) == if (p - q) % c.depth == 0 then l else LineOf(c, lines, p)
      {
        assert SharesLine(c, p, q);
      }
    }
    r
  }

  predicate IsRx(s: State, i: nat) {
    i < |s.rx|
  }

  ghost predicate Enabled(c: Cfg, s: State, step: Step)
    requires Shaped(c, s)
  {
    match step
    case Begin(frag, w) => s.writer.Idle? && frag.seqNo == Wrap(Next(c, s)) && w <= BODY
    case Write(w) => s.writer.Writing? && w <= BODY
    case Finish => s.writer.Writing? && s.writer.done == BODY
    case Enter(i, pollMax) => IsRx(s, i) && s.rx[i].pc.Away? && pollMax > 0
    case ReadSeq(i, w, _) => IsRx(s, i) && s.rx[i].pc.Polling? && w <= BODY
    case ReadBody(i, _) => IsRx(s, i) && s.rx[i].pc.Reading?
    case ReadTest(i) => IsRx(s, i) && s.rx[i].pc.Reading? && BODY <= s.rx[i].pc.got
    case Accept(i) => IsRx(s, i) && s.rx[i].pc.Returned? && s.rx[i].pollMax > 0 && s.rx[i].pc.diff == 0
                      && LineOf(c, s.lines, s.rx[i].expected).frag.seqNo == Wrap(s.rx[i].expected)
    case Leave(i, _) => IsRx(s, i) && s.rx[i].pc.Returned?
  }

  /** One poll ends: the consumer rereads the sequence field and leaves the loop when both
      reads agree on a number not before the expected one or when its polls are used up. */
  ghost function Tested(r: Rx, l: Line): Rx
    requires r.pc.Reading?
  {
    var diff := SeqDiff(r.pc.found, Wrap(r.expected));
    var polls := Wrap(r.pollMax - 1);
    if (r.pc.found == l.frag.seqNo && diff >= 0) || polls == 0 then
      r.(pollMax := polls, pc := Returned(r.pc.found, r.pc.foundNum, l.num, r.pc.copy, r.pc.got, diff))
    else
      r.(pollMax := polls, pc := Polling)
  }

  ghost function RxStep(c: Cfg, s: State, i: nat, step: Step): Rx
    requires Shaped(c, s) && i < |s.rx| && Enabled(c, s, step)
    requires !step.Begin? && !step.Write? && !step.Finish? && step.i == i
  {
    var r := s.rx[i];
    var l := LineOf(c, s.lines, r.expected);
    match step
    case Enter(_, pollMax) => r.(pollMax := pollMax, pc := Polling)
    case ReadSeq(_, w, junk) => r.(pc := Reading(l.frag.seqNo, l.num, Merge(junk, l.frag, w), w))
    case ReadBody(_, w) => r.(pc := r.pc.(copy := Merge(r.pc.copy, l.frag, w), got := r.pc.got + w))
    case ReadTest(_) => Tested(r, l)
    case Accept(_) => r.(expected := r.expected + 1, pc := Away,
                         delivered := r.delivered[r.expected := r.pc.copy.(seqNo := r.pc.found)])
    case Leave(_, e) => r.(expected := e, pc := Away)
  }

  ghost predicate IsProducerStep(step: Step) {
    step.Begin? || step.Write? || step.Finish?
  }

  ghost function Apply(c: Cfg, s: State, step: Step): State
    requires Shaped(c, s) && Enabled(c, s, step)
  {
    var n := Next(c, s);
    match step
    case Begin(frag, w) =>
      s.(lines := SetLine(c, s.lines, n, BeginLine(LineOf(c, s.lines, n), frag, n, w)), writer := Writing(frag, w))
    case Write(w) =>
      s.(lines := SetLine(c, s.lines, n, WriteLine(LineOf(c, s.lines, n), s.writer.frag, w)),
         writer := s.writer.(done := s.writer.done + w))
    case Finish =>
      s.(lines := SetLine(c, s.lines, n, EndLine(LineOf(c, s.lines, n), n)),
         log := s.log + [s.writer.frag], writer := Idle)
    case _ => s.(rx := s.rx[step.i := RxStep(c, s, step.i, step)])
  }

  /** fd_mcache_new's documented promise: no query succeeds, numbers from seq0 on look not yet
      published, and earlier ones look evicted. */
  ghost predicate Init(c: Cfg, s: State) {
    && Shaped(c, s)
    && s.log == [] && s.writer.Idle?
    && (forall q :: c.seq0 <= q < c.seq0 + c.depth ==> InitialLine(c, LineOf(c, s.lines, q), q))
    && (forall i :: 0 <= i < |s.rx| ==> s.rx[i].pc.Away? && s.rx[i].delivered == map[])
  }

  ghost predicate InitialLine(c: Cfg, l: Line, q: int) {
    q - c.depth < l.num < q && l.frag.seqNo == Wrap(l.num)
  }

  ghost predicate Moves(c: Cfg, s: State, t: State) {
    Shaped(c, s) && exists step :: Enabled(c, s, step) && t == Apply(c, s, step)
  }

  ghost predicate IsRun(c: Cfg, run: seq<State>) {
    run != [] && Init(c, run[0]) && forall k :: 0 <= k < |run| - 1 ==> Moves(c, run[k], run[k + 1])
  }

  // ----- what the producer keeps

  /** The line of number q, the next number to be stored there. */
  ghost predicate LineOk(c: Cfg, s: State, q: int)
    requires Shaped(c, s) && Next(c, s) <= q < Next(c, s) + c.depth
  {
    var l := LineOf(c, s.lines, q);
    && l.frag.seqNo == Wrap(l.num)
    && if s.writer.Writing? && q == Next(c, s) then
         l.num == q - 1 && AgreeOn(l.frag, s.writer.frag, s.writer.done)
       else if q - c.depth >= c.seq0 then
         l.num == q - c.depth && l.frag == s.log[q - c.depth - c.seq0]
       else
         q - c.depth < l.num < q
  }

  ghost predicate Published(c: Cfg, s: State, q: int, f: Frag) {
    c.seq0 <= q < Next(c, s) && s.log[q - c.seq0] == f
  }

  ghost predicate ProducerInv(c: Cfg, s: State) {
    && Shaped(c, s)
    && (forall k :: 0 <= k < |s.log| ==> s.log[k].seqNo == Wrap(c.seq0 + k))
    && (s.writer.Writing? ==> s.writer.frag.seqNo == Wrap(Next(c, s)) && s.writer.done <= BODY)
    && (forall q {:trigger LineOk(c, s, q)} :: Next(c, s) <= q < Next(c, s) + c.depth ==> LineOk(c, s, q))
  }

  lemma NotCongruent(p: int, q: int, d: int)
    requires d > 0 && p != q && -d < p - q < d
    ensures (p - q) % d != 0
  {
    var x := p - q;
    if x < 0 {
      DivModUnique(x, d, -1, x + d);
    } else {
      DivModUnique(x, d, 0, x);
    }
  }

  lemma Congruent(p: int, q: int, d: int)
    requires d > 0 && (p == q || p == q + d || p == q - d)
    ensures (p - q) % d == 0
  {
    DivModUnique(p - q, d, if p == q then 0 else if p == q + d then 1 else -1, 0);
  }

  lemma InitInv(c: Cfg, s: State)
    requires Init(c, s)
    ensures ProducerInv(c, s)
  {
    forall q | Next(c, s) <= q < Next(c, s) + c.depth
      ensures LineOk(c, s, q)
    {
      assert InitialLine(c, LineOf(c, s.lines, q), q);
    }
  }

  lemma BeginKeeps(c: Cfg, s: State, frag: Frag, w: set<Field>)
    requires ProducerInv(c, s) && Enabled(c, s, Begin(frag, w))
    ensures ProducerInv(c, Apply(c, s, Begin(frag, w)))
  {
    var n := Next(c, s);
    var t := Apply(c, s, Begin(frag, w));
    forall q | n <= q < n + c.depth
      ensures LineOk(c, t, q)
    {
      assert LineOk(c, s, q);
      if q == n {
        Congruent(q, n, c.depth);
      } else {
        NotCongruent(q, n, c.depth);
      }
    }
  }

  lemma WriteKeeps(c: Cfg, s: State, w: set<Field>)
    requires ProducerInv(c, s) && Enabled(c, s, Write(w))
    ensures ProducerInv(c, Apply(c, s, Write(w)))
  {
    var n := Next(c, s);
    var t := Apply(c, s, Write(w));
    forall q | n <= q < n + c.depth
      ensures LineOk(c, t, q)
    {
      assert LineOk(c, s, q);
      if q == n {
        Congruent(q, n, c.depth);
      } else {
        NotCongruent(q, n, c.depth);
      }
    }
  }

  lemma FinishKeeps(c: Cfg, s: State)
    requires ProducerInv(c, s) && Enabled(c, s, Finish)
    ensures ProducerInv(c, Apply(c, s, Finish))
  {
    var n := Next(c, s);
    var t := Apply(c, s, Finish);
    forall q | n + 1 <= q < n + 1 + c.depth
      ensures LineOk(c, t, q)
    {
      if q == n + c.depth {
        FinishedLine(c, s, q);
      } else {
        OtherLine(c, s, q);
      }
    }
  }

  /** The line just finished is the one of the number a depth later. */
  lemma FinishedLine(c: Cfg, s: State, q: int)
    requires ProducerInv(c, s) && Enabled(c, s, Finish) && q == Next(c, s) + c.depth
    ensures LineOk(c, Apply(c, s, Finish), q)
  {
    assert LineOk(c, s, Next(c, s));
    Congruent(q, Next(c, s), c.depth);
    AgreeOnAll(LineOf(c, Apply(c, s, Finish).lines, q).frag, s.writer.frag);
  }

  lemma OtherLine(c: Cfg, s: State, q: int)
    requires ProducerInv(c, s) && Enabled(c, s, Finish) && Next(c, s) < q < Next(c, s) + c.depth
    ensures LineOk(c, Apply(c, s, Finish), q)
  {
    assert LineOk(c, s, q);
    NotCongruent(q, Next(c, s), c.depth);
  }

  lemma ProducerKeeps(c: Cfg, s: State, step: Step)
    requires ProducerInv(c, s) && Enabled(c, s, step)
    ensures ProducerInv(c, Apply(c, s, step))
  {
    match step {
      case Begin(frag, w) => BeginKeeps(c, s, frag, w);
      case Write(w) => WriteKeeps(c, s, w);
      case Finish => FinishKeeps(c, s);
      case _ =>
        var t := Apply(c, s, step);
        forall q | Next(c, t) <= q < Next(c, t) + c.depth
          ensures LineOk(c, t, q)
        {
          assert LineOk(c, s, q);
        }
    }
  }

  // ----- what a line tells about the number a consumer waits for

  /** The next number to be stored on the line of e, m depths after e. */
  lemma HomeOf(c: Cfg, s: State, e: int) returns (q: int, m: int)
    requires ProducerInv(c, s)
    ensures Next(c, s) <= q < Next(c, s) + c.depth
    ensures LineOf(c, s.lines, q) == LineOf(c, s.lines, e) && LineOk(c, s, q)
    ensures q == e + m * c.depth
    ensures e >= Next(c, s) ==> e >= q
    ensures m <= 0 ==> e >= q
    ensures m == 1 ==> e == q - c.depth
    ensures m >= 2 ==> e + 2 * c.depth <= q
  {
    var n := Next(c, s);
    var d: int := c.depth;
    q := n + (e - n) % d;
    m := -((e - n) / d);
    assert q == e + m * d by {
      assert e - n == ((e - n) / d) * d + (e - n) % d;
    }
    ModShift(0, d, m);
    assert SharesLine(c, q, e);
    MulGrows(m, d);
    MulGrows(m - 1, d);
  }

  lemma LineFacts(c: Cfg, s: State, e: int)
    requires ProducerInv(c, s)
    ensures var l, n := LineOf(c, s.lines, e), Next(c, s);
            && l.frag.seqNo == Wrap(l.num)
            && n - c.depth <= l.num < n + c.depth
            && (l.num == e ==> Published(c, s, e, l.frag))
            && (l.num > e && (e >= c.seq0 || |s.log| >= c.depth) ==> e + c.depth - 1 <= l.num < n && e + c.depth <= n)
            && (e >= n ==> l.num < e)
            && (e < c.seq0 ==> l.num > e)
            && (e < c.seq0 - c.depth ==> l.num >= e + c.depth - 1)
            && (c.seq0 <= e < n && (e > n - c.depth || (e == n - c.depth && s.writer.Idle?)) ==> l.num == e)
  {
    var q, m := HomeOf(c, s, e);
  }

  // ----- what a consumer keeps

  /** The number a consumer saw is not ahead of what it waits for unless that was evicted. Waiting
      for a number before the first one, it only ever sees numbers ahead. */
  ghost predicate Seen(c: Cfg, s: State, e: int, n: int) {
    && (n == e ==> e < Next(c, s))
    && (n > e >= c.seq0 ==> e + c.depth - 1 <= n < Next(c, s) && e + c.depth <= Next(c, s))
    && (e < c.seq0 ==> n > e)
    && (e < c.seq0 - c.depth ==> n >= e + c.depth - 1)
  }

  /** What a consumer copied is what was published as number e. */
  ghost predicate Faithful(c: Cfg, s: State, e: int, copy: Frag, got: set<Field>) {
    c.seq0 <= e < Next(c, s) && AgreeOn(copy, s.log[e - c.seq0], got)
  }

  ghost predicate RxInv(c: Cfg, s: State, r: Rx)
    requires Shaped(c, s)
  {
    var e := r.expected;
    && (forall q :: q in r.delivered ==> Published(c, s, q, r.delivered[q]))
    && match r.pc
       case Away => true
       case Polling => true
       case Reading(found, foundNum, copy, got) =>
         var now := LineOf(c, s.lines, e).num;
         && found == Wrap(foundNum) && foundNum <= now && Seen(c, s, e, foundNum)
         && (foundNum == now == e ==> Faithful(c, s, e, copy, got))
       case Returned(found, foundNum, testNum, copy, got, diff) =>
         && found == Wrap(foundNum) && diff == SeqDiff(found, Wrap(e)) && BODY <= got
         && foundNum <= testNum && Seen(c, s, e, foundNum) && Seen(c, s, e, testNum)
         && (r.pollMax > 0 ==> found == Wrap(testNum) && diff >= 0)
         && (foundNum == testNum == e ==> Faithful(c, s, e, copy, got))
  }

  /** A producer step only moves a line's number forward, and only extends the log. */
  lemma ProducerProgress(c: Cfg, s: State, step: Step, e: int)
    requires ProducerInv(c, s) && Enabled(c, s, step) && IsProducerStep(step)
    ensures var t := Apply(c, s, step);
            LineOf(c, s.lines, e).num <= LineOf(c, t.lines, e).num && s.log <= t.log && s.rx == t.rx
  {
    var n := Next(c, s);
    assert LineOk(c, s, n);
    if (e - n) % c.depth == 0 {
      assert SharesLine(c, e, n);
    }
  }

  lemma RxInvProducer(c: Cfg, s: State, step: Step, r: Rx)
    requires ProducerInv(c, s) && Enabled(c, s, step) && IsProducerStep(step) && RxInv(c, s, r)
    ensures RxInv(c, Apply(c, s, step), r)
  {
    ProducerProgress(c, s, step, r.expected);
  }

  /** A consumer's own step keeps its invariant, provided what it accepts is what it expects. */
  lemma RxInvOwn(c: Cfg, s: State, i: nat, step: Step)
    requires ProducerInv(c, s) && Enabled(c, s, step) && !IsProducerStep(step) && step.i == i
    requires i < |s.rx| && RxInv(c, s, s.rx[i])
    requires step.Accept? ==> s.rx[i].pc.foundNum == s.rx[i].pc.testNum == s.rx[i].expected
    ensures RxInv(c, Apply(c, s, step), Apply(c, s, step).rx[i])
  {
    var r := s.rx[i];
    LineFacts(c, s, r.expected);
    match step {
      case Accept(_) =>
        assert Published(c, s, r.expected, r.pc.copy.(seqNo := r.pc.found)) by {
          AgreeOnAll(r.pc.copy.(seqNo := r.pc.found), s.log[r.expected - c.seq0]);
        }
      case _ =>
    }
  }

  // ----- whole runs

  ghost predicate InWindow(n: int, e: int) {
    -TWO63 <= n - e < TWO63
  }

  /** The line a consumer looks at is within 2^63 numbers of the one it expects. */
  ghost predicate Near(c: Cfg, s: State, r: Rx)
    requires Shaped(c, s)
  {
    InWindow(LineOf(c, s.lines, r.expected).num, r.expected)
  }

  ghost predicate Windowed(r: Rx) {
    match r.pc
    case Reading(_, foundNum, _, _) => InWindow(foundNum, r.expected)
    case Returned(_, foundNum, testNum, _, _, _) => InWindow(foundNum, r.expected) && InWindow(testNum, r.expected)
    case _ => true
  }

  /** A consumer that never falls 2^63 - depth behind the producer, or gets as far ahead of
      it, is near at all times. */
  lemma GapIsNear(c: Cfg, s: State, r: Rx)
    requires ProducerInv(c, s)
    requires -TWO63 + c.depth <= Next(c, s) - r.expected <= TWO63 - c.depth
    ensures Near(c, s, r)
  {
    LineFacts(c, s, r.expected);
  }

  /** When a wait does not time out: if it reports no difference, the copy is what was
      published as the expected number, and if it reports a difference, the expected number
      is not in the mcache. A consumer that expects a number before the first one always gets a
      difference. The difference is at least depth - 1 but for the depth numbers before the first
      one, and from the first one on the number found had already been published. */
  lemma WaitSound(c: Cfg, s: State, r: Rx)
    requires ProducerInv(c, s) && RxInv(c, s, r) && Windowed(r)
    requires r.pc.Returned? && r.pollMax > 0
    ensures r.pc.diff == 0 ==> r.pc.foundNum == r.pc.testNum == r.expected
                               && Faithful(c, s, r.expected, r.pc.copy, r.pc.got)
    ensures r.expected < c.seq0 ==> r.pc.diff > 0
    ensures r.expected < c.seq0 - c.depth ==> r.pc.diff >= c.depth - 1
    ensures r.expected >= c.seq0 && r.pc.diff != 0 ==> r.pc.diff >= c.depth - 1 && r.expected + c.depth <= Next(c, s)
    ensures r.expected >= c.seq0 && r.pc.diff != 0 ==>
              exists f :: Published(c, s, r.expected + r.pc.diff, f) && f.seqNo == r.pc.found
  {
    SeqDiffExact(r.pc.foundNum, r.expected);
    if r.pc.diff != 0 {
      if r.expected >= c.seq0 {
        assert Published(c, s, r.pc.foundNum, s.log[r.pc.foundNum - c.seq0]);
      }
    } else {
      WrapInjective(r.pc.testNum, r.expected);
    }
  }

  ghost predicate RxGood(c: Cfg, s: State, i: nat) {
    ProducerInv(c, s) && i < |s.rx| && RxInv(c, s, s.rx[i]) && Windowed(s.rx[i])
  }

  lemma RxKeeps(c: Cfg, s: State, i: nat, step: Step)
    requires RxGood(c, s, i) && Enabled(c, s, step) && Near(c, s, s.rx[i])
    ensures RxGood(c, Apply(c, s, step), i)
  {
    ProducerKeeps(c, s, step);
    if IsProducerStep(step) {
      RxInvProducer(c, s, step, s.rx[i]);
    } else if step.i == i {
      OwnKeeps(c, s, i, step);
    }
  }

  lemma OwnKeeps(c: Cfg, s: State, i: nat, step: Step)
    requires RxGood(c, s, i) && Enabled(c, s, step) && Near(c, s, s.rx[i]) && !IsProducerStep(step) && step.i == i
    ensures RxInv(c, Apply(c, s, step), Apply(c, s, step).rx[i]) && Windowed(Apply(c, s, step).rx[i])
  {
    if step.Accept? {
      WaitSound(c, s, s.rx[i]);
    }
    RxInvOwn(c, s, i, step);
  }

  ghost predicate StaysNear(c: Cfg, run: seq<State>, i: nat) {
    forall j :: 0 <= j < |run| ==> Shaped(c, run[j]) && i < |run[j].rx| && Near(c, run[j], run[j].rx[i])
  }

  /** In every run, and for every interleaving, each consumer that stays near the producer
      keeps the invariant behind WaitSound at all times. */
  lemma {:induction false} RunGood(c: Cfg, run: seq<State>, i: nat, k: nat)
    requires IsRun(c, run) && k < |run| && i < |run[0].rx|
    requires StaysNear(c, run, i)
    ensures RxGood(c, run[k], i)
  {
    if k == 0 {
      InitInv(c, run[0]);
    } else {
      RunGood(c, run, i, k - 1);
      var s := run[k - 1];
      assert Moves(c, s, run[k - 1 + 1]);
      var step :| Enabled(c, s, step) && run[k] == Apply(c, s, step);
      RxKeeps(c, s, i, step);
    }
  }

  /** What a consumer was given was published, and a wait of its that did not time out copied
      exactly what was published as the number it expects, or reports a difference rightly. */
  ghost predicate WaitIsSound(c: Cfg, s: State, r: Rx)
    requires Shaped(c, s)
  {
    && (forall q :: q in r.delivered ==> Published(c, s, q, r.delivered[q]))
    && (r.pc.Returned? && r.pollMax > 0 ==>
          if r.pc.diff == 0 then Faithful(c, s, r.expected, r.pc.copy, r.pc.got) && BODY <= r.pc.got
          else if r.expected < c.seq0 then r.pc.diff > 0 && (r.expected < c.seq0 - c.depth ==> r.pc.diff >= c.depth - 1)
          else r.pc.diff >= c.depth - 1 && r.expected + c.depth <= Next(c, s)
               && exists f :: Published(c, s, r.expected + r.pc.diff, f) && f.seqNo == r.pc.found)
  }

  lemma GoodIsSound(c: Cfg, s: State, i: nat)
    requires RxGood(c, s, i)
    ensures WaitIsSound(c, s, s.rx[i])
  {
    var r := s.rx[i];
    if r.pc.Returned? && r.pollMax > 0 {
      WaitSound(c, s, r);
    }
  }

  /** No torn reads, sound overrun reports and faithful deliveries, over whole runs. A consumer
      that expects a number before the first one is told that it is behind, always. */
  lemma RunWaitSound(c: Cfg, run: seq<State>, i: nat, k: nat)
    requires IsRun(c, run) && k < |run| && i < |run[0].rx|
    requires StaysNear(c, run, i)
    ensures WaitIsSound(c, run[k], run[k].rx[i])
    ensures var r := run[k].rx[i];
            r.expected < c.seq0 && r.pc.Returned? && r.pollMax > 0 ==> r.pc.diff > 0
  {
    RunGood(c, run, i, k);
    GoodIsSound(c, run[k], i);
    if run[k].rx[i].pc.Returned? && run[k].rx[i].pollMax > 0 {
      WaitSound(c, run[k], run[k].rx[i]);
    }
  }

  // ----- fd_mcache_query

  ghost function QueryOf(c: Cfg, s: State, q: int): ulong
    requires Shaped(c, s)
  {
    LineOf(c, s.lines, q).frag.seqNo
  }

  lemma QueryNum(c: Cfg, s: State, q: int)
    requires ProducerInv(c, s)
    ensures var n, oldest := Next(c, s), Next(c, s) - c.depth + (if s.writer.Writing? then 1 else 0);
            var num := LineOf(c, s.lines, q).num;
            && QueryOf(c, s, q) == Wrap(num) && n - c.depth <= num < n + c.depth
            && (num == q <==> oldest <= q < n && c.seq0 <= q)
            && (num < q <==> q >= n)
            && (num > q <==> q < oldest || q < c.seq0)
  {
    LineFacts(c, s, q);
    var home, m := HomeOf(c, s, q);
  }

  /** The mcache is a sliding window: between publishes a query for q returns q exactly when q
      is among the last `depth` published, something earlier when q is not yet published and
      something later when q was evicted or comes before the first number. While a publish is
      under way exactly the number being evicted is missing. */
  lemma QueryWindow(c: Cfg, s: State, q: int)
    requires ProducerInv(c, s)
    requires -TWO63 + c.depth <= Next(c, s) - q <= TWO63 - c.depth
    ensures var n, oldest := Next(c, s), Next(c, s) - c.depth + (if s.writer.Writing? then 1 else 0);
            var d := SeqDiff(QueryOf(c, s, q), Wrap(q));
            && (d == 0 <==> QueryOf(c, s, q) == Wrap(q))
            && (d == 0 <==> oldest <= q < n && c.seq0 <= q)
            && (d < 0 <==> q >= n)
            && (d > 0 <==> q < oldest || q < c.seq0)
  {
    QueryNum(c, s, q);
    SeqDiffExact(LineOf(c, s.lines, q).num, q);
  }

  /** What the producer keeps holds over whole runs, whatever the consumers do. */
  lemma {:induction false} RunProducerInv(c: Cfg, run: seq<State>, k: nat)
    requires IsRun(c, run) && k < |run|
    ensures ProducerInv(c, run[k])
  {
    if k == 0 {
      InitInv(c, run[0]);
    } else {
      RunProducerInv(c, run, k - 1);
      assert Moves(c, run[k - 1], run[k - 1 + 1]);
      var step :| Enabled(c, run[k - 1], step) && run[k] == Apply(c, run[k - 1], step);
      ProducerKeeps(c, run[k - 1], step);
    }
  }

  /** So in every state of every run a query finds q exactly when it is among the last depth
      published and not being evicted. */
  lemma RunQueryWindow(c: Cfg, run: seq<State>, k: nat, q: int)
    requires IsRun(c, run) && k < |run|
    requires -TWO63 + c.depth <= c.seq0 + |run[k].log| - q <= TWO63 - c.depth
    ensures Shaped(c, run[k])
    ensures var s := run[k];
            var n, oldest := Next(c, s), Next(c, s) - c.depth + (if s.writer.Writing? then 1 else 0);
            var d := SeqDiff(QueryOf(c, s, q), Wrap(q));
            && (d == 0 <==> oldest <= q < n && c.seq0 <= q)
            && (d < 0 <==> q >= n)
            && (d > 0 <==> q < oldest || q < c.seq0)
  {
    RunProducerInv(c, run, k);
    QueryWindow(c, run[k], q);
  }

  // ----- what one poll does

  /** Consumer i polls once while the producer rests: it reads the sequence field with the body
      fields in w, then the others, then the sequence field again. */
  ghost function Poll(c: Cfg, s: State, i: nat, w: set<Field>, junk: Frag): State
    requires Shaped(c, s) && i < |s.rx| && s.rx[i].pc.Polling? && w <= BODY
  {
    var a := Apply(c, s, ReadSeq(i, w, junk));
    var b := Apply(c, a, ReadBody(i, BODY - w));
    assert w + (BODY - w) == BODY;
    Apply(c, b, ReadTest(i))
  }

  /** q is published, was not evicted and is not being evicted. */
  ghost predicate Present(c: Cfg, s: State, q: int) {
    c.seq0 <= q && Next(c, s) - c.depth + (if s.writer.Writing? then 1 else 0) <= q < Next(c, s)
  }

  lemma PollIs(c: Cfg, s: State, i: nat, w: set<Field>, junk: Frag) returns (copy: Frag)
    requires ProducerInv(c, s) && i < |s.rx| && s.rx[i].pc.Polling? && w <= BODY
    ensures var t, l := Poll(c, s, i, w, junk), LineOf(c, s.lines, s.rx[i].expected);
            var d, polls := SeqDiff(l.frag.seqNo, Wrap(s.rx[i].expected)), Wrap(s.rx[i].pollMax - 1);
            && AgreeOn(copy, l.frag, BODY) && t == s.(rx := s.rx[i := t.rx[i]])
            && t.rx[i] == s.rx[i].(pollMax := polls,
                                   pc := if d >= 0 || polls == 0 then
                                           Returned(l.frag.seqNo, l.num, l.num, copy, BODY, d)
                                         else Polling)
  {
    var l := LineOf(c, s.lines, s.rx[i].expected);
    copy := Merge(Merge(junk, l.frag, w), l.frag, BODY - w);
    assert w + (BODY - w) == BODY;
  }

  /** A poll for a number that is present ends the wait with no difference and exactly what was
      published, one poll used. */
  lemma PollPresent(c: Cfg, s: State, i: nat, w: set<Field>, junk: Frag)
    requires ProducerInv(c, s) && i < |s.rx| && s.rx[i].pc.Polling? && s.rx[i].pollMax > 1 && w <= BODY
    requires Present(c, s, s.rx[i].expected)
    ensures var e, t := s.rx[i].expected, Poll(c, s, i, w, junk);
            && t == s.(rx := s.rx[i := t.rx[i]])
            && t.rx[i].expected == e && t.rx[i].pollMax == s.rx[i].pollMax - 1 && t.rx[i].delivered == s.rx[i].delivered
            && t.rx[i].pc.Returned? && t.rx[i].pc.diff == 0 && t.rx[i].pc.found == Wrap(e)
            && AgreeOn(t.rx[i].pc.copy, s.log[e - c.seq0], BODY)
  {
    var e := s.rx[i].expected;
    LineFacts(c, s, e);
    var copy := PollIs(c, s, i, w, junk);
  }

  /** A poll for a number that is being evicted, was evicted or comes before the first one ends the
      wait with a positive difference, as long as differences are exact. */
  lemma PollEvicted(c: Cfg, s: State, i: nat, w: set<Field>, junk: Frag)
    requires ProducerInv(c, s) && i < |s.rx| && s.rx[i].pc.Polling? && s.rx[i].pollMax > 1 && w <= BODY
    requires s.rx[i].expected < Next(c, s) && !Present(c, s, s.rx[i].expected) && Near(c, s, s.rx[i])
    ensures var t := Poll(c, s, i, w, junk);
            && t.rx[i].expected == s.rx[i].expected && t.rx[i].pollMax == s.rx[i].pollMax - 1
            && t.rx[i].pc.Returned? && t.rx[i].pc.diff > 0
  {
    var e := s.rx[i].expected;
    QueryNum(c, s, e);
    SeqDiffExact(LineOf(c, s.lines, e).num, e);
    var copy := PollIs(c, s, i, w, junk);
  }

  /** A poll for a number not published yet goes on polling until the polls are used up. */
  lemma PollUnpublished(c: Cfg, s: State, i: nat, w: set<Field>, junk: Frag)
    requires ProducerInv(c, s) && i < |s.rx| && s.rx[i].pc.Polling? && s.rx[i].pollMax > 0 && w <= BODY
    requires s.rx[i].expected >= Next(c, s) && Near(c, s, s.rx[i])
    ensures var t := Poll(c, s, i, w, junk);
            && t == s.(rx := s.rx[i := t.rx[i]])
            && t.rx[i].expected == s.rx[i].expected && t.rx[i].pollMax == s.rx[i].pollMax - 1
            && (s.rx[i].pollMax > 1 ==> t.rx[i].pc.Polling?)
            && (s.rx[i].pollMax == 1 ==> t.rx[i].pc.Returned? && t.rx[i].pc.diff < 0)
  {
    var e := s.rx[i].expected;
    QueryNum(c, s, e);
    SeqDiffExact(LineOf(c, s.lines, e).num, e);
    var copy := PollIs(c, s, i, w, junk);
  }

  /** The state after up to n polls of consumer i, the producer at rest. */
  ghost function Polls(c: Cfg, s: State, i: nat, n: nat): (t: State)
    requires Shaped(c, s) && i < |s.rx|
    ensures Shaped(c, t) && |t.rx| == |s.rx|
  {
    if n == 0 then s
    else
      var t := Polls(c, s, i, n - 1);
      if t.rx[i].pc.Polling? then Poll(c, t, i, BODY, t.lines[0].frag) else t
  }

  /** Waiting for a number that is not published times out after exactly poll_max polls. */
  lemma {:induction false} TimesOut(c: Cfg, s: State, i: nat, n: nat)
    requires ProducerInv(c, s) && i < |s.rx| && s.rx[i].pc.Polling? && n <= s.rx[i].pollMax
    requires s.rx[i].expected >= Next(c, s) && Near(c, s, s.rx[i])
    ensures var t := Polls(c, s, i, n);
            && t == s.(rx := s.rx[i := t.rx[i]])
            && t.rx[i].expected == s.rx[i].expected && t.rx[i].pollMax == s.rx[i].pollMax - n
            && (n < s.rx[i].pollMax ==> t.rx[i].pc.Polling?)
            && (0 < n == s.rx[i].pollMax ==> t.rx[i].pc.Returned? && t.rx[i].pc.diff < 0)
  {
    if n > 0 {
      TimesOut(c, s, i, n - 1);
      var t := Polls(c, s, i, n - 1);
      SameProducer(c, s, t, i);
      PollUnpublished(c, t, i, BODY, t.lines[0].frag);
    }
  }

  lemma SameProducer(c: Cfg, s: State, t: State, i: nat)
    requires ProducerInv(c, s) && i < |s.rx| && |t.rx| == |s.rx| && t == s.(rx := s.rx[i := t.rx[i]])
    ensures ProducerInv(c, t)
    ensures t.rx[i].expected == s.rx[i].expected && Near(c, s, s.rx[i]) ==> Near(c, t, t.rx[i])
  {
    forall q | Next(c, t) <= q < Next(c, t) + c.depth ensures LineOk(c, t, q) {
      assert LineOk(c, s, q);
    }
  }

  // ----- what the start promises a consumer

  /** Consumer i was told that it is behind by a wait that did not time out. */
  ghost predicate Reports(s: State, i: nat, e: int) {
    i < |s.rx| && s.rx[i].expected == e && s.rx[i].pc.Returned? && s.rx[i].pollMax > 0 && s.rx[i].pc.diff > 0
  }

  /** Whatever the run, a consumer told that it is behind number e is behind by depth - 1 or more. */
  ghost predicate BoundPromised(c: Cfg, e: int) {
    forall run: seq<State>, i: nat, k: nat ::
      IsRun(c, run) && StaysNear(c, run, i) && k < |run| && Reports(run[k], i, e) ==>
      run[k].rx[i].pc.diff >= c.depth - 1
  }

  /** Whatever the run, the number that a consumer told that it is behind number e found had been
      published. */
  ghost predicate PublicationPromised(c: Cfg, e: int) {
    forall run: seq<State>, i: nat, k: nat ::
      IsRun(c, run) && StaysNear(c, run, i) && k < |run| && Reports(run[k], i, e) ==>
      exists f :: Published(c, run[k], e + run[k].rx[i].pc.diff, f) && f.seqNo == run[k].rx[i].pc.found
  }

  lemma Chain(c: Cfg, run: seq<State>, step: Step) returns (longer: seq<State>)
    requires IsRun(c, run) && Shaped(c, run[|run| - 1]) && Enabled(c, run[|run| - 1], step)
    ensures longer == run + [Apply(c, run[|run| - 1], step)] && IsRun(c, longer)
  {
    longer := run + [Apply(c, run[|run| - 1], step)];
    forall k | 0 <= k < |longer| - 1 ensures Moves(c, longer[k], longer[k + 1]) {
      if k < |run| - 1 {
        assert Moves(c, run[k], run[k + 1]);
      }
    }
  }

  /** From any start, a consumer that expects a number before the first one can be told that it is
      behind by what its line shows, before anything is published. */
  lemma EarlyReport(c: Cfg, s: State, i: nat) returns (run: seq<State>)
    requires Init(c, s) && i < |s.rx| && s.rx[i].expected < c.seq0 && Near(c, s, s.rx[i])
    ensures IsRun(c, run) && run[0] == s && StaysNear(c, run, i)
    ensures var t := run[|run| - 1];
            && t.log == [] && Reports(t, i, s.rx[i].expected)
            && t.rx[i].pc.diff == LineOf(c, s.lines, s.rx[i].expected).num - s.rx[i].expected
  {
    var e := s.rx[i].expected;
    var l := LineOf(c, s.lines, e);
    InitInv(c, s);
    LineFacts(c, s, e);
    SeqDiffExact(l.num, e);
    run := Chain(c, [s], Enter(i, 2));
    run := Chain(c, run, ReadSeq(i, BODY, l.frag));
    assert run[2].rx[i].pc.found == Wrap(l.num);
    run := Chain(c, run, ReadTest(i));
  }

  function StartFrag(c: Cfg, q: int): Frag {
    Frag(Wrap(q - c.depth + 1), 0, 0, 0, 0, 0, 0)
  }

  /** A start in which every line shows the earliest number it may. */
  lemma {:induction false} EarliestLines(c: Cfg, k: nat) returns (lines: seq<Line>)
    requires CfgOk(c) && k <= c.depth
    ensures |lines| == c.depth
    ensures forall q :: c.seq0 <= q < c.seq0 + k ==> LineOf(c, lines, q) == Line(StartFrag(c, q), q - c.depth + 1)
  {
    if k == 0 {
      lines := seq(c.depth, _ => Line(StartFrag(c, 0), 0));
    } else {
      var before := EarliestLines(c, k - 1);
      var last := c.seq0 + k - 1;
      lines := SetLine(c, before, last, Line(StartFrag(c, last), last - c.depth + 1));
      forall q | c.seq0 <= q < c.seq0 + k
        ensures LineOf(c, lines, q) == Line(StartFrag(c, q), q - c.depth + 1)
      {
        if q < last {
          NotCongruent(q, last, c.depth);
        } else {
          Congruent(q, last, c.depth);
        }
      }
    }
  }

  /** Such a start with one consumer, which expects e. */
  lemma EarlyStart(c: Cfg, e: int) returns (s: State)
    requires CfgOk(c) && e < c.seq0 && (c.seq0 - e < TWO63 || c.seq0 - e <= c.depth)
    ensures Init(c, s) && |s.rx| == 1 && s.rx[0].expected == e && Near(c, s, s.rx[0])
    ensures e >= c.seq0 - c.depth ==> LineOf(c, s.lines, e).num == e + 1
  {
    var lines := EarliestLines(c, c.depth);
    s := State(lines, [], Idle, [Rx(e, 1, Away, map[])]);
    forall p | c.seq0 <= p < c.seq0 + c.depth ensures InitialLine(c, LineOf(c, lines, p), p) {
    }
    InitInv(c, s);
    LineFacts(c, s, e);
    var q, m := HomeOf(c, s, e);
  }

  /** The bound depth - 1 is promised for exactly the numbers that are not among the depth
      numbers before the first one. */
  lemma BoundExact(c: Cfg, e: int)
    requires CfgOk(c)
    ensures BoundPromised(c, e) <==> !(c.seq0 - c.depth <= e < c.seq0)
  {
    if c.seq0 - c.depth <= e < c.seq0 {
      var s := EarlyStart(c, e);
      var run := EarlyReport(c, s, 0);
      assert Reports(run[|run| - 1], 0, e);
    } else {
      forall run: seq<State>, i: nat, k: nat
        | IsRun(c, run) && StaysNear(c, run, i) && k < |run| && Reports(run[k], i, e)
        ensures run[k].rx[i].pc.diff >= c.depth - 1
      {
        RunWaitSound(c, run, i, k);
      }
    }
  }

  /** That the number found had been published is promised for exactly the numbers from the first
      one on. Numbers 2^63 or more before it have no exact differences to begin with. */
  lemma PublicationExact(c: Cfg, e: int)
    requires CfgOk(c) && c.seq0 - e < TWO63
    ensures PublicationPromised(c, e) <==> e >= c.seq0
  {
    if e < c.seq0 {
      var s := EarlyStart(c, e);
      var run := EarlyReport(c, s, 0);
      assert Reports(run[|run| - 1], 0, e);
    } else {
      forall run: seq<State>, i: nat, k: nat
        | IsRun(c, run) && StaysNear(c, run, i) && k < |run| && Reports(run[k], i, e)
        ensures exists f :: Published(c, run[k], e + run[k].rx[i].pc.diff, f) && f.seqNo == run[k].rx[i].pc.found
      {
        RunWaitSound(c, run, i, k);
      }
    }
  }
}
