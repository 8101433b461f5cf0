/** FD_ONCE: a block run once by all the threads of a process, as steps of any number of threads
    over one state word. */
module Onces {

  /** Where a thread is. Tested holds the word it read; Finished is after the block and before
      the word is set to 1. */
  datatype Pc = Arrived | Tested(tmp: int) | Trying | Body | Finished | Passed

  /** The word, the threads, and how often the block was begun and ended. */
  datatype State = State(word: int, pcs: seq<Pc>, begun: nat, ended: nat)

  predicate Init(s: State) {
    s.word == 0 && s.begun == 0 && s.ended == 0 && forall i :: 0 <= i < |s.pcs| ==> s.pcs[i] == Arrived
  }

  function At(s: State, i: nat, pc: Pc): State
    requires i < |s.pcs|
  {
    s.(pcs := s.pcs[i := pc])
  }

  /** The next step of thread i; a thread that passed stays where it is. */
  function Step(s: State, i: nat): State
    requires i < |s.pcs|
  {
    match s.pcs[i]
    case Arrived => At(s, i, Tested(s.word))
    case Tested(tmp) => At(s, i, if tmp > 0 then Passed else if tmp == 0 then Trying else Arrived)
    case Trying => if s.word == 0 then At(s, i, Body).(word := -1, begun := s.begun + 1) else At(s, i, Arrived)
    case Body => At(s, i, Finished).(ended := s.ended + 1)
    case Finished => At(s, i, Passed).(word := 1)
    case Passed => s
  }

  ghost predicate Moves(s: State, t: State) {
    exists i :: 0 <= i < |s.pcs| && t == Step(s, i)
  }

  ghost predicate IsRun(run: seq<State>) {
    run != [] && Init(run[0]) && forall k :: 0 <= k < |run| - 1 ==> Moves(run[k], run[k + 1])
  }

  predicate Inside(pc: Pc) {
    pc.Body? || pc.Finished?
  }

  /** Thread i, if any, is the only one in the block. */
  predicate OnlyInside(s: State, i: int) {
    forall j :: 0 <= j < |s.pcs| && Inside(s.pcs[j]) ==> j == i
  }

  predicate Holder(s: State, i: int)
    requires 0 <= i < |s.pcs|
  {
    OnlyInside(s, i) && Inside(s.pcs[i]) && s.ended == if s.pcs[i].Finished? then 1 else 0
  }

  predicate NonePassed(s: State) {
    forall j :: 0 <= j < |s.pcs| ==> !s.pcs[j].Passed? && !(s.pcs[j].Tested? && s.pcs[j].tmp > 0)
  }

  ghost predicate Inv(s: State) {
    if s.word == 0 then s.begun == 0 && s.ended == 0 && OnlyInside(s, -1) && NonePassed(s)
    else if s.word == 1 then s.begun == 1 && s.ended == 1 && OnlyInside(s, -1)
    else
      && s.word == -1 && s.begun == 1 && NonePassed(s)
      && exists i :: 0 <= i < |s.pcs| && Holder(s, i)
  }

  lemma StepKeeps(s: State, i: nat)
    requires Inv(s) && i < |s.pcs|
    ensures Inv(Step(s, i))
  {
    var t := Step(s, i);
    if s.word == -1 {
      var h :| 0 <= h < |s.pcs| && Holder(s, h);
      assert i == h || Holder(t, h);
      if i == h && s.pcs[i].Body? {
        assert Holder(t, i);
      }
    } else if s.word == 0 && s.pcs[i].Trying? {
      assert Holder(t, i);
    }
  }

  lemma {:induction false} RunInv(run: seq<State>, k: nat)
    requires IsRun(run) && k < |run|
    ensures Inv(run[k])
  {
    if k > 0 {
      RunInv(run, k - 1);
      assert Moves(run[k - 1], run[k - 1 + 1]);
      var i :| 0 <= i < |run[k - 1].pcs| && run[k] == Step(run[k - 1], i);
      StepKeeps(run[k - 1], i);
    }
  }

  /** In every interleaving of any number of threads the block is begun at most once, and no
      thread is past it before it has ended. */
  lemma OnceSafe(run: seq<State>, k: nat)
    requires IsRun(run) && k < |run|
    ensures run[k].ended <= run[k].begun <= 1
    ensures (exists i :: 0 <= i < |run[k].pcs| && run[k].pcs[i].Passed?) ==> run[k].ended == 1
  {
    RunInv(run, k);
  }

  // ----- what a thread does alone

  /** The state after n steps of thread i. */
  function Steps(s: State, i: nat, n: nat): (t: State)
    requires i < |s.pcs|
    ensures |t.pcs| == |s.pcs|
  {
    if n == 0 then s else Step(Steps(s, i, n - 1), i)
  }

  lemma Alone(s: State, i: nat)
    requires i < |s.pcs|
    ensures Steps(s, i, 1) == Step(s, i)
    ensures Steps(s, i, 2) == Step(Step(s, i), i)
    ensures Steps(s, i, 3) == Step(Step(Step(s, i), i), i)
    ensures Steps(s, i, 5) == Steps(Steps(s, i, 3), i, 2)
  {
    assert Steps(s, i, 2) == Step(Steps(s, i, 1), i);
    assert Steps(s, i, 3) == Step(Steps(s, i, 2), i);
    assert Steps(s, i, 4) == Step(Steps(s, i, 3), i);
    assert Steps(s, i, 5) == Step(Steps(s, i, 4), i);
    var t := Steps(s, i, 3);
    assert Steps(t, i, 2) == Step(Steps(t, i, 1), i) == Step(Step(t, i), i);
  }

  /** The first thread to come begins the block in three steps and passes in five. */
  lemma FirstRuns(s: State, i: nat)
    requires i < |s.pcs| && s.pcs[i] == Arrived && s.word == 0
    ensures var t := Steps(s, i, 3);
            t == s.(word := -1, pcs := s.pcs[i := Body], begun := s.begun + 1)
    ensures var t := Steps(s, i, 5);
            t == s.(word := 1, pcs := s.pcs[i := Passed], begun := s.begun + 1, ended := s.ended + 1)
  {
    Alone(s, i);
    Alone(Steps(s, i, 3), i);
  }

  /** Once the block has ended a thread passes in two steps without beginning it. */
  lemma LaterPass(s: State, i: nat)
    requires i < |s.pcs| && s.pcs[i] == Arrived && s.word == 1
    ensures Steps(s, i, 2) == s.(pcs := s.pcs[i := Passed])
  {
    Alone(s, i);
  }

  /** While the block runs, and when another thread was first to try, a thread comes round again. */
  lemma OthersWait(s: State, i: nat)
    requires i < |s.pcs|
    ensures s.pcs[i] == Arrived && s.word == -1 ==> Steps(s, i, 2) == s
    ensures s.pcs[i] == Trying && s.word != 0 ==> Steps(s, i, 1) == s.(pcs := s.pcs[i := Arrived])
  {
    Alone(s, i);
  }

  /** The holder of the block passes in at most two steps, and then everybody can. */
  lemma HolderPasses(s: State, i: nat)
    requires Inv(s) && i < |s.pcs| && Inside(s.pcs[i])
    ensures var t := Steps(s, i, if s.pcs[i].Body? then 2 else 1);
            t.word == 1 && t.pcs == s.pcs[i := Passed] && t.begun == t.ended == 1
  {
    Alone(s, i);
    assert OnlyInside(s, -1) ==> i == -1;
  }
}

/** FD_TURNSTILE: a block that one thread at a time may be in. */
module Turnstiles {

  /** Where a thread is. Tested holds the word it read, Blocked is the block for a turnstile that
      was taken, Finished is after the main block and before the word is cleared. Past remembers
      whether the main block was run. */
  datatype Pc = Arrived | Tested(tmp: int) | Trying | Body | Finished | Blocked | Past(ran: bool)

  /** The word, and the threads with the argument each gave. */
  datatype State = State(word: int, pcs: seq<Pc>, blocking: seq<bool>)

  predicate Init(s: State) {
    s.word == 0 && |s.blocking| == |s.pcs| && forall i :: 0 <= i < |s.pcs| ==> s.pcs[i] == Arrived
  }

  function At(s: State, i: nat, pc: Pc): State
    requires i < |s.pcs|
  {
    s.(pcs := s.pcs[i := pc])
  }

  /** The next step of thread i; a thread past the turnstile may come again, with the argument b. */
  function Step(s: State, i: nat, b: bool): State
    requires i < |s.pcs| == |s.blocking|
  {
    match s.pcs[i]
    case Arrived => At(s, i, Tested(s.word))
    case Tested(tmp) => At(s, i, if tmp == 0 then Trying else Blocked)
    case Trying => if s.word == 0 then At(s, i, Body).(word := 1) else At(s, i, Blocked)
    case Body => At(s, i, Finished)
    case Finished => At(s, i, Past(true)).(word := 0)
    case Blocked => At(s, i, if s.blocking[i] then Arrived else Past(false))
    case Past(_) => At(s, i, Arrived).(blocking := s.blocking[i := b])
  }

  ghost predicate Moves(s: State, t: State) {
    |s.pcs| == |s.blocking| && exists i, b :: 0 <= i < |s.pcs| && t == Step(s, i, b)
  }

  ghost predicate IsRun(run: seq<State>) {
    run != [] && Init(run[0]) && forall k :: 0 <= k < |run| - 1 ==> Moves(run[k], run[k + 1])
  }

  predicate Inside(pc: Pc) {
    pc.Body? || pc.Finished?
  }

  predicate OnlyInside(s: State, i: int) {
    forall j :: 0 <= j < |s.pcs| && Inside(s.pcs[j]) ==> j == i
  }

  ghost predicate Inv(s: State) {
    && |s.blocking| == |s.pcs|
    && (forall i :: 0 <= i < |s.pcs| && s.pcs[i] == Past(false) ==> !s.blocking[i])
    && if s.word == 0 then OnlyInside(s, -1)
       else s.word == 1 && exists i :: 0 <= i < |s.pcs| && Inside(s.pcs[i]) && OnlyInside(s, i)
  }

  lemma StepKeeps(s: State, i: nat, b: bool)
    requires Inv(s) && i < |s.pcs|
    ensures Inv(Step(s, i, b))
  {
    var t := Step(s, i, b);
    if s.word == 1 {
      var h :| 0 <= h < |s.pcs| && Inside(s.pcs[h]) && OnlyInside(s, h);
      assert i == h || (OnlyInside(t, h) && Inside(t.pcs[h]));
      if i == h && s.pcs[i].Body? {
        assert OnlyInside(t, i) && Inside(t.pcs[i]);
      }
    } else if s.pcs[i].Trying? {
      assert OnlyInside(t, i) && Inside(t.pcs[i]);
    }
  }

  lemma {:induction false} RunInv(run: seq<State>, k: nat)
    requires IsRun(run) && k < |run|
    ensures Inv(run[k])
  {
    if k > 0 {
      RunInv(run, k - 1);
      assert Moves(run[k - 1], run[k - 1 + 1]);
      var i, b :| 0 <= i < |run[k - 1].pcs| && run[k] == Step(run[k - 1], i, b);
      StepKeeps(run[k - 1], i, b);
    }
  }

  /** In every interleaving of any number of threads at most one is in the block, the word is
      non-zero exactly while one is, and only a thread that asked not to block gets past the
      turnstile without having been in it. */
  lemma TurnstileSafe(run: seq<State>, k: nat)
    requires IsRun(run) && k < |run|
    ensures var s := run[k];
            && |s.blocking| == |s.pcs|
            && (forall i, j :: 0 <= i < |s.pcs| && 0 <= j < |s.pcs| && Inside(s.pcs[i]) && Inside(s.pcs[j]) ==> i == j)
            && (s.word != 0 <==> exists i :: 0 <= i < |s.pcs| && Inside(s.pcs[i]))
            && (forall i :: 0 <= i < |s.pcs| && s.pcs[i] == Past(false) ==> !s.blocking[i])
  {
    RunInv(run, k);
  }

  // ----- what a thread does alone

  /** The state after n steps of thread i. */
  function Steps(s: State, i: nat, n: nat, b: bool): (t: State)
    requires i < |s.pcs| == |s.blocking|
    ensures |t.pcs| == |t.blocking| == |s.pcs|
  {
    if n == 0 then s else Step(Steps(s, i, n - 1, b), i, b)
  }

  lemma Alone(s: State, i: nat, b: bool)
    requires i < |s.pcs| == |s.blocking|
    ensures Steps(s, i, 1, b) == Step(s, i, b)
    ensures Steps(s, i, 2, b) == Step(Step(s, i, b), i, b)
    ensures Steps(s, i, 3, b) == Step(Step(Step(s, i, b), i, b), i, b)
    ensures Steps(s, i, 5, b) == Steps(Steps(s, i, 3, b), i, 2, b)
  {
    assert Steps(s, i, 2, b) == Step(Steps(s, i, 1, b), i, b);
    assert Steps(s, i, 3, b) == Step(Steps(s, i, 2, b), i, b);
    assert Steps(s, i, 4, b) == Step(Steps(s, i, 3, b), i, b);
    assert Steps(s, i, 5, b) == Step(Steps(s, i, 4, b), i, b);
    var t := Steps(s, i, 3, b);
    assert Steps(t, i, 2, b) == Step(Steps(t, i, 1, b), i, b) == Step(Step(t, i, b), i, b);
  }

  /** A thread that finds the turnstile free is in the block after three steps, with the word set,
      and past it after five, with the word clear again. */
  lemma FreePasses(s: State, i: nat, b: bool)
    requires i < |s.pcs| == |s.blocking| && s.pcs[i] == Arrived && s.word == 0
    ensures Steps(s, i, 3, b) == s.(word := 1, pcs := s.pcs[i := Body])
    ensures Steps(s, i, 5, b) == s.(pcs := s.pcs[i := Past(true)])
  {
    Alone(s, i, b);
    Alone(Steps(s, i, 3, b), i, b);
  }

  /** A thread that finds it taken is blocked, at the first look or at the attempt to enter; from
      there a blocking one comes back and another one goes on without having been in. */
  lemma TakenBlocks(s: State, i: nat, b: bool)
    requires i < |s.pcs| == |s.blocking| && s.word != 0
    ensures s.pcs[i] == Arrived ==> Steps(s, i, 2, b) == s.(pcs := s.pcs[i := Blocked])
    ensures s.pcs[i] == Trying ==> Steps(s, i, 1, b) == s.(pcs := s.pcs[i := Blocked])
    ensures s.pcs[i] == Blocked ==>
              Steps(s, i, 1, b) == s.(pcs := s.pcs[i := if s.blocking[i] then Arrived else Past(false)])
  {
    Alone(s, i, b);
  }

  /** Whoever is in the block can leave it in at most two steps and clear the word. */
  lemma HolderPasses(s: State, i: nat, b: bool)
    requires i < |s.pcs| == |s.blocking| && Inside(s.pcs[i])
    ensures var t := Steps(s, i, if s.pcs[i].Body? then 2 else 1, b);
            t == s.(word := 0, pcs := s.pcs[i := Past(true)])
  {
    Alone(s, i, b);
  }
}
