/** The counting semaphore of src/semaphore.c as a state machine over its atomic steps: any
    number of threads run sem_wait, sem_trywait and sem_post, interleaved in any order, with
    spurious futex wake-ups and spurious failures of the weak compare-and-swap.

    The count is a C int, so the loss of 2^32 on overflow is written out. */
module Semaphore {
  import opened Tally

  const INT_MAX := 0x7fff_ffff
  const INT_MIN := -0x8000_0000
  const UINT_SPAN := 0x1_0000_0000

  /** Whether x, at most one past INT_MAX or an unsigned int, loses 2^32 when it becomes an int. */
  predicate TooBig(x: int) {
    x > INT_MAX
  }

  datatype Pc =
    | Idle
    | WaitLoad | WaitCas | WaitFutex | Asleep        // sem_wait
    | TryLoad | TryCas                               // sem_trywait
    | PostAdd | PostWake                             // sem_post

  /** `val` is the local of sem_wait and sem_trywait. */
  datatype Thread = Thread(pc: Pc, val: int)

  datatype Call = Wait | TryWait | Post

  /** `initial`, `posts`, `taken` and `wraps` are history: the argument of sem_init, the
      increments, the successful compare-and-swaps, and how often 2^32 was lost. */
  datatype Shared = Shared(count: int, initial: nat, posts: nat, taken: nat, wraps: nat) {
    /** What the count would be with unbounded integers. */
    function Ledger(): int {
      initial + posts - taken
    }
  }

  datatype State = State(sh: Shared, threads: seq<Thread>)

  // ---------------------------------------------------------------- the steps

  /** `call` is the caller's choice, `weak` a spurious failure of compare_exchange_weak. */
  function Local(sh: Shared, t: Thread, call: Call, weak: bool): Thread {
    match t.pc
    case Idle => t.(pc := match call case Wait => WaitLoad case TryWait => TryLoad case Post => PostAdd)
    case WaitLoad => Thread(if sh.count > 0 then WaitCas else WaitFutex, sh.count)
    case WaitCas => t.(pc := if sh.count == t.val && !weak then Idle else WaitFutex)
    case WaitFutex => t.(pc := if sh.count == 0 then Asleep else WaitLoad)
    case Asleep => t.(pc := WaitLoad)
    case TryLoad => Thread(if sh.count > 0 then TryCas else Idle, sh.count)
    case TryCas =>
      if sh.count == t.val && !weak then t.(pc := Idle)
      else Thread(if sh.count > 0 then TryCas else Idle, sh.count)
    case PostAdd => t.(pc := PostWake)
    case PostWake => t.(pc := Idle)
  }

  function Global(sh: Shared, t: Thread, weak: bool): Shared {
    match t.pc
    case WaitCas => if sh.count == t.val && !weak then sh.(count := t.val - 1, taken := sh.taken + 1) else sh
    case TryCas => if sh.count == t.val && !weak then sh.(count := t.val - 1, taken := sh.taken + 1) else sh
    case PostAdd =>
      if TooBig(sh.count + 1) then sh.(count := sh.count + 1 - UINT_SPAN, posts := sh.posts + 1, wraps := sh.wraps + 1)
      else sh.(count := sh.count + 1, posts := sh.posts + 1)
    case _ => sh
  }

  function Moved(s: State, i: nat, call: Call, weak: bool): State
    requires i < |s.threads|
  {
    State(Global(s.sh, s.threads[i], weak), s.threads[i := Local(s.sh, s.threads[i], call, weak)])
  }

  ghost predicate WakesOne(s: State, s': State) {
    || (s' == s && forall j :: 0 <= j < |s.threads| ==> s.threads[j].pc != Asleep)
    || exists j :: 0 <= j < |s.threads| && s.threads[j].pc == Asleep
                   && s' == s.(threads := s.threads[j := s.threads[j].(pc := WaitLoad)])
  }

  ghost predicate ThreadStep(s: State, i: nat, call: Call, weak: bool, s': State)
    requires i < |s.threads|
  {
    if s.threads[i].pc == PostWake then WakesOne(Moved(s, i, call, weak), s') else s' == Moved(s, i, call, weak)
  }

  ghost predicate Next(s: State, s': State) {
    || s' == s.(threads := s.threads + [Thread(Idle, 0)])
    || exists i, call, weak :: 0 <= i < |s.threads| && ThreadStep(s, i, call, weak, s')
  }

  /** sem_init with an unsigned value. */
  ghost predicate Init(s: State) {
    && s.sh.initial < UINT_SPAN
    && s.sh == (if TooBig(s.sh.initial) then Shared(s.sh.initial - UINT_SPAN, s.sh.initial, 0, 0, 1)
                else Shared(s.sh.initial, s.sh.initial, 0, 0, 0))
    && forall i :: 0 <= i < |s.threads| ==> s.threads[i] == Thread(Idle, 0)
  }

  ghost predicate IsRun(run: seq<State>) {
    && |run| > 0
    && Init(run[0])
    && forall k :: 0 <= k < |run| - 1 ==> Next(run[k], run[k + 1])
  }

  // ---------------------------------------------------------------- the invariant

  function Bit(b: bool): nat { if b then 1 else 0 }
  function AsleepW(t: Thread): nat { Bit(t.pc == Asleep) }
  /** Awake in the loop of sem_wait. */
  function AwakeW(t: Thread): nat { Bit(t.pc in {WaitLoad, WaitCas, WaitFutex}) }
  /** The futex_wake of sem_post is still to come. */
  function OwedW(t: Thread): nat { Bit(t.pc == PostWake) }

  datatype Census = Census(asleep: nat, awake: nat, owed: nat) {
    function Plus(c: Census): Census {
      Census(asleep + c.asleep, awake + c.awake, owed + c.owed)
    }
  }

  function Weigh(t: Thread): Census {
    Census(AsleepW(t), AwakeW(t), OwedW(t))
  }

  function Count(ts: seq<Thread>): Census {
    Census(Total(ts, AsleepW), Total(ts, AwakeW), Total(ts, OwedW))
  }

  /** A unit is never stranded while somebody sleeps. */
  predicate Covered(sh: Shared, c: Census) {
    c.asleep > 0 ==> sh.count <= c.owed + c.awake
  }

  predicate ThreadInv(t: Thread) {
    t.pc in {WaitCas, TryCas} ==> t.val > 0
  }

  /** The count is the ledger modulo 2^32, in the range of an int. */
  predicate LedgerInv(sh: Shared) {
    INT_MIN <= sh.count <= INT_MAX && sh.count == sh.Ledger() - sh.wraps * UINT_SPAN
  }

  ghost predicate Inv(s: State) {
    && LedgerInv(s.sh)
    && Covered(s.sh, Count(s.threads))
    && forall i :: 0 <= i < |s.threads| ==> ThreadInv(s.threads[i])
  }

  lemma StepKeepsLedger(sh: Shared, t: Thread, call: Call, weak: bool)
    requires LedgerInv(sh) && ThreadInv(t)
    ensures LedgerInv(Global(sh, t, weak)) && ThreadInv(Local(sh, t, call, weak))
  {
  }

  /** Everything but the wake-up itself; at PostWake the unit stays covered for want of it. */
  lemma StepKeepsCovered(sh: Shared, o: Census, t: Thread, call: Call, weak: bool)
    requires Covered(sh, o.Plus(Weigh(t))) && ThreadInv(t)
    ensures var c' := o.Plus(Weigh(Local(sh, t, call, weak)));
            if t.pc == PostWake then c'.asleep > 0 ==> sh.count <= c'.owed + c'.awake + 1
            else Covered(Global(sh, t, weak), c')
  {
  }

  lemma CountPut(ts: seq<Thread>, i: nat, t: Thread)
    requires i < |ts|
    ensures Count(ts[i := t]) == Count(ts[i := Thread(Idle, 0)]).Plus(Weigh(t))
  {
    var us := ts[i := Thread(Idle, 0)];
    assert us[i := t] == ts[i := t];
    TotalUpdate(us, i, t, AsleepW);
    TotalUpdate(us, i, t, AwakeW);
    TotalUpdate(us, i, t, OwedW);
  }

  lemma CountStep(s: State, i: nat, call: Call, weak: bool)
    requires i < |s.threads|
    ensures var o := Count(s.threads[i := Thread(Idle, 0)]);
            && Count(s.threads) == o.Plus(Weigh(s.threads[i]))
            && Count(Moved(s, i, call, weak).threads) == o.Plus(Weigh(Local(s.sh, s.threads[i], call, weak)))
  {
    assert s.threads[i := s.threads[i]] == s.threads;
    CountPut(s.threads, i, s.threads[i]);
    CountPut(s.threads, i, Local(s.sh, s.threads[i], call, weak));
  }

  lemma WakeKeepsCovered(m: State, s': State)
    requires WakesOne(m, s')
    requires Count(m.threads).asleep > 0 ==> m.sh.count <= Count(m.threads).owed + Count(m.threads).awake + 1
    ensures s'.sh == m.sh && Covered(s'.sh, Count(s'.threads))
    ensures (forall j :: 0 <= j < |m.threads| ==> ThreadInv(m.threads[j]))
            ==> forall j :: 0 <= j < |s'.threads| ==> ThreadInv(s'.threads[j])
  {
    if forall j :: 0 <= j < |m.threads| ==> m.threads[j].pc != Asleep {
      TotalZero(m.threads, AsleepW);
    } else {
      var j :| 0 <= j < |m.threads| && m.threads[j].pc == Asleep
               && s' == m.(threads := m.threads[j := m.threads[j].(pc := WaitLoad)]);
      assert m.threads[j := m.threads[j]] == m.threads;
      CountPut(m.threads, j, m.threads[j]);
      CountPut(m.threads, j, s'.threads[j]);
    }
  }

  lemma WakeIsQuiet(sh: Shared, t: Thread, weak: bool)
    requires t.pc == PostWake
    ensures Global(sh, t, weak) == sh
  {
  }

  lemma StepKeepsInv(s: State, i: nat, call: Call, weak: bool, s': State)
    requires Inv(s) && i < |s.threads| && ThreadStep(s, i, call, weak, s')
    ensures Inv(s')
  {
    hide Count, LedgerInv, Covered, Local, Global;
    var t, m := s.threads[i], Moved(s, i, call, weak);
    CountStep(s, i, call, weak);
    StepKeepsLedger(s.sh, t, call, weak);
    StepKeepsCovered(s.sh, Count(s.threads[i := Thread(Idle, 0)]), t, call, weak);
    if t.pc == PostWake {
      WakeIsQuiet(s.sh, t, weak);
      WakeKeepsCovered(m, s');
    }
  }

  lemma NextKeepsInv(s: State, s': State)
    requires Inv(s) && Next(s, s')
    ensures Inv(s')
  {
    hide ThreadStep;
    if s' == s.(threads := s.threads + [Thread(Idle, 0)]) {
      TotalAppend(s.threads, Thread(Idle, 0), AsleepW);
      TotalAppend(s.threads, Thread(Idle, 0), AwakeW);
      TotalAppend(s.threads, Thread(Idle, 0), OwedW);
    } else {
      hide Inv;
      var i, call, weak :| 0 <= i < |s.threads| && ThreadStep(s, i, call, weak, s');
      StepKeepsInv(s, i, call, weak, s');
    }
  }

  lemma {:induction false} RunInv(run: seq<State>, k: nat)
    requires IsRun(run) && k < |run|
    ensures Inv(run[k])
  {
    if k == 0 {
      TotalZero(run[0].threads, AsleepW);
    } else {
      RunInv(run, k - 1);
      assert Next(run[k - 1], run[k]);
      NextKeepsInv(run[k - 1], run[k]);
    }
  }

  // ---------------------------------------------------------------- what every run keeps

  /** The count is initial + posts - acquisitions modulo 2^32, in every run; it is exactly
      that number while that number fits an int. */
  lemma Conservation(run: seq<State>, k: nat)
    requires IsRun(run) && k < |run|
    ensures var sh := run[k].sh;
            && INT_MIN <= sh.count <= INT_MAX && sh.count == sh.Ledger() - sh.wraps * UINT_SPAN
            && (sh.count == sh.Ledger() <==> INT_MIN <= sh.Ledger() <= INT_MAX)
  {
    RunInv(run, k);
  }

  /** No history of the run up to k went past INT_MAX. */
  predicate NoOverflow(run: seq<State>, k: nat)
    requires k < |run|
  {
    run[k].sh.Ledger() <= INT_MAX && (k > 0 ==> NoOverflow(run, k - 1))
  }

  /** The count was exact and never negative up to k. */
  predicate Exact(run: seq<State>, k: nat)
    requires k < |run|
  {
    0 <= run[k].sh.count == run[k].sh.Ledger() && (k > 0 ==> Exact(run, k - 1))
  }

  lemma GlobalLedger(sh: Shared, t: Thread, weak: bool)
    requires ThreadInv(t)
    ensures var sh' := Global(sh, t, weak);
            sh.Ledger() - Bit(sh.count > 0) <= sh'.Ledger() <= sh.Ledger() + 1
  {
  }

  lemma LedgerStep(s: State, s': State)
    requires Inv(s) && Next(s, s')
    ensures s'.sh.Ledger() <= s.sh.Ledger() + 1
    ensures s'.sh.Ledger() >= s.sh.Ledger() - Bit(s.sh.count > 0)
  {
    if s' != s.(threads := s.threads + [Thread(Idle, 0)]) {
      hide Local, Global, Shared.Ledger, LedgerInv, Covered;
      var i, call, weak :| 0 <= i < |s.threads| && ThreadStep(s, i, call, weak, s');
      GlobalLedger(s.sh, s.threads[i], weak);
      assert s'.sh == Global(s.sh, s.threads[i], weak);
    }
  }

  /** The count is exact and never negative exactly in the runs where no sem_post, and not
      sem_init either, ever takes it past INT_MAX. */
  lemma {:induction false} ExactIffNoOverflow(run: seq<State>, k: nat)
    requires IsRun(run) && k < |run|
    ensures Exact(run, k) <==> NoOverflow(run, k)
  {
    RunInv(run, k);
    if k > 0 {
      ExactIffNoOverflow(run, k - 1);
      RunInv(run, k - 1);
      assert Next(run[k - 1], run[k]);
      LedgerStep(run[k - 1], run[k]);
    }
  }

  /** While some sem_wait sleeps, the available units are no more than the wake-ups still owed
      plus the waiters awake in the loop; so an available unit comes with a thread that will
      take it or wake the sleeper. */
  lemma NoStrandedUnit(run: seq<State>, k: nat, i: nat)
    requires IsRun(run) && k < |run| && i < |run[k].threads| && run[k].threads[i].pc == Asleep
    ensures run[k].sh.count <= Total(run[k].threads, OwedW) + Total(run[k].threads, AwakeW)
    ensures run[k].sh.count > 0 ==>
              exists j :: 0 <= j < |run[k].threads| && run[k].threads[j].pc in {PostWake, WaitLoad, WaitCas, WaitFutex}
  {
    RunInv(run, k);
    TotalAtLeast(run[k].threads, i, AsleepW);
    if Total(run[k].threads, OwedW) > 0 {
      var j := TotalWitness(run[k].threads, OwedW);
    } else if Total(run[k].threads, AwakeW) > 0 {
      var j := TotalWitness(run[k].threads, AwakeW);
    }
  }
}
