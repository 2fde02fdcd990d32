/** Left to itself, a call of pthread_barrier_wait either returns or goes to sleep, and which
    of the two is decided by the state it starts from. */
module BarrierCalls {
  import opened Tally
  import opened Barrier

  predicate Asleep(t: Thread) {
    t.pc in {AsleepLock, AsleepCond}
  }

  /** Whether the call will return by its own steps: before it has arrived, when the lock is
      free, or its own, and it is the last to arrive; once it has, when its generation is over,
      it has noticed or is going to, and it holds the lock or finds it free. */
  predicate Returns(sh: Shared, t: Thread) {
    match t.pc
    case Idle => true
    case Exchange => sh.word == 0 && (if t.back then t.gen != sh.phase else sh.waiting + 1 == sh.count)
    case FutexWait => sh.word == 0 && (if t.back then t.gen != sh.phase else sh.waiting + 1 == sh.count)
    case LoadPhase => sh.waiting + 1 == sh.count
    case AddWaiting => sh.waiting + 1 == sh.count
    case CheckPhase => t.gen != sh.phase
    case CondWake => t.seen != sh.seqno && sh.word == 0 && t.gen != sh.phase
    case CheckSeq => t.seen != sh.seqno && sh.word == 0 && t.gen != sh.phase
    case CondFutexWait => t.seen != sh.seqno && sh.word == 0 && t.gen != sh.phase
    case LoadSeq => false
    case CondStoreZero => false
    case AsleepLock => false
    case AsleepCond => false
    case _ => true
  }

  /** What the invariant adds about one thread. */
  predicate Fair(sh: Shared, t: Thread) {
    sh.word <= 1 && (t.pc == AddWaiting ==> t.gen == sh.phase) && (t.pc == CondStoreZero ==> t.seen == sh.seqno)
  }

  /** How many steps a call that returns by itself has before it, at the most. */
  function ToReturn(t: Thread): nat {
    match t.pc
    case Idle => 0
    case WakeLock => 1
    case StoreZero => 2
    case WakeAll => 3
    case CheckPhase => 3
    case BumpSeq => 4
    case BumpPhase => 5
    case ResetWaiting => 6
    case AddWaiting => 7
    case LoadPhase => 8
    case Exchange => if t.back then 4 else 9
    case FutexWait => if t.back then 5 else 10
    case CheckSeq => 5
    case _ => 6
  }

  /** How many steps any other call has before it sleeps, at the most. */
  function ToSleep(sh: Shared, t: Thread): nat {
    match t.pc
    case FutexWait => if sh.word == 1 then 1 else 10
    case Exchange => if sh.word != 0 then 2 else 9
    case LoadPhase => 8
    case AddWaiting => 7
    case CheckPhase => 6
    case LoadSeq => 5
    case CondStoreZero => 4
    case CondWake => if t.seen == sh.seqno then 3 else 12
    case CheckSeq => if t.seen == sh.seqno then 2 else 11
    case CondFutexWait => if t.seen == sh.seqno then 1 else 12
    case _ => 0
  }

  lemma ReturnStep(sh: Shared, t: Thread)
    requires Fair(sh, t) && t.pc != Idle && Returns(sh, t)
    ensures var sh', t' := Global(sh, t), Local(sh, t);
            Fair(sh', t') && Returns(sh', t') && ToReturn(t') < ToReturn(t)
  {
  }

  lemma SleepStep(sh: Shared, t: Thread)
    requires Fair(sh, t) && !Asleep(t) && !Returns(sh, t)
    ensures var sh', t' := Global(sh, t), Local(sh, t);
            Fair(sh', t') && !Returns(sh', t') && ToSleep(sh', t') < ToSleep(sh, t)
  {
  }

  // ---------------------------------------------------------------- the steps of one thread

  ghost predicate OwnStep(s: State, i: nat, s': State) {
    i < |s.threads| && !Asleep(s.threads[i]) && ThreadStep(s, i, s')
  }

  /** Steps of thread i alone, none of them a spurious wake-up. */
  ghost predicate OwnPath(path: seq<State>, i: nat) {
    |path| > 0 && forall x :: 0 <= x < |path| - 1 ==> OwnStep(path[x], i, path[x + 1])
  }

  lemma OwnStepIs(s: State, i: nat, s': State)
    requires OwnStep(s, i, s')
    ensures i < |s'.threads| && s'.sh == Global(s.sh, s.threads[i]) && s'.threads[i] == Local(s.sh, s.threads[i])
  {
  }

  lemma Acts(s: State, i: nat) returns (s': State)
    requires i < |s.threads| && !Asleep(s.threads[i])
    ensures OwnStep(s, i, s')
  {
    var m := Moved(s, i);
    if s.threads[i].pc == WakeAll {
      s' := WakeEveryWaiter(m);
    } else if s.threads[i].pc in {CondWake, WakeLock} {
      if j :| 0 <= j < |m.threads| && m.threads[j].pc == AsleepLock {
        s' := m.(threads := m.threads[j := m.threads[j].(pc := Exchange)]);
      } else {
        s' := m;
      }
    } else {
      s' := m;
    }
  }

  lemma {:induction false} Return(s: State, i: nat) returns (path: seq<State>)
    requires i < |s.threads| && Fair(s.sh, s.threads[i]) && Returns(s.sh, s.threads[i])
    ensures OwnPath(path, i) && path[0] == s && |path| <= ToReturn(s.threads[i]) + 1
    ensures var last := path[|path| - 1]; i < |last.threads| && last.threads[i].pc == Idle
    decreases ToReturn(s.threads[i])
  {
    if s.threads[i].pc == Idle {
      path := [s];
    } else {
      ReturnStep(s.sh, s.threads[i]);
      hide OwnStep, Fair, Returns, ToReturn, Local, Global;
      var s' := ActsAs(s, i);
      var rest := Return(s', i);
      path := [s] + rest;
    }
  }

  lemma ActsAs(s: State, i: nat) returns (s': State)
    requires i < |s.threads| && !Asleep(s.threads[i])
    ensures OwnStep(s, i, s') && i < |s'.threads|
    ensures s'.sh == Global(s.sh, s.threads[i]) && s'.threads[i] == Local(s.sh, s.threads[i])
  {
    hide OwnStep, Local, Global;
    s' := Acts(s, i);
    OwnStepIs(s, i, s');
  }

  lemma {:induction false} Sleep(s: State, i: nat) returns (path: seq<State>)
    requires i < |s.threads| && Fair(s.sh, s.threads[i]) && !Returns(s.sh, s.threads[i])
    ensures OwnPath(path, i) && path[0] == s && |path| <= ToSleep(s.sh, s.threads[i]) + 1
    ensures var last := path[|path| - 1]; i < |last.threads| && Asleep(last.threads[i])
    decreases ToSleep(s.sh, s.threads[i])
  {
    if Asleep(s.threads[i]) {
      path := [s];
    } else {
      SleepStep(s.sh, s.threads[i]);
      hide OwnStep, Fair, Returns, ToSleep, Local, Global;
      var s' := ActsAs(s, i);
      var rest := Sleep(s', i);
      path := [s] + rest;
    }
  }

  lemma {:induction false} NeverReturns(path: seq<State>, i: nat, x: nat)
    requires OwnPath(path, i) && x < |path| && i < |path[0].threads|
    requires Fair(path[0].sh, path[0].threads[i]) && !Returns(path[0].sh, path[0].threads[i])
    ensures i < |path[x].threads| && Fair(path[x].sh, path[x].threads[i]) && !Returns(path[x].sh, path[x].threads[i])
  {
    if x > 0 {
      NeverReturns(path, i, x - 1);
      assert OwnStep(path[x - 1], i, path[x - 1 + 1]);
      SleepStep(path[x - 1].sh, path[x - 1].threads[i]);
      OwnStepIs(path[x - 1], i, path[x]);
    }
  }

  // ---------------------------------------------------------------- what every run keeps

  lemma RunFair(run: seq<State>, k: nat, i: nat)
    requires IsRun(run) && k < |run| && i < |run[k].threads|
    ensures Fair(run[k].sh, run[k].threads[i])
  {
    RunInv(run, k);
    assert ThreadInv(run[k].sh, Count(run[k].threads), run[k].threads[i]);
  }

  /** In every reachable state a call can be brought to its end by its own steps, ten at the
      most, exactly when `Returns` says so. */
  lemma ReturnsIff(run: seq<State>, k: nat, i: nat)
    requires IsRun(run) && k < |run| && i < |run[k].threads|
    ensures Returns(run[k].sh, run[k].threads[i]) <==>
            exists path: seq<State> ::
              OwnPath(path, i) && path[0] == run[k] && |path| <= 11 && i < |path[|path| - 1].threads| &&
              path[|path| - 1].threads[i].pc == Idle
  {
    RunFair(run, k, i);
    hide OwnPath, IsRun, Fair;
    if Returns(run[k].sh, run[k].threads[i]) {
      var path := Return(run[k], i);
    } else {
      forall path: seq<State> | OwnPath(path, i) && |path| > 0 && path[0] == run[k]
        ensures i < |path[|path| - 1].threads| && path[|path| - 1].threads[i].pc != Idle
      {
        NeverReturns(path, i, |path| - 1);
      }
    }
  }

  /** Otherwise its own steps, twelve at the most, put it to sleep. */
  lemma OrSleeps(run: seq<State>, k: nat, i: nat) returns (path: seq<State>)
    requires IsRun(run) && k < |run| && i < |run[k].threads| && !Returns(run[k].sh, run[k].threads[i])
    ensures OwnPath(path, i) && path[0] == run[k] && |path| <= 13
    ensures var last := path[|path| - 1]; i < |last.threads| && Asleep(last.threads[i])
  {
    RunFair(run, k, i);
    hide OwnPath, IsRun, Fair, Returns;
    path := Sleep(run[k], i);
  }

  /** A waiter whose generation is over is held up by nothing but the lock: while the lock is
      free and it does not sleep on the lock, it returns by its own steps. */
  lemma ReleasedWaiterReturns(run: seq<State>, k: nat, i: nat)
    requires IsRun(run) && k < |run| && i < |run[k].threads|
    requires Arrived(run[k].threads[i]) && run[k].threads[i].gen < run[k].sh.phase
    requires run[k].sh.word == 0 && run[k].threads[i].pc != AsleepLock
    ensures Returns(run[k].sh, run[k].threads[i])
  {
    var s := run[k];
    RunInv(run, k);
    assert ThreadInv(s.sh, Count(s.threads), s.threads[i]);
    CountUnderLock(s.threads);
  }

  /** An idle thread may call the barrier at any time. */
  lemma MayStart(s: State, i: nat)
    requires i < |s.threads| && s.threads[i] == OUTSIDE
    ensures ThreadStep(s, i, s.(threads := s.threads[i := OUTSIDE.(pc := Exchange)]))
  {
  }

  /** A sleeper may wake spuriously, and then looks again at what it slept on. */
  lemma MayWake(s: State, i: nat)
    requires i < |s.threads| && Asleep(s.threads[i])
    ensures var pc := if s.threads[i].pc == AsleepLock then Exchange else CheckSeq;
            ThreadStep(s, i, s.(threads := s.threads[i := s.threads[i].(pc := pc)]))
  {
  }
}
