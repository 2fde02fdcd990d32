/** The futex mutex of src/pthread.c as a state machine over its atomic steps.

    Any number of threads run pthread_mutex_lock, pthread_mutex_trylock and
    pthread_mutex_unlock on one mutex, interleaved in any order; threads may be created
    at any time, and a futex sleeper may wake spuriously. */
module Mutex {
  import opened Tally

  datatype Kind = Normal | Recursive

  /** Program counters.  `Idle` is outside every call. */
  datatype Pc =
    | Idle
    // pthread_mutex_lock
    | LockCheck       // read type and owner
    | Exchange        // atomic_exchange(&locked, 1)
    | FutexWait       // futex_wait(&locked, 1)
    | Asleep          // queued in the kernel
    | SetOwner        // owner = self
    | SetDepth        // recursion = 1
    // pthread_mutex_trylock
    | TryCheck        // read type and owner
    | TryCas          // compare_exchange(&locked, 0, 1)
    // pthread_mutex_unlock
    | UnlockCheck     // recursive: compare owner; normal: owner = 0
    | Decrement       // recursive: --recursion
    | ClearDepth      // normal: recursion = 0
    | ClearOwner      // recursive: owner = 0
    | StoreZero       // locked = 0
    | Wake            // futex_wake(&locked, 1)

  /** `nest` is the number of successful acquisitions of this thread that no unlock has
      undone yet; the code does not store it. */
  datatype Thread = Thread(pc: Pc, nest: nat)

  const NOBODY := -1

  /** `owner` is the index of the owning thread or NOBODY. */
  datatype State = State(kind: Kind, word: nat, owner: int, recursion: nat, threads: seq<Thread>)

  function Put(s: State, i: nat, t: Thread): State
    requires i < |s.threads|
  {
    s.(threads := s.threads[i := t])
  }

  function Goto(s: State, i: nat, pc: Pc): State
    requires i < |s.threads|
  {
    Put(s, i, s.threads[i].(pc := pc))
  }

  /** The futex call wakes one sleeper, whichever the kernel picks, if there is any. */
  ghost predicate WakesOne(s: State, s': State) {
    || (s' == s && forall j :: 0 <= j < |s.threads| ==> s.threads[j].pc != Asleep)
    || exists j :: 0 <= j < |s.threads| && s.threads[j].pc == Asleep && s' == Goto(s, j, Exchange)
  }

  /** One atomic step of thread i. */
  ghost predicate ThreadStep(s: State, i: nat, s': State)
    requires i < |s.threads|
  {
    var t := s.threads[i];
    var mine := s.owner == i;
    match t.pc
    case Idle =>
      || s' == Goto(s, i, LockCheck)
      || s' == Goto(s, i, TryCheck)
      // unlocking a normal mutex one does not hold is undefined; a recursive one checks
      || ((t.nest > 0 || s.kind == Recursive) && s' == Goto(s, i, UnlockCheck))
    case LockCheck =>
      if s.kind == Recursive && mine
      then s' == Put(s, i, Thread(Idle, t.nest + 1)).(recursion := s.recursion + 1)
      else s' == Goto(s, i, Exchange)
    case Exchange =>
      s' == Goto(s, i, if s.word == 0 then SetOwner else FutexWait).(word := 1)
    case FutexWait =>
      s' == Goto(s, i, if s.word == 1 then Asleep else Exchange)
    case Asleep =>
      s' == Goto(s, i, Exchange)
    case SetOwner =>
      s' == Goto(s, i, SetDepth).(owner := i)
    case SetDepth =>
      s' == Put(s, i, Thread(Idle, t.nest + 1)).(recursion := 1)
    case TryCheck =>
      if s.kind == Recursive && mine
      then s' == Put(s, i, Thread(Idle, t.nest + 1)).(recursion := s.recursion + 1)
      else s' == Goto(s, i, TryCas)
    case TryCas =>
      if s.word == 0
      then s' == Goto(s, i, SetOwner).(word := 1)
      else s' == Goto(s, i, Idle)            // EBUSY
    case UnlockCheck =>
      if s.kind == Normal
      then t.nest > 0 && s' == Put(s, i, Thread(ClearDepth, t.nest - 1)).(owner := NOBODY)
      else s' == Goto(s, i, if mine then Decrement else Idle)   // EPERM when not mine
    case Decrement =>
      && s.recursion > 0 && t.nest > 0
      && s' == Put(s, i, Thread(if s.recursion - 1 > 0 then Idle else ClearOwner, t.nest - 1))
              .(recursion := s.recursion - 1)
    case ClearDepth =>
      s' == Goto(s, i, StoreZero).(recursion := 0)
    case ClearOwner =>
      s' == Goto(s, i, StoreZero).(owner := NOBODY)
    case StoreZero =>
      s' == Goto(s, i, Wake).(word := 0)
    case Wake =>
      WakesOne(Goto(s, i, Idle), s')
  }

  ghost predicate Spawn(s: State, s': State) {
    s' == s.(threads := s.threads + [Thread(Idle, 0)])
  }

  ghost predicate Next(s: State, s': State) {
    || Spawn(s, s')
    || exists i :: 0 <= i < |s.threads| && ThreadStep(s, i, s')
  }

  /** pthread_mutex_init, seen by threads that are all outside the mutex. */
  ghost predicate Init(s: State) {
    && s.word == 0 && s.owner == NOBODY && s.recursion == 0
    && forall i :: 0 <= i < |s.threads| ==> s.threads[i] == Thread(Idle, 0)
  }

  ghost predicate IsRun(run: seq<State>) {
    && |run| > 0
    && Init(run[0])
    && forall k :: 0 <= k < |run| - 1 ==> Next(run[k], run[k + 1])
  }

  /** Holding the lock, on the way in past the exchange, or on the way out before the store. */
  predicate Owns(t: Thread) {
    t.nest > 0 || t.pc in {SetOwner, SetDepth, ClearDepth, ClearOwner, StoreZero}
  }

  /** Between the two writes of the owner field. */
  predicate Registered(t: Thread) {
    t.nest > 0 || t.pc in {SetDepth, ClearOwner}
  }

  function OwnsW(t: Thread): nat { if Owns(t) then 1 else 0 }
  function AsleepW(t: Thread): nat { if t.pc == Asleep then 1 else 0 }
  /** About to retry the exchange, or about to run futex_wake. */
  function PromptW(t: Thread): nat { if t.pc in {Exchange, FutexWait, Wake} then 1 else 0 }

  ghost predicate ThreadInv(s: State, i: nat)
    requires i < |s.threads|
  {
    var t := s.threads[i];
    && (t.pc in {SetOwner, SetDepth, ClearDepth, ClearOwner, StoreZero, Wake} ==> t.nest == 0)
    && (s.kind == Normal ==> t.nest <= 1)
    && (t.pc in {ClearDepth} ==> s.kind == Normal)
    && (t.pc in {Decrement, ClearOwner} ==> s.kind == Recursive)
    && (t.pc == Decrement ==> t.nest > 0)
    && (t.pc == UnlockCheck && s.kind == Normal ==> t.nest > 0)
    && (s.owner == i <==> Registered(t))
    && (t.nest > 0 ==> s.recursion == t.nest)
    && (t.pc in {ClearOwner, StoreZero} ==> s.recursion == 0)
    && (s.kind == Recursive && t.nest > 0 ==> t.pc !in {Exchange, FutexWait, Asleep, TryCas})
  }

  ghost predicate Inv(s: State) {
    && Total(s.threads, OwnsW) == s.word <= 1
    && NOBODY <= s.owner < |s.threads|
    && (s.word == 0 ==> s.recursion == 0)
    && (s.word == 0 && Total(s.threads, AsleepW) > 0 ==> Total(s.threads, PromptW) > 0)
    && forall i :: 0 <= i < |s.threads| ==> ThreadInv(s, i)
  }

  /** Nobody but i is an owner while i is one. */
  lemma SoleOwner(s: State, i: nat)
    requires Inv(s) && i < |s.threads| && Owns(s.threads[i])
    ensures s.word == 1
    ensures forall j :: 0 <= j < |s.threads| && j != i ==> !Owns(s.threads[j])
  {
    TotalAtLeast(s.threads, i, OwnsW);
    forall j | 0 <= j < |s.threads| && j != i ensures !Owns(s.threads[j]) {
      TotalAtLeastTwo(s.threads, if i < j then i else j, if i < j then j else i, OwnsW);
    }
  }

  lemma NoOwner(s: State)
    requires Inv(s) && s.word == 0
    ensures forall j :: 0 <= j < |s.threads| ==> !Owns(s.threads[j])
  {
    forall j | 0 <= j < |s.threads| ensures !Owns(s.threads[j]) {
      TotalAtLeast(s.threads, j, OwnsW);
    }
  }

  lemma OwnerOwns(s: State)
    requires Inv(s) && s.owner >= 0
    ensures Owns(s.threads[s.owner])
  {
    assert ThreadInv(s, s.owner);
  }

  lemma Moved(s: State, i: nat, t: Thread)
    requires i < |s.threads|
    ensures var ts := s.threads[i := t];
            && Total(ts, OwnsW) == Total(s.threads, OwnsW) - OwnsW(s.threads[i]) + OwnsW(t)
            && Total(ts, AsleepW) == Total(s.threads, AsleepW) - AsleepW(s.threads[i]) + AsleepW(t)
            && Total(ts, PromptW) == Total(s.threads, PromptW) - PromptW(s.threads[i]) + PromptW(t)
  {
    TotalUpdate(s.threads, i, t, OwnsW);
    TotalUpdate(s.threads, i, t, AsleepW);
    TotalUpdate(s.threads, i, t, PromptW);
  }

  lemma StepKeepsItself(s: State, i: nat, s': State)
    requires Inv(s) && i < |s.threads| && s.threads[i].pc != Wake && ThreadStep(s, i, s')
    ensures i < |s'.threads| && ThreadInv(s', i)
  {
    hide Total;
    assert ThreadInv(s, i);
    if s.word == 0 { NoOwner(s); }
    if Owns(s.threads[i]) { SoleOwner(s, i); }
  }

  lemma StepKeepsOther(s: State, i: nat, s': State, j: nat)
    requires Inv(s) && i < |s.threads| && s.threads[i].pc != Wake && ThreadStep(s, i, s')
    requires j < |s.threads| && j != i
    ensures j < |s'.threads| && ThreadInv(s', j)
  {
    hide Total;
    assert ThreadInv(s, i) && ThreadInv(s, j);
    if s.word == 0 { NoOwner(s); }
    if Owns(s.threads[i]) { SoleOwner(s, i); }
  }

  lemma StepKeepsTotals(s: State, i: nat, s': State)
    requires Inv(s) && i < |s.threads| && s.threads[i].pc != Wake && ThreadStep(s, i, s')
    ensures Total(s'.threads, OwnsW) == s'.word <= 1
    ensures NOBODY <= s'.owner < |s'.threads| && (s'.word == 0 ==> s'.recursion == 0)
    ensures s'.word == 0 && Total(s'.threads, AsleepW) > 0 ==> Total(s'.threads, PromptW) > 0
  {
    hide Total;
    assert ThreadInv(s, i);
    if s.word == 0 { NoOwner(s); }
    if Owns(s.threads[i]) { SoleOwner(s, i); }
    var t' := s'.threads[i];
    Moved(s, i, t');
    assert s'.threads == s.threads[i := t'];
    TotalAtLeast(s'.threads, i, PromptW);
  }

  lemma StepKeepsInv(s: State, i: nat, s': State)
    requires Inv(s) && i < |s.threads| && ThreadStep(s, i, s')
    ensures Inv(s')
  {
    if s.threads[i].pc == Wake {
      WakeKeepsInv(s, i, s');
    } else {
      StepKeepsTotals(s, i, s');
      forall j | 0 <= j < |s'.threads| ensures ThreadInv(s', j) {
        if j == i {
          StepKeepsItself(s, i, s');
        } else {
          StepKeepsOther(s, i, s', j);
        }
      }
    }
  }

  /** Leaving futex_wake and leaving the sleep queue touch nothing but the counter. */
  lemma QuietMove(s: State, i: nat, pc: Pc)
    requires i < |s.threads| && (s.threads[i].pc, pc) in {(Wake, Idle), (Asleep, Exchange)}
    requires forall j :: 0 <= j < |s.threads| ==> ThreadInv(s, j)
    ensures var s' := Goto(s, i, pc);
            && (forall j :: 0 <= j < |s'.threads| ==> ThreadInv(s', j))
            && Total(s'.threads, OwnsW) == Total(s.threads, OwnsW)
  {
    var s' := Goto(s, i, pc);
    TotalUpdate(s.threads, i, s'.threads[i], OwnsW);
    forall j | 0 <= j < |s'.threads| ensures ThreadInv(s', j) {
      assert ThreadInv(s, j);
    }
  }

  lemma WakeKeepsInv(s: State, i: nat, s': State)
    requires Inv(s) && i < |s.threads| && s.threads[i].pc == Wake && ThreadStep(s, i, s')
    ensures Inv(s')
  {
    var m := Goto(s, i, Idle);
    QuietMove(s, i, Idle);
    if s' == m {
      if j :| 0 <= j < |m.threads| && m.threads[j].pc == Asleep {
        assert false;
      }
      TotalZero(m.threads, AsleepW);
    } else {
      var j :| 0 <= j < |m.threads| && m.threads[j].pc == Asleep && s' == Goto(m, j, Exchange);
      QuietMove(m, j, Exchange);
      TotalAtLeast(s'.threads, j, PromptW);
    }
  }

  lemma SpawnKeepsInv(s: State, s': State)
    requires Inv(s) && Spawn(s, s')
    ensures Inv(s')
  {
    var t := Thread(Idle, 0);
    TotalAppend(s.threads, t, OwnsW);
    TotalAppend(s.threads, t, AsleepW);
    TotalAppend(s.threads, t, PromptW);
    forall j | 0 <= j < |s'.threads| ensures ThreadInv(s', j) {
      assert j < |s.threads| ==> ThreadInv(s, j);
    }
  }

  lemma InitInv(s: State)
    requires Init(s)
    ensures Inv(s)
  {
    TotalZero(s.threads, OwnsW);
    TotalZero(s.threads, AsleepW);
  }

  lemma {:induction false} RunInv(run: seq<State>, k: nat)
    requires IsRun(run) && k < |run|
    ensures Inv(run[k])
  {
    if k == 0 {
      InitInv(run[0]);
    } else {
      RunInv(run, k - 1);
      var s, s' := run[k - 1], run[k];
      assert Next(s, s');
      if Spawn(s, s') {
        SpawnKeepsInv(s, s');
      } else {
        var i :| 0 <= i < |s.threads| && ThreadStep(s, i, s');
        StepKeepsInv(s, i, s');
      }
    }
  }

  /** In every reachable state the lock word is 0 or 1; it is 1 exactly when some thread
      holds, is entering or is releasing the lock; and there is never a second one. */
  lemma WordIsOwnership(run: seq<State>, k: nat)
    requires IsRun(run) && k < |run|
    ensures var s := run[k];
            && s.word in {0, 1}
            && (s.word == 1 <==> exists i :: 0 <= i < |s.threads| && Owns(s.threads[i]))
            && (forall i, j | 0 <= i < |s.threads| && 0 <= j < |s.threads| ::
                  Owns(s.threads[i]) && Owns(s.threads[j]) ==> i == j)
  {
    var s := run[k];
    RunInv(run, k);
    if s.word == 1 {
      var i := TotalWitness(s.threads, OwnsW);
    } else {
      NoOwner(s);
    }
    forall i, j | 0 <= i < |s.threads| && 0 <= j < |s.threads|
                  && Owns(s.threads[i]) && Owns(s.threads[j]) ensures i == j {
      SoleOwner(s, i);
    }
  }

  /** The recursion field of a recursive mutex is exactly the nesting depth of its holder,
      and the lock word is cleared only by a thread whose own depth has reached zero, at a
      moment when nobody else holds the mutex either. */
  lemma ReleaseAtDepthZero(run: seq<State>, k: nat)
    requires IsRun(run) && k + 1 < |run|
    ensures forall i :: 0 <= i < |run[k].threads| && run[k].kind == Recursive && run[k].threads[i].nest > 0
                        ==> run[k].owner == i && run[k].recursion == run[k].threads[i].nest
    ensures run[k].word == 1 && run[k + 1].word == 0
            ==> forall i :: 0 <= i < |run[k].threads| ==> run[k].threads[i].nest == 0
  {
    var s, s' := run[k], run[k + 1];
    RunInv(run, k);
    forall i | 0 <= i < |s.threads| && s.kind == Recursive && s.threads[i].nest > 0
      ensures s.owner == i && s.recursion == s.threads[i].nest
    {
      assert ThreadInv(s, i);
    }
    assert Next(s, s');
    if s.word == 1 && s'.word == 0 {
      var i :| 0 <= i < |s.threads| && ThreadStep(s, i, s');
      assert s.threads[i].pc == StoreZero;
      assert ThreadInv(s, i);
      SoleOwner(s, i);
    }
  }

  /** A free mutex is as pthread_mutex_init left it: no owner, depth zero, nobody inside. */
  lemma FreeIsFresh(run: seq<State>, k: nat)
    requires IsRun(run) && k < |run| && run[k].word == 0
    ensures run[k].owner == NOBODY && run[k].recursion == 0
    ensures forall i :: 0 <= i < |run[k].threads| ==> run[k].threads[i].nest == 0
  {
    RunInv(run, k);
    NoOwner(run[k]);
    if run[k].owner >= 0 {
      OwnerOwns(run[k]);
    }
  }

  /** No wake-up is lost: while the word is 0, a sleeper is never alone, because another
      thread is awake to retry the exchange or still has its futex_wake to run. */
  lemma NoLostWakeup(run: seq<State>, k: nat, i: nat)
    requires IsRun(run) && k < |run|
    requires i < |run[k].threads| && run[k].threads[i].pc == Asleep && run[k].word == 0
    ensures exists j :: 0 <= j < |run[k].threads| && j != i
                        && run[k].threads[j].pc in {Exchange, FutexWait, Wake}
  {
    RunInv(run, k);
    TotalAtLeast(run[k].threads, i, AsleepW);
    var j := TotalWitness(run[k].threads, PromptW);
  }

  /** If every thread is asleep or outside the mutex, a sleeper is waiting for a holder. */
  lemma SleepersWaitForHolder(run: seq<State>, k: nat, i: nat)
    requires IsRun(run) && k < |run|
    requires forall j :: 0 <= j < |run[k].threads| ==> run[k].threads[j].pc in {Idle, Asleep}
    requires i < |run[k].threads| && run[k].threads[i].pc == Asleep
    ensures exists h :: 0 <= h < |run[k].threads| && run[k].threads[h].nest > 0
  {
    RunInv(run, k);
    if run[k].word == 0 {
      NoLostWakeup(run, k, i);
    }
    var h := TotalWitness(run[k].threads, OwnsW);
  }
}
