/** What a completed call of pthread_mutex_lock, pthread_mutex_trylock or
    pthread_mutex_unlock has done, whatever the other threads did meanwhile, and that a
    call which nobody stands in the way of can be completed. */
module MutexCalls {
  import opened Mutex

  // ---------------------------------------------------------------- one step, seen by one thread

  /** Thread i does not move, or is woken. */
  predicate Passive(t: Thread, t': Thread) {
    t' == t || (t.pc == Asleep && t' == t.(pc := Exchange))
  }

  lemma OtherSteps(s: State, j: nat, s': State, i: nat)
    requires j < |s.threads| && ThreadStep(s, j, s') && i < |s.threads| && i != j
    ensures s'.kind == s.kind && |s'.threads| == |s.threads| && Passive(s.threads[i], s'.threads[i])
  {
  }

  lemma OwnSteps(s: State, i: nat, s': State)
    requires i < |s.threads| && ThreadStep(s, i, s')
    ensures s'.kind == s.kind && |s'.threads| == |s.threads|
  {
  }

  /** A step of the whole system is a step of thread i, or leaves it alone, or wakes it. */
  lemma Effect(run: seq<State>, x: nat, i: nat)
    requires IsRun(run) && x + 1 < |run| && i < |run[x].threads|
    ensures Inv(run[x]) && run[x + 1].kind == run[x].kind && i < |run[x + 1].threads|
    ensures Passive(run[x].threads[i], run[x + 1].threads[i]) || ThreadStep(run[x], i, run[x + 1])
  {
    RunInv(run, x);
    var s, s' := run[x], run[x + 1];
    assert Next(s, s');
    hide Inv, ThreadStep;
    if !Spawn(s, s') {
      var j :| 0 <= j < |s.threads| && ThreadStep(s, j, s');
      if j == i {
        OwnSteps(s, i, s');
      } else {
        OtherSteps(s, j, s', i);
      }
    }
  }

  // ---------------------------------------------------------------- a call in a run

  /** Thread i entered the call that begins at `entry` in step k and returned in step m - 1. */
  ghost predicate Call(run: seq<State>, i: nat, entry: Pc, k: nat, m: nat) {
    && IsRun(run) && k + 1 < m < |run| && i < |run[k].threads|
    && (forall x :: k <= x <= m ==> |run[k].threads| <= |run[x].threads|)
    && run[k].threads[i].pc == Idle && run[k + 1].threads[i].pc == entry
    && (forall x :: k < x < m ==> run[x].threads[i].pc != Idle)
    && run[m].threads[i].pc == Idle
  }

  lemma CallBegins(run: seq<State>, i: nat, entry: Pc, k: nat, m: nat)
    requires Call(run, i, entry, k, m)
    ensures run[k + 1].threads[i] == run[k].threads[i].(pc := entry) && run[k + 1].kind == run[k].kind
    ensures entry in {LockCheck, TryCheck, UnlockCheck}
    ensures entry == UnlockCheck ==> run[k].threads[i].nest > 0 || run[k].kind == Recursive
  {
    Effect(run, k, i);
    EntryStep(run[k], i, run[k + 1]);
  }

  lemma EntryStep(s: State, i: nat, s': State)
    requires i < |s.threads| && ThreadStep(s, i, s') && s.threads[i].pc == Idle
    ensures i < |s'.threads| && s'.threads[i].nest == s.threads[i].nest
    ensures s'.threads[i].pc in {LockCheck, TryCheck, UnlockCheck}
    ensures s'.threads[i].pc == UnlockCheck ==> s.threads[i].nest > 0 || s.kind == Recursive
  {
  }

  const LOCKING: set<Pc> := {LockCheck, Exchange, FutexWait, Asleep, SetOwner, SetDepth}
  const TRYING: set<Pc> := {TryCheck, TryCas, SetOwner, SetDepth}

  /** A step of a thread inside pthread_mutex_lock. */
  lemma LockingStep(s: State, i: nat, s': State)
    requires Inv(s) && i < |s.threads| && ThreadStep(s, i, s') && s.threads[i].pc in LOCKING
    ensures i < |s'.threads|
    ensures var t, t' := s.threads[i], s'.threads[i];
            && ((t'.pc in LOCKING && t'.nest == t.nest) || (t'.pc == Idle && t'.nest == t.nest + 1))
            && (t'.pc == SetOwner ==> t.pc == Exchange && s.word == 0 && s'.word == 1)
            && (t'.pc == SetDepth ==> t.pc == SetOwner && s'.owner == i)
            && (t'.pc == Idle ==> t.pc == SetDepth || (t.pc == LockCheck && s.kind == Recursive && t.nest > 0))
  {
    assert ThreadInv(s, i);
  }

  /** Step e of the run is thread i's: it finds the word 0 and sets it. */
  ghost predicate Acquires(run: seq<State>, i: nat, e: nat) {
    && e + 1 < |run| && i < |run[e].threads| && i < |run[e + 1].threads|
    && run[e].threads[i].pc in {Exchange, TryCas} && run[e + 1].threads[i].pc == SetOwner
    && run[e].word == 0 && run[e + 1].word == 1
  }

  /** Thread i took the lock somewhere between k and x. */
  ghost predicate Acquired(run: seq<State>, i: nat, k: nat, x: nat) {
    exists e: nat :: k < e < x && Acquires(run, i, e)
  }

  ghost predicate Entering(t: Thread) {
    t.pc in {SetOwner, SetDepth}
  }

  lemma {:induction false} LockingTo(run: seq<State>, i: nat, k: nat, m: nat, x: nat)
    requires Call(run, i, LockCheck, k, m) && k < x < m
    ensures run[x].threads[i].pc in LOCKING && run[x].threads[i].nest == run[k].threads[i].nest
    ensures run[x].kind == run[k].kind
    ensures Entering(run[x].threads[i]) ==> Acquired(run, i, k, x)
  {
    hide Inv, ThreadStep, Acquired, IsRun;
    if x == k + 1 {
      CallBegins(run, i, LockCheck, k, m);
    } else {
      LockingTo(run, i, k, m, x - 1);
      Effect(run, x - 1, i);
      LockingOn(run, i, k, x - 1);
    }
  }

  lemma LockingOn(run: seq<State>, i: nat, k: nat, x: nat)
    requires k < x && x + 1 < |run| && i < |run[x].threads| && i < |run[x + 1].threads|
    requires Inv(run[x]) && run[x].threads[i].pc in LOCKING
    requires Passive(run[x].threads[i], run[x + 1].threads[i]) || ThreadStep(run[x], i, run[x + 1])
    requires Entering(run[x].threads[i]) ==> Acquired(run, i, k, x)
    ensures var t, t' := run[x].threads[i], run[x + 1].threads[i];
            || (t'.pc in LOCKING && t'.nest == t.nest && (Entering(t') ==> Acquired(run, i, k, x + 1)))
            || (t'.pc == Idle && t'.nest == t.nest + 1 &&
                (Acquired(run, i, k, x + 1) || (run[x].kind == Recursive && t.nest > 0)))
  {
    if !Passive(run[x].threads[i], run[x + 1].threads[i]) {
      LockingStep(run[x], i, run[x + 1]);
      hide ThreadStep, Inv;
      if run[x + 1].threads[i].pc == SetOwner {
        assert Acquires(run, i, x);
      }
    }
  }

  /** Thread i holds the mutex. */
  predicate Holds(s: State, i: nat) {
    i < |s.threads| && s.threads[i].nest > 0 && s.word == 1 && s.owner == i && s.recursion == s.threads[i].nest
  }

  lemma NestHolds(s: State, i: nat)
    requires Inv(s) && i < |s.threads| && s.threads[i].nest > 0
    ensures Holds(s, i) && (s.kind == Normal ==> s.threads[i].nest == 1)
  {
    assert ThreadInv(s, i);
    SoleOwner(s, i);
  }

  /** A completed pthread_mutex_lock raises the caller's depth by exactly one and leaves it
      holding the mutex. It set the word from 0 to 1 itself, unless it held a recursive
      mutex already. */
  lemma LockTakes(run: seq<State>, i: nat, k: nat, m: nat)
    requires Call(run, i, LockCheck, k, m)
    ensures run[m].threads[i].nest == run[k].threads[i].nest + 1 && Holds(run[m], i)
    ensures if run[k].threads[i].nest == 0 then Acquired(run, i, k, m)
            else run[k].kind == Recursive && Holds(run[k], i)
  {
    hide Inv, ThreadStep, Acquired, IsRun, Holds;
    LockingTo(run, i, k, m, m - 1);
    Effect(run, m - 1, i);
    LockingOn(run, i, k, m - 1);
    RunInv(run, k);
    RunInv(run, m);
    NestHolds(run[m], i);
    if run[k].threads[i].nest > 0 {
      NestHolds(run[k], i);
    }
  }

  // ---------------------------------------------------------------- pthread_mutex_trylock

  /** If step x is thread i's, it touches nothing but that thread's own counter. */
  ghost predicate QuietAt(run: seq<State>, i: nat, x: nat) {
    x + 1 < |run| && i < |run[x].threads| && i < |run[x + 1].threads| &&
    (run[x + 1].threads[i] != run[x].threads[i] ==>
       run[x + 1] == run[x].(threads := run[x].threads[i := run[x + 1].threads[i]]))
  }

  /** None of thread i's steps from k to x touches anything but its own counter. */
  ghost predicate Quiet(run: seq<State>, i: nat, k: nat, x: nat) {
    forall y: nat :: k <= y < x ==> QuietAt(run, i, y)
  }

  /** Step e is the compare of trylock, and this is whether it found 0. */
  ghost predicate Compares(run: seq<State>, i: nat, e: nat, free: bool) {
    && e + 1 < |run| && i < |run[e].threads| && i < |run[e + 1].threads|
    && run[e].threads[i].pc == TryCas && run[e + 1].threads[i].pc == (if free then SetOwner else Idle)
    && free == (run[e].word == 0) && run[e + 1].word == 1
  }

  ghost predicate Compared(run: seq<State>, i: nat, k: nat, x: nat, free: bool) {
    exists e: nat :: k < e < x && Compares(run, i, e, free)
  }

  /** Where a thread stands that began to try at depth n in step k. */
  ghost predicate TryPhase(run: seq<State>, i: nat, k: nat, n: nat, x: nat) {
    x < |run| && i < |run[x].threads| &&
    var s, t := run[x], run[x].threads[i];
    var again := s.kind == Recursive && n > 0;
    match t.pc
    case TryCheck => t.nest == n && Quiet(run, i, k, x)
    case TryCas => t.nest == n && !again && Quiet(run, i, k, x)
    case SetOwner => t.nest == n && !again && Compared(run, i, k, x, true)
    case SetDepth => t.nest == n && !again && Compared(run, i, k, x, true)
    case Idle =>
      if again then t.nest == n + 1
      else || (t.nest == n + 1 && Compared(run, i, k, x, true))
           || (t.nest == n && Compared(run, i, k, x, false) && Quiet(run, i, k, x))
    case _ => false
  }

  lemma QuietMore(run: seq<State>, i: nat, k: nat, x: nat)
    requires Quiet(run, i, k, x) && QuietAt(run, i, x)
    ensures Quiet(run, i, k, x + 1)
  {
  }

  lemma TryOn(run: seq<State>, i: nat, k: nat, n: nat, x: nat)
    requires TryPhase(run, i, k, n, x) && run[x].threads[i].pc != Idle && k < x && x + 1 < |run|
    requires Inv(run[x]) && i < |run[x + 1].threads| && run[x + 1].kind == run[x].kind
    requires Passive(run[x].threads[i], run[x + 1].threads[i]) || ThreadStep(run[x], i, run[x + 1])
    ensures TryPhase(run, i, k, n, x + 1)
  {
    hide Quiet;
    var s, s' := run[x], run[x + 1];
    if Passive(s.threads[i], s'.threads[i]) {
      if Quiet(run, i, k, x) {
        QuietMore(run, i, k, x);
      }
    } else {
      TryOwn(run, i, k, n, x);
    }
  }

  lemma TryOwn(run: seq<State>, i: nat, k: nat, n: nat, x: nat)
    requires TryPhase(run, i, k, n, x) && run[x].threads[i].pc != Idle && k < x && x + 1 < |run|
    requires Inv(run[x]) && i < |run[x + 1].threads| && run[x + 1].kind == run[x].kind
    requires ThreadStep(run[x], i, run[x + 1])
    ensures TryPhase(run, i, k, n, x + 1)
  {
    hide Quiet;
    var s, s' := run[x], run[x + 1];
    assert ThreadInv(s, i);
    match s.threads[i].pc {
      case TryCheck =>
        if s'.threads[i].pc == TryCas {
          QuietMore(run, i, k, x);
        }
      case TryCas =>
        assert s.word <= 1;
        assert Compares(run, i, x, s.word == 0);
        if s.word != 0 {
          QuietMore(run, i, k, x);
        }
      case _ =>
    }
  }

  lemma {:induction false} TryTo(run: seq<State>, i: nat, k: nat, m: nat, x: nat)
    requires Call(run, i, TryCheck, k, m) && k < x <= m
    ensures TryPhase(run, i, k, run[k].threads[i].nest, x) && run[x].kind == run[k].kind
  {
    hide Inv, ThreadStep, Compared, IsRun;
    Effect(run, x - 1, i);
    if x == k + 1 {
      CallBegins(run, i, TryCheck, k, m);
      EntryQuiet(run, i, k);
    } else {
      TryTo(run, i, k, m, x - 1);
      TryOn(run, i, k, run[k].threads[i].nest, x - 1);
    }
  }

  lemma EntryQuiet(run: seq<State>, i: nat, k: nat)
    requires k + 1 < |run| && i < |run[k].threads| && i < |run[k + 1].threads| && run[k].threads[i].pc == Idle
    requires Passive(run[k].threads[i], run[k + 1].threads[i]) || ThreadStep(run[k], i, run[k + 1])
    ensures Quiet(run, i, k, k + 1)
  {
    assert QuietAt(run, i, k);
  }

  /** A completed pthread_mutex_trylock raises the caller's depth by one exactly when it held
      a recursive mutex already or its compare found the word 0, and otherwise, the compare
      having found the word set, leaves the depth alone and has touched nothing. */
  lemma TryLockTakes(run: seq<State>, i: nat, k: nat, m: nat)
    requires Call(run, i, TryCheck, k, m)
    ensures var n, n' := run[k].threads[i].nest, run[m].threads[i].nest;
            if run[k].kind == Recursive && n > 0 then n' == n + 1
            else || (n' == n + 1 && Compared(run, i, k, m, true))
                 || (n' == n && Compared(run, i, k, m, false) && Quiet(run, i, k, m))
  {
    TryTo(run, i, k, m, m);
  }

  // ---------------------------------------------------------------- pthread_mutex_unlock

  /** Step e is thread i's store: the word goes from 1 to 0. */
  ghost predicate Releases(run: seq<State>, i: nat, e: nat) {
    && e + 1 < |run| && i < |run[e].threads| && i < |run[e + 1].threads|
    && run[e].threads[i].pc == StoreZero && run[e + 1].threads[i].pc == Wake
    && run[e].word == 1 && run[e + 1].word == 0
  }

  /** Step e is thread i's futex_wake: a sleeper goes back to the exchange, unless nobody slept. */
  ghost predicate Wakes(run: seq<State>, i: nat, e: nat) {
    && e + 1 < |run| && i < |run[e].threads| && i < |run[e + 1].threads|
    && run[e].threads[i].pc == Wake && run[e + 1].threads[i].pc == Idle
    && |run[e + 1].threads| == |run[e].threads|
    && ((exists j :: 0 <= j < |run[e].threads| && run[e].threads[j].pc == Asleep) ==>
          exists j :: 0 <= j < |run[e].threads| && run[e].threads[j].pc == Asleep && run[e + 1].threads[j].pc == Exchange)
  }

  ghost predicate Released(run: seq<State>, i: nat, k: nat, x: nat) {
    exists e: nat :: k < e < x && Releases(run, i, e)
  }

  /** The store, and after it the wake-up. */
  ghost predicate ReleasedAndWoke(run: seq<State>, i: nat, k: nat, x: nat) {
    exists e: nat :: k < e < x && Wakes(run, i, e) && Released(run, i, k, e)
  }

  /** Where a thread stands that began to unlock at depth n in step k. */
  ghost predicate UnlockPhase(run: seq<State>, i: nat, k: nat, n: nat, x: nat) {
    x < |run| && i < |run[x].threads| &&
    var s, t := run[x], run[x].threads[i];
    match t.pc
    case UnlockCheck => t.nest == n && Quiet(run, i, k, x)
    case Decrement => t.nest == n
    case ClearDepth => n == 1 && t.nest == 0
    case ClearOwner => n == 1 && t.nest == 0
    case StoreZero => n == 1 && t.nest == 0
    case Wake => n == 1 && t.nest == 0 && Released(run, i, k, x)
    case Idle =>
      if n == 0 then s.kind == Recursive && t.nest == 0 && Quiet(run, i, k, x)
      else t.nest == n - 1 && (n == 1 ==> ReleasedAndWoke(run, i, k, x))
    case _ => false
  }

  lemma UnlockOn(run: seq<State>, i: nat, k: nat, n: nat, x: nat)
    requires UnlockPhase(run, i, k, n, x) && run[x].threads[i].pc != Idle && k < x && x + 1 < |run|
    requires Inv(run[x]) && i < |run[x + 1].threads| && run[x + 1].kind == run[x].kind
    requires Passive(run[x].threads[i], run[x + 1].threads[i]) || ThreadStep(run[x], i, run[x + 1])
    ensures UnlockPhase(run, i, k, n, x + 1)
  {
    hide Quiet;
    var s, s' := run[x], run[x + 1];
    if Passive(s.threads[i], s'.threads[i]) {
      if Quiet(run, i, k, x) {
        QuietMore(run, i, k, x);
      }
    } else {
      UnlockOwn(run, i, k, n, x);
    }
  }

  lemma UnlockOwn(run: seq<State>, i: nat, k: nat, n: nat, x: nat)
    requires UnlockPhase(run, i, k, n, x) && run[x].threads[i].pc != Idle && k < x && x + 1 < |run|
    requires Inv(run[x]) && i < |run[x + 1].threads| && run[x + 1].kind == run[x].kind
    requires ThreadStep(run[x], i, run[x + 1])
    ensures UnlockPhase(run, i, k, n, x + 1)
  {
    hide Quiet;
    var s, s' := run[x], run[x + 1];
    assert ThreadInv(s, i);
    match s.threads[i].pc {
      case UnlockCheck =>
        if s'.threads[i].pc == Idle {
          QuietMore(run, i, k, x);
        }
      case StoreZero =>
        SoleOwner(s, i);
        assert Releases(run, i, x);
      case Wake =>
        WakeWakes(run, i, x);
      case _ =>
    }
  }

  lemma WakeWakes(run: seq<State>, i: nat, x: nat)
    requires x + 1 < |run| && i < |run[x].threads| && run[x].threads[i].pc == Wake && ThreadStep(run[x], i, run[x + 1])
    ensures Wakes(run, i, x)
  {
    var s, s' := run[x], run[x + 1];
    var q := Goto(s, i, Idle);
    if j :| 0 <= j < |s.threads| && s.threads[j].pc == Asleep {
      assert q.threads[j].pc == Asleep;
      var h :| 0 <= h < |q.threads| && q.threads[h].pc == Asleep && s' == Goto(q, h, Exchange);
      assert s.threads[h].pc == Asleep && s'.threads[h].pc == Exchange;
    }
  }

  lemma {:induction false} UnlockTo(run: seq<State>, i: nat, k: nat, m: nat, x: nat)
    requires Call(run, i, UnlockCheck, k, m) && k < x <= m
    ensures UnlockPhase(run, i, k, run[k].threads[i].nest, x) && run[x].kind == run[k].kind
  {
    hide Inv, ThreadStep, Released, ReleasedAndWoke, IsRun;
    Effect(run, x - 1, i);
    if x == k + 1 {
      CallBegins(run, i, UnlockCheck, k, m);
      EntryQuiet(run, i, k);
    } else {
      UnlockTo(run, i, k, m, x - 1);
      UnlockOn(run, i, k, run[k].threads[i].nest, x - 1);
    }
  }

  /** A completed pthread_mutex_unlock by the holder lowers its depth by exactly one; when
      that was the last, it stored 0 in the word and after that woke a sleeper if there was
      one. By a thread that does not hold it, which only a recursive mutex allows, it has
      touched nothing. */
  lemma UnlockGives(run: seq<State>, i: nat, k: nat, m: nat)
    requires Call(run, i, UnlockCheck, k, m)
    ensures var n, n' := run[k].threads[i].nest, run[m].threads[i].nest;
            if n == 0 then run[k].kind == Recursive && n' == 0 && Quiet(run, i, k, m)
            else n' == n - 1 && (n == 1 ==> ReleasedAndWoke(run, i, k, m)) && (n > 1 ==> Holds(run[m], i))
  {
    hide Inv, IsRun, ReleasedAndWoke, Quiet;
    UnlockTo(run, i, k, m, m);
    if run[m].threads[i].nest > 0 {
      RunInv(run, m);
      NestHolds(run[m], i);
    }
  }

  // ---------------------------------------------------------------- completing a call

  /** Where a thread outside every call, or asleep, may go: into either lock at any time, into
      unlock on a normal mutex only while it holds it, and back to the exchange from its sleep. */
  lemma MayStart(s: State, i: nat, entry: Pc)
    requires i < |s.threads| && s.threads[i].pc in {Idle, Asleep}
    ensures ThreadStep(s, i, Goto(s, i, entry)) <==>
            if s.threads[i].pc == Asleep then entry == Exchange
            else || entry in {LockCheck, TryCheck}
                 || (entry == UnlockCheck && (s.threads[i].nest > 0 || s.kind == Recursive))
  {
    assert forall pc :: Goto(s, i, pc).threads[i].pc == pc;
  }

  ghost predicate OwnStep(s: State, i: nat, s': State) {
    i < |s.threads| && s.threads[i].pc != Asleep && ThreadStep(s, i, s')
  }

  /** Steps of thread i alone, none of them a spurious wake-up. */
  ghost predicate OwnPath(path: seq<State>, i: nat) {
    |path| > 0 && forall x :: 0 <= x < |path| - 1 ==> OwnStep(path[x], i, path[x + 1])
  }

  /** Asleep, or in pthread_mutex_lock before a mutex that is taken. */
  predicate Blocked(s: State, i: nat) {
    && i < |s.threads|
    && (|| s.threads[i].pc == Asleep
        || (&& s.threads[i].pc in {LockCheck, Exchange, FutexWait}
            && s.word == 1 && !(s.kind == Recursive && s.owner == i)))
  }

  /** How many steps a call that is not blocked still has before it, at the most. */
  function Ahead(pc: Pc): nat {
    match pc
    case Idle => 0
    case SetDepth => 1
    case Wake => 1
    case SetOwner => 2
    case StoreZero => 2
    case UnlockCheck => 5
    case LockCheck => 4
    case FutexWait => 4
    case TryCheck => 4
    case Decrement => 4
    case _ => 3
  }

  lemma ForwardIn(s: State, i: nat) returns (s': State)
    requires Inv(s) && i < |s.threads| && s.threads[i].pc in LOCKING + TRYING && !Blocked(s, i)
    ensures OwnStep(s, i, s') && i < |s'.threads| && !Blocked(s', i)
    ensures Ahead(s'.threads[i].pc) < Ahead(s.threads[i].pc)
  {
    assert ThreadInv(s, i);
    var t := s.threads[i];
    match t.pc {
      case LockCheck =>
        s' := if s.kind == Recursive && s.owner == i
              then Put(s, i, Thread(Idle, t.nest + 1)).(recursion := s.recursion + 1) else Goto(s, i, Exchange);
      case Exchange => s' := Goto(s, i, SetOwner).(word := 1);
      case FutexWait => s' := Goto(s, i, Exchange);
      case SetOwner => s' := Goto(s, i, SetDepth).(owner := i);
      case SetDepth => s' := Put(s, i, Thread(Idle, t.nest + 1)).(recursion := 1);
      case TryCheck =>
        s' := if s.kind == Recursive && s.owner == i
              then Put(s, i, Thread(Idle, t.nest + 1)).(recursion := s.recursion + 1) else Goto(s, i, TryCas);
      case TryCas => s' := if s.word == 0 then Goto(s, i, SetOwner).(word := 1) else Goto(s, i, Idle);
    }
  }

  lemma ForwardOut(s: State, i: nat) returns (s': State)
    requires Inv(s) && i < |s.threads| && s.threads[i].pc !in LOCKING + TRYING + {Idle}
    ensures OwnStep(s, i, s') && i < |s'.threads| && !Blocked(s', i)
    ensures Ahead(s'.threads[i].pc) < Ahead(s.threads[i].pc)
  {
    assert ThreadInv(s, i);
    var t := s.threads[i];
    match t.pc {
      case UnlockCheck =>
        s' := if s.kind == Normal then Put(s, i, Thread(ClearDepth, t.nest - 1)).(owner := NOBODY)
              else Goto(s, i, if s.owner == i then Decrement else Idle);
      case Decrement =>
        s' := Put(s, i, Thread(if s.recursion - 1 > 0 then Idle else ClearOwner, t.nest - 1)).(recursion := s.recursion - 1);
      case ClearDepth => s' := Goto(s, i, StoreZero).(recursion := 0);
      case ClearOwner => s' := Goto(s, i, StoreZero).(owner := NOBODY);
      case StoreZero => s' := Goto(s, i, Wake).(word := 0);
      case Wake => s' := WakeForward(s, i);
    }
  }

  lemma WakeForward(s: State, i: nat) returns (s': State)
    requires i < |s.threads| && s.threads[i].pc == Wake
    ensures ThreadStep(s, i, s') && i < |s'.threads| && s'.threads[i].pc == Idle
  {
    var q := Goto(s, i, Idle);
    if j :| 0 <= j < |q.threads| && q.threads[j].pc == Asleep {
      s' := Goto(q, j, Exchange);
    } else {
      s' := q;
    }
  }

  lemma {:induction false} Finish(s: State, i: nat) returns (path: seq<State>)
    requires Inv(s) && i < |s.threads| && !Blocked(s, i)
    ensures OwnPath(path, i) && path[0] == s && |path| <= Ahead(s.threads[i].pc) + 1
    ensures var last := path[|path| - 1]; i < |last.threads| && last.threads[i].pc == Idle
    decreases Ahead(s.threads[i].pc)
  {
    hide Inv, ThreadStep, Blocked;
    if s.threads[i].pc == Idle {
      path := [s];
    } else {
      var s';
      if s.threads[i].pc in LOCKING + TRYING {
        s' := ForwardIn(s, i);
      } else {
        s' := ForwardOut(s, i);
      }
      StepKeepsInv(s, i, s');
      var rest := Finish(s', i);
      path := [s] + rest;
    }
  }

  lemma BlockedStep(s: State, i: nat, s': State)
    requires Blocked(s, i) && OwnStep(s, i, s')
    ensures Blocked(s', i)
  {
  }

  lemma {:induction false} BlockedStays(path: seq<State>, i: nat, x: nat)
    requires OwnPath(path, i) && Blocked(path[0], i) && x < |path|
    ensures Blocked(path[x], i)
  {
    if x > 0 {
      BlockedStays(path, i, x - 1);
      BlockedStep(path[x - 1], i, path[x]);
    }
  }

  /** In every reachable state a thread can bring its call to its end by its own steps, five
      at the most, exactly when it is neither asleep nor in pthread_mutex_lock before a mutex
      that is taken. */
  lemma FinishesIff(run: seq<State>, k: nat, i: nat)
    requires IsRun(run) && k < |run| && i < |run[k].threads|
    ensures !Blocked(run[k], i) <==>
            exists path: seq<State> ::
              OwnPath(path, i) && path[0] == run[k] && |path| <= 6 && i < |path[|path| - 1].threads| &&
              path[|path| - 1].threads[i].pc == Idle
  {
    RunInv(run, k);
    hide Inv, ThreadStep, OwnPath, IsRun;
    if Blocked(run[k], i) {
      forall path: seq<State> | OwnPath(path, i) && |path| > 0 && path[0] == run[k]
        ensures Blocked(path[|path| - 1], i)
      {
        BlockedStays(path, i, |path| - 1);
      }
    } else {
      var path := Finish(run[k], i);
    }
  }

  /** How many steps there are before a blocked thread sleeps. */
  function ToSleep(pc: Pc): nat {
    match pc
    case LockCheck => 3
    case Exchange => 2
    case FutexWait => 1
    case _ => 0
  }

  lemma SleepStep(s: State, i: nat) returns (s': State)
    requires Blocked(s, i) && s.threads[i].pc != Asleep
    ensures OwnStep(s, i, s') && Blocked(s', i) && ToSleep(s'.threads[i].pc) + 1 == ToSleep(s.threads[i].pc)
  {
    match s.threads[i].pc {
      case LockCheck => s' := Goto(s, i, Exchange);
      case Exchange => s' := Goto(s, i, FutexWait).(word := 1);
      case FutexWait => s' := Goto(s, i, Asleep);
    }
  }

  /** A blocked thread that stays blocked is asleep after three more steps of its own at the latest. */
  lemma {:induction false} BlockedSleeps(s: State, i: nat) returns (path: seq<State>)
    requires Blocked(s, i)
    ensures OwnPath(path, i) && path[0] == s && |path| == ToSleep(s.threads[i].pc) + 1 <= 4
    ensures var last := path[|path| - 1]; i < |last.threads| && last.threads[i].pc == Asleep
    decreases ToSleep(s.threads[i].pc)
  {
    hide OwnStep;
    if s.threads[i].pc == Asleep {
      path := [s];
    } else {
      var s' := SleepStep(s, i);
      var rest := BlockedSleeps(s', i);
      path := [s] + rest;
    }
  }
}
