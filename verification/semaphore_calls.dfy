/** What a completed call of sem_wait, sem_trywait or sem_post has done, whatever the other
    threads did meanwhile, and when a call can be completed. */
module SemaphoreCalls {
  import opened Semaphore

  // ---------------------------------------------------------------- one step, seen by one thread

  /** The thread does not move, or is woken. */
  predicate Passive(t: Thread, t': Thread) {
    t' == t || (t.pc == Asleep && t' == t.(pc := WaitLoad))
  }

  ghost predicate Steps(s: State, i: nat, s': State) {
    i < |s.threads| && exists call, weak :: ThreadStep(s, i, call, weak, s')
  }

  lemma OtherSteps(s: State, j: nat, call: Call, weak: bool, s': State, i: nat)
    requires j < |s.threads| && ThreadStep(s, j, call, weak, s') && i < |s.threads| && i != j
    ensures |s'.threads| == |s.threads| && Passive(s.threads[i], s'.threads[i])
    ensures s'.threads[i] == s.threads[i] || s'.sh == s.sh
  {
  }

  /** A step of the whole system is a step of thread i, or leaves it alone, or wakes it. */
  lemma Effect(run: seq<State>, x: nat, i: nat)
    requires IsRun(run) && x + 1 < |run| && i < |run[x].threads|
    ensures Inv(run[x]) && i < |run[x + 1].threads|
    ensures || (Passive(run[x].threads[i], run[x + 1].threads[i]) && QuietAt(run, i, x))
            || Steps(run[x], i, run[x + 1])
  {
    RunInv(run, x);
    var s, s' := run[x], run[x + 1];
    assert Next(s, s');
    hide Inv, ThreadStep;
    if s' != s.(threads := s.threads + [Thread(Idle, 0)]) {
      var j, call, weak :| 0 <= j < |s.threads| && ThreadStep(s, j, call, weak, s');
      if j == i {
        OwnSteps(s, i, call, weak, s');
      } else {
        OtherSteps(s, j, call, weak, s', i);
      }
    }
  }

  lemma OwnSteps(s: State, i: nat, call: Call, weak: bool, s': State)
    requires i < |s.threads| && ThreadStep(s, i, call, weak, s')
    ensures |s'.threads| == |s.threads|
    ensures s'.threads[i] == Local(s.sh, s.threads[i], call, weak) && s'.sh == Global(s.sh, s.threads[i], weak)
  {
  }

  // ---------------------------------------------------------------- a call in a run

  /** Thread i entered the call that begins at `entry` in step k and returned in step m - 1. */
  ghost predicate Called(run: seq<State>, i: nat, entry: Pc, k: nat, m: nat) {
    && IsRun(run) && k + 1 < m < |run| && i < |run[k].threads|
    && (forall x :: k <= x <= m ==> |run[k].threads| <= |run[x].threads|)
    && run[k].threads[i].pc == Idle && run[k + 1].threads[i].pc == entry
    && (forall x :: k < x < m ==> run[x].threads[i].pc != Idle)
    && run[m].threads[i].pc == Idle
  }

  /** If step x moves thread i, it leaves the semaphore as it is. */
  ghost predicate QuietAt(run: seq<State>, i: nat, x: nat) {
    x + 1 < |run| && i < |run[x].threads| && i < |run[x + 1].threads| &&
    (run[x + 1].threads[i] != run[x].threads[i] ==> run[x + 1].sh == run[x].sh)
  }

  ghost predicate Quiet(run: seq<State>, i: nat, k: nat, x: nat) {
    forall y: nat :: k <= y < x ==> QuietAt(run, i, y)
  }

  /** Step e of the run is thread i's and takes one unit of those there are. */
  ghost predicate Takes(run: seq<State>, i: nat, e: nat) {
    && e + 1 < |run| && i < |run[e].threads| && i < |run[e + 1].threads|
    && run[e + 1].threads[i] != run[e].threads[i] && run[e].sh.count > 0
    && run[e + 1].sh == run[e].sh.(count := run[e].sh.count - 1, taken := run[e].sh.taken + 1)
  }

  /** Step e of the run is thread i's and adds one unit, modulo 2^32. */
  ghost predicate Adds(run: seq<State>, i: nat, e: nat) {
    && e + 1 < |run| && i < |run[e].threads| && i < |run[e + 1].threads|
    && run[e + 1].threads[i] != run[e].threads[i] && run[e + 1].sh.posts == run[e].sh.posts + 1
    && run[e + 1].sh.count == run[e].sh.count + 1 - (if run[e].sh.count == INT_MAX then UINT_SPAN else 0)
  }

  /** Step e of the run is thread i's and wakes a sleeper, unless nobody sleeps. */
  ghost predicate Wakes(run: seq<State>, i: nat, e: nat) {
    && e + 1 < |run| && i < |run[e].threads| && |run[e + 1].threads| == |run[e].threads|
    && run[e + 1].threads[i] != run[e].threads[i]
    && ((exists j :: 0 <= j < |run[e].threads| && run[e].threads[j].pc == Asleep) ==>
          exists j :: 0 <= j < |run[e].threads| && run[e].threads[j].pc == Asleep && run[e + 1].threads[j].pc == WaitLoad)
  }

  /** One addition, nothing else. */
  ghost predicate AddedOnce(run: seq<State>, i: nat, k: nat, x: nat) {
    exists e: nat :: k < e < x && Adds(run, i, e) && forall y: nat :: k <= y < x && y != e ==> QuietAt(run, i, y)
  }

  const WAITING: set<Pc> := {WaitLoad, WaitCas, WaitFutex, Asleep}
  const TRYING: set<Pc> := {TryLoad, TryCas}

  /** What sem_trywait answers: 0 when it leaves its loop with a unit, EAGAIN when it runs out of it. */
  predicate Succeeded(t: Thread) {
    t.val > 0
  }

  /** Where a thread stands that entered a call in step k. */
  ghost predicate Phase(run: seq<State>, i: nat, entry: Pc, k: nat, x: nat) {
    k < x < |run| && i < |run[x].threads| &&
    var t := run[x].threads[i];
    if t.pc == Idle then
      if entry == WaitLoad then Quiet(run, i, k, x - 1) && Takes(run, i, x - 1)
      else if entry == TryLoad then
        Quiet(run, i, k, x - 1) &&
        (if Succeeded(t) then Takes(run, i, x - 1) else QuietAt(run, i, x - 1) && run[x - 1].sh.count <= 0)
      else AddedOnce(run, i, k, x) && Wakes(run, i, x - 1)
    else if entry == WaitLoad then t.pc in WAITING && Quiet(run, i, k, x)
    else if entry == TryLoad then t.pc in TRYING && Quiet(run, i, k, x)
    else if t.pc == PostAdd then Quiet(run, i, k, x)
    else t.pc == PostWake && AddedOnce(run, i, k, x)
  }

  lemma PhaseRests(run: seq<State>, i: nat, entry: Pc, k: nat, x: nat)
    requires Phase(run, i, entry, k, x) && run[x].threads[i].pc != Idle && x + 1 < |run| && i < |run[x + 1].threads|
    requires Passive(run[x].threads[i], run[x + 1].threads[i]) && QuietAt(run, i, x)
    ensures Phase(run, i, entry, k, x + 1)
  {
    if run[x].threads[i].pc == PostWake {
      var e: nat :| k < e < x && Adds(run, i, e) && forall y: nat :: k <= y < x && y != e ==> QuietAt(run, i, y);
      assert AddedOnce(run, i, k, x + 1);
    }
  }

  lemma PhaseMoves(run: seq<State>, i: nat, entry: Pc, k: nat, x: nat)
    requires Phase(run, i, entry, k, x) && run[x].threads[i].pc in WAITING + TRYING && x + 1 < |run|
    requires Inv(run[x]) && i < |run[x + 1].threads| && Steps(run[x], i, run[x + 1])
    ensures Phase(run, i, entry, k, x + 1)
  {
    assert ThreadInv(run[x].threads[i]);
    hide Inv;
    assert Quiet(run, i, k, x);
    if run[x + 1].threads[i].pc != Idle {
      assert QuietAt(run, i, x);
      assert Quiet(run, i, k, x + 1);
    }
  }

  lemma PhasePosts(run: seq<State>, i: nat, entry: Pc, k: nat, x: nat)
    requires Phase(run, i, entry, k, x) && run[x].threads[i].pc in {PostAdd, PostWake} && x + 1 < |run|
    requires Inv(run[x]) && i < |run[x + 1].threads| && Steps(run[x], i, run[x + 1])
    ensures Phase(run, i, entry, k, x + 1)
  {
    if run[x].threads[i].pc == PostAdd {
      assert LedgerInv(run[x].sh);
      assert Adds(run, i, x);
      assert AddedOnce(run, i, k, x + 1);
    } else {
      var e: nat :| k < e < x && Adds(run, i, e) && forall y: nat :: k <= y < x && y != e ==> QuietAt(run, i, y);
      assert QuietAt(run, i, x);
      assert AddedOnce(run, i, k, x + 1);
      WakeWakes(run, i, x);
    }
  }

  lemma WakeWakes(run: seq<State>, i: nat, x: nat)
    requires x + 1 < |run| && i < |run[x].threads| && run[x].threads[i].pc == PostWake && Steps(run[x], i, run[x + 1])
    ensures Wakes(run, i, x)
  {
    var s, s' := run[x], run[x + 1];
    var call, weak :| ThreadStep(s, i, call, weak, s');
    var q := Moved(s, i, call, weak);
    if j :| 0 <= j < |s.threads| && s.threads[j].pc == Asleep {
      assert q.threads[j].pc == Asleep;
      var h :| 0 <= h < |q.threads| && q.threads[h].pc == Asleep
               && s' == q.(threads := q.threads[h := q.threads[h].(pc := WaitLoad)]);
      assert s.threads[h].pc == Asleep && s'.threads[h].pc == WaitLoad;
    }
  }

  lemma Entered(run: seq<State>, i: nat, k: nat)
    requires k + 1 < |run| && i < |run[k].threads| && i < |run[k + 1].threads| && run[k].threads[i].pc == Idle
    requires Steps(run[k], i, run[k + 1])
    ensures run[k + 1].threads[i].pc in {WaitLoad, TryLoad, PostAdd} && Quiet(run, i, k, k + 1)
  {
    assert QuietAt(run, i, k);
  }

  lemma {:induction false} PhaseTo(run: seq<State>, i: nat, entry: Pc, k: nat, m: nat, x: nat)
    requires Called(run, i, entry, k, m) && k < x <= m
    ensures Phase(run, i, entry, k, x)
  {
    hide Inv, Steps, Quiet, IsRun;
    Effect(run, x - 1, i);
    if x == k + 1 {
      Entered(run, i, k);
    } else {
      PhaseTo(run, i, entry, k, m, x - 1);
      if Steps(run[x - 1], i, run[x]) {
        if run[x - 1].threads[i].pc in {PostAdd, PostWake} {
          PhasePosts(run, i, entry, k, x - 1);
        } else {
          PhaseMoves(run, i, entry, k, x - 1);
        }
      } else {
        PhaseRests(run, i, entry, k, x - 1);
      }
    }
  }

  /** A completed sem_wait took exactly one unit, in its last step, when there was one to take,
      and left the semaphore alone before that. */
  lemma WaitTakesOne(run: seq<State>, i: nat, k: nat, m: nat)
    requires Called(run, i, WaitLoad, k, m)
    ensures Quiet(run, i, k, m - 1) && Takes(run, i, m - 1)
  {
    PhaseTo(run, i, WaitLoad, k, m, m);
  }

  /** So did a sem_trywait that answers 0; one that answers EAGAIN found no unit in its last
      step and left the semaphore alone. */
  lemma TryWaitTakesOne(run: seq<State>, i: nat, k: nat, m: nat)
    requires Called(run, i, TryLoad, k, m)
    ensures Quiet(run, i, k, m - 1)
    ensures if Succeeded(run[m].threads[i]) then Takes(run, i, m - 1)
            else QuietAt(run, i, m - 1) && run[m - 1].sh.count <= 0
  {
    PhaseTo(run, i, TryLoad, k, m, m);
  }

  /** A completed sem_post added exactly one unit, and woke a sleeper after that if there was one. */
  lemma PostAddsOne(run: seq<State>, i: nat, k: nat, m: nat)
    requires Called(run, i, PostAdd, k, m)
    ensures AddedOnce(run, i, k, m) && Wakes(run, i, m - 1)
  {
    PhaseTo(run, i, PostAdd, k, m, m);
  }

  // ---------------------------------------------------------------- completing a call

  ghost predicate OwnStep(s: State, i: nat, s': State) {
    Steps(s, i, s') && s.threads[i].pc != Asleep
  }

  /** Steps of thread i alone, none of them a spurious wake-up. */
  ghost predicate OwnPath(path: seq<State>, i: nat) {
    |path| > 0 && forall x :: 0 <= x < |path| - 1 ==> OwnStep(path[x], i, path[x + 1])
  }

  /** Asleep, or in sem_wait with no unit to take. */
  predicate Blocked(s: State, i: nat) {
    i < |s.threads| && (s.threads[i].pc == Asleep || (s.threads[i].pc in WAITING && s.sh.count <= 0))
  }

  /** How many steps a call that is not blocked still has before it, at the most. */
  function Ahead(sh: Shared, t: Thread): nat {
    match t.pc
    case Idle => 0
    case WaitLoad => 2
    case WaitCas => if sh.count == t.val then 1 else 4
    case WaitFutex => 3
    case TryLoad => 2
    case TryCas => if sh.count == t.val then 1 else 2
    case PostAdd => 2
    case _ => 1
  }

  lemma Forward(s: State, i: nat) returns (s': State)
    requires i < |s.threads| && s.threads[i].pc != Idle && !Blocked(s, i)
    ensures OwnStep(s, i, s') && i < |s'.threads| && !Blocked(s', i)
    ensures Ahead(s'.sh, s'.threads[i]) < Ahead(s.sh, s.threads[i])
  {
    var q := Moved(s, i, Wait, false);
    s' := q;
    if s.threads[i].pc == PostWake {
      if j :| 0 <= j < |q.threads| && q.threads[j].pc == Asleep {
        s' := q.(threads := q.threads[j := q.threads[j].(pc := WaitLoad)]);
      }
    }
    assert ThreadStep(s, i, Wait, false, s');
  }

  lemma {:induction false} Finish(s: State, i: nat) returns (path: seq<State>)
    requires i < |s.threads| && !Blocked(s, i)
    ensures OwnPath(path, i) && path[0] == s && |path| <= Ahead(s.sh, s.threads[i]) + 1
    ensures var last := path[|path| - 1]; i < |last.threads| && last.threads[i].pc == Idle
    decreases Ahead(s.sh, s.threads[i])
  {
    hide OwnStep, Blocked;
    if s.threads[i].pc == Idle {
      path := [s];
    } else {
      var s' := Forward(s, i);
      var rest := Finish(s', i);
      path := [s] + rest;
    }
  }

  lemma BlockedStep(s: State, i: nat, s': State)
    requires Blocked(s, i) && ThreadInv(s.threads[i]) && OwnStep(s, i, s')
    ensures Blocked(s', i) && ThreadInv(s'.threads[i])
  {
  }

  lemma {:induction false} BlockedStays(path: seq<State>, i: nat, x: nat)
    requires OwnPath(path, i) && Blocked(path[0], i) && ThreadInv(path[0].threads[i]) && x < |path|
    ensures Blocked(path[x], i) && ThreadInv(path[x].threads[i])
  {
    if x > 0 {
      BlockedStays(path, i, x - 1);
      BlockedStep(path[x - 1], i, path[x]);
    }
  }

  /** In every reachable state a thread can bring its call to its end by its own steps, four at
      the most, exactly when it is neither asleep nor in sem_wait with no unit to take. */
  lemma FinishesIff(run: seq<State>, k: nat, i: nat)
    requires IsRun(run) && k < |run| && i < |run[k].threads|
    ensures !Blocked(run[k], i) <==>
            exists path: seq<State> ::
              OwnPath(path, i) && path[0] == run[k] && |path| <= 5 && i < |path[|path| - 1].threads| &&
              path[|path| - 1].threads[i].pc == Idle
  {
    RunInv(run, k);
    hide OwnPath, IsRun;
    if Blocked(run[k], i) {
      forall path: seq<State> | OwnPath(path, i) && |path| > 0 && path[0] == run[k]
        ensures Blocked(path[|path| - 1], i)
      {
        BlockedStays(path, i, |path| - 1);
      }
    } else {
      var path := Finish(run[k], i);
    }
  }

  /** How many steps there are before a thread that finds no unit sleeps. */
  function ToSleep(pc: Pc): nat {
    match pc
    case WaitLoad => 2
    case WaitCas => 2
    case WaitFutex => 1
    case _ => 0
  }

  lemma SleepStep(s: State, i: nat)
    requires i < |s.threads| && s.threads[i].pc in {WaitLoad, WaitCas, WaitFutex} && ThreadInv(s.threads[i]) && s.sh.count == 0
    ensures var s' := Moved(s, i, Wait, false);
            OwnStep(s, i, s') && s'.threads[i].pc in WAITING && ThreadInv(s'.threads[i]) && s'.sh.count == 0 &&
            ToSleep(s'.threads[i].pc) + 1 == ToSleep(s.threads[i].pc)
  {
    assert ThreadStep(s, i, Wait, false, Moved(s, i, Wait, false));
  }

  /** While the count stays 0, a thread in sem_wait is asleep after two more steps of its own at the latest. */
  lemma {:induction false} WaiterSleeps(s: State, i: nat) returns (path: seq<State>)
    requires i < |s.threads| && s.threads[i].pc in WAITING && ThreadInv(s.threads[i]) && s.sh.count == 0
    ensures OwnPath(path, i) && path[0] == s && |path| == ToSleep(s.threads[i].pc) + 1 <= 3
    ensures var last := path[|path| - 1]; i < |last.threads| && last.threads[i].pc == Asleep
    decreases ToSleep(s.threads[i].pc)
  {
    if s.threads[i].pc == Asleep {
      path := [s];
    } else {
      SleepStep(s, i);
      hide OwnStep, Moved;
      var rest := WaiterSleeps(Moved(s, i, Wait, false), i);
      path := [s] + rest;
    }
  }

  /** The three calls a thread may start at any time. */
  lemma MayStart(s: State, i: nat)
    requires i < |s.threads| && s.threads[i].pc == Idle
    ensures forall pc :: pc in {WaitLoad, TryLoad, PostAdd} ==>
              Steps(s, i, s.(threads := s.threads[i := s.threads[i].(pc := pc)]))
  {
    assert ThreadStep(s, i, Wait, false, s.(threads := s.threads[i := s.threads[i].(pc := WaitLoad)]));
    assert ThreadStep(s, i, TryWait, false, s.(threads := s.threads[i := s.threads[i].(pc := TryLoad)]));
    assert ThreadStep(s, i, Post, false, s.(threads := s.threads[i := s.threads[i].(pc := PostAdd)]));
  }
}
