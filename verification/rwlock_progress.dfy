/** When a writer can still get into the read-write lock of src/pthread_rwlock.c, and when a
    writer asleep on the reader count is still owed a wake-up. */
module RwLockProgress {
  import opened Tally
  import opened RwLock

  ghost predicate Good(s: State) {
    Inv(s.sh, Count(s.agents))
  }

  lemma ReachableGood(s: State)
    requires Reachable(s)
    ensures Good(s)
  {
    var run :| IsRun(run) && run[|run| - 1] == s;
    RunInv(run, |run| - 1);
  }

  lemma StepGood(s: State, i: nat, reader: bool)
    requires Good(s) && i < |s.agents|
    ensures Good(Step(s, i, reader)) && Next(s, Step(s, i, reader))
  {
    NextKeepsInv(s, Step(s, i, reader));
  }

  ghost predicate WriterInside(s: State) {
    exists i :: 0 <= i < |s.agents| && WriteHold(s.agents[i])
  }

  ghost predicate IsPath(path: seq<State>) {
    |path| > 0 && forall k :: 0 <= k < |path| - 1 ==> Next(path[k], path[k + 1])
  }

  /** Some continuation lets a writer in. */
  ghost predicate Admits(s: State) {
    exists path :: IsPath(path) && path[0] == s && WriterInside(path[|path| - 1])
  }

  lemma AdmitsNow(s: State)
    requires WriterInside(s)
    ensures Admits(s)
  {
    assert IsPath([s]);
  }

  lemma AdmitsBefore(s: State, s': State)
    requires Next(s, s') && Admits(s')
    ensures Admits(s)
  {
    var path :| IsPath(path) && path[0] == s' && WriterInside(path[|path| - 1]);
    var longer := [s] + path;
    forall k | 0 <= k < |longer| - 1 ensures Next(longer[k], longer[k + 1]) {
      assert k > 0 ==> Next(path[k - 1], path[k]);
    }
    assert IsPath(longer) && longer[|longer| - 1] == path[|path| - 1];
  }

  // ---------------------------------------------------------------- no way in

  /** A read hold that has not yet passed the test of the writer flag in its release, or
      failed it. */
  predicate Lingers(pc: Pc) {
    pc in {Reading, ReaderLoads, ReaderClearsWriter}
  }

  ghost predicate SomeLinger(s: State) {
    exists i :: 0 <= i < |s.agents| && Lingers(s.agents[i])
  }

  /** A release has leaked, or one is bound to. */
  ghost predicate Doomed(s: State) {
    s.sh.leak > 0 || (s.sh.writer == 1 && SomeLinger(s))
  }

  lemma LingeringMeans(s: State, j: nat)
    requires Good(s) && j < |s.agents| && ReadHold(s.agents[j])
    ensures !WriterInside(s)
  {
    TotalAtLeast(s.agents, j, ReadHoldW);
    if i :| 0 <= i < |s.agents| && WriteHold(s.agents[i]) {
      TotalAtLeast(s.agents, i, WriteHoldW);
    }
  }

  lemma DoomedShut(s: State)
    requires Good(s) && Doomed(s)
    ensures !WriterInside(s)
  {
    if s.sh.leak > 0 {
      if i :| 0 <= i < |s.agents| && WriteHold(s.agents[i]) {
        TotalAtLeast(s.agents, i, WriteHoldW);
      }
    } else {
      var j :| 0 <= j < |s.agents| && Lingers(s.agents[j]);
      LingeringMeans(s, j);
    }
  }

  lemma DoomedStep(s: State, i: nat, reader: bool)
    requires Good(s) && Doomed(s) && i < |s.agents|
    ensures Doomed(Step(s, i, reader))
  {
    var s' := Step(s, i, reader);
    if s.sh.leak == 0 {
      var j :| 0 <= j < |s.agents| && Lingers(s.agents[j]);
      DoomedShut(s);
      assert !WriteHold(s.agents[i]);
      if s'.sh.leak == 0 {
        assert Lingers(s'.agents[j]);
      }
    }
  }

  lemma DoomedNext(s: State, s': State)
    requires Good(s) && Doomed(s) && Next(s, s')
    ensures Good(s') && Doomed(s')
  {
    NextKeepsInv(s, s');
    if s' == s.(agents := s.agents + [Idle]) {
      if s.sh.leak == 0 {
        var j :| 0 <= j < |s.agents| && Lingers(s.agents[j]);
        assert s'.agents[j] == s.agents[j];
      }
    } else {
      var i, reader :| 0 <= i < |s.agents| && s' == Step(s, i, reader);
      DoomedStep(s, i, reader);
    }
  }

  lemma {:induction false} DoomedPath(path: seq<State>, k: nat)
    requires IsPath(path) && Good(path[0]) && Doomed(path[0]) && k < |path|
    ensures Good(path[k]) && Doomed(path[k])
  {
    if k > 0 {
      DoomedPath(path, k - 1);
      assert Next(path[k - 1], path[k]);
      DoomedNext(path[k - 1], path[k]);
    }
  }

  lemma DoomedNeverAdmits(s: State)
    requires Good(s) && Doomed(s)
    ensures !Admits(s)
  {
    if path :| IsPath(path) && path[0] == s && WriterInside(path[|path| - 1]) {
      DoomedPath(path, |path| - 1);
      DoomedShut(path[|path| - 1]);
    }
  }

  // ---------------------------------------------------------------- the way in

  /** A sum over the agents whose weight no wake-up changes. */
  lemma TotalStep(s: State, i: nat, reader: bool, w: Pc -> nat)
    requires i < |s.agents| && forall waker, pc :: w(Woken(waker, pc)) == w(pc)
    ensures Total(Step(s, i, reader).agents, w) ==
            Total(s.agents, w) - w(s.agents[i]) + w(Local(s.sh, s.agents[i], reader))
  {
    var moved := s.agents[i := Local(s.sh, s.agents[i], reader)];
    TotalUpdate(s.agents, i, Local(s.sh, s.agents[i], reader), w);
    TotalCongruent(Step(s, i, reader).agents, moved, w, w);
  }

  /** How many steps a reader needs to take its increment back when the flag stays clear. */
  function OutW(pc: Pc): nat {
    match pc
    case RdRecheck => 4
    case Reading => 3
    case ReaderLoads => 2
    case ReaderSubtracts => 1
    case RdUndo => 1
    case _ => 0
  }

  /** A writer that finds the flag clear and no readers goes in. */
  lemma EnterFree(s: State)
    requires s.sh.writer == 0 && s.sh.readers == 0
    ensures Admits(s)
  {
    var n := |s.agents|;
    var s1 := s.(agents := s.agents + [Idle]);
    var s2 := Step(s1, n, false);
    var s3 := Step(s2, n, false);
    var s4 := Step(s3, n, false);
    assert s4.agents[n] == Writing;
    AdmitsNow(s4);
    AdmitsBefore(s3, s4);
    AdmitsBefore(s2, s3);
    AdmitsBefore(s1, s2);
    AdmitsBefore(s, s1);
  }

  lemma NobodyCounted(s: State, w: Pc -> nat)
    requires Good(s) && s.sh.leak == 0 && Total(s.agents, w) == 0
    requires forall i :: 0 <= i < |s.agents| && CountedW(s.agents[i]) > 0 ==> w(s.agents[i]) > 0
    ensures s.sh.readers == 0
  {
    if Total(s.agents, CountedW) > 0 {
      var i := TotalWitness(s.agents, CountedW);
      TotalAtLeast(s.agents, i, w);
    }
  }

  lemma FreeStep(s: State, i: nat)
    requires s.sh.leak == 0 && s.sh.writer == 0 && i < |s.agents| && OutW(s.agents[i]) > 0
    ensures var s' := Step(s, i, true);
            s'.sh.leak == 0 && s'.sh.writer == 0 && Total(s'.agents, OutW) < Total(s.agents, OutW)
  {
    hide Total;
    TotalStep(s, i, true, OutW);
  }

  /** While the flag is clear, the readers can leave one by one. */
  lemma {:induction false} AdmitsFree(s: State)
    requires Good(s) && s.sh.leak == 0 && s.sh.writer == 0
    ensures Admits(s)
    decreases Total(s.agents, OutW)
  {
    hide Admits;
    if Total(s.agents, OutW) > 0 {
      var i := TotalWitness(s.agents, OutW);
      StepGood(s, i, true);
      FreeStep(s, i);
      AdmitsFree(Step(s, i, true));
      AdmitsBefore(s, Step(s, i, true));
    } else {
      forall i | 0 <= i < |s.agents| && CountedW(s.agents[i]) > 0 ensures OutW(s.agents[i]) > 0 {
        TotalAtLeast(s.agents, i, ClearW);
      }
      NobodyCounted(s, OutW);
      EnterFree(s);
    }
  }

  /** The same when the flag is set. */
  function BackW(pc: Pc): nat {
    match pc
    case RdRecheck => 2
    case RdUndo => 1
    case ReaderSubtracts => 1
    case _ => 0
  }

  function StepsIn(pc: Pc): nat {
    match pc
    case WrFutexReaders => 3
    case WrAsleepReaders => 2
    case WrLoadReaders => 1
    case _ => 0
  }

  /** The writer that set the flag goes in when there are no readers. */
  lemma {:induction false} EnterClaimed(s: State, i: nat)
    requires s.sh.readers == 0 && i < |s.agents| && ClaimW(s.agents[i]) > 0
    ensures Admits(s)
    decreases StepsIn(s.agents[i])
  {
    if WriteHold(s.agents[i]) {
      AdmitsNow(s);
    } else {
      var s' := Step(s, i, false);
      EnterClaimed(s', i);
      AdmitsBefore(s, s');
    }
  }

  lemma ClaimedStep(s: State, i: nat)
    requires Good(s) && s.sh.leak == 0 && s.sh.writer == 1 && !SomeLinger(s)
    requires i < |s.agents| && BackW(s.agents[i]) > 0
    ensures var s' := Step(s, i, true);
            && s'.sh.leak == 0 && s'.sh.writer == 1 && !SomeLinger(s')
            && Total(s'.agents, BackW) < Total(s.agents, BackW)
  {
    hide Inv, Count, Total;
    TotalStep(s, i, true, BackW);
  }

  lemma {:induction false} AdmitsClaimed(s: State)
    requires Good(s) && s.sh.leak == 0 && s.sh.writer == 1 && !SomeLinger(s)
    ensures Admits(s)
    decreases Total(s.agents, BackW)
  {
    hide Admits;
    if Total(s.agents, BackW) > 0 {
      var i := TotalWitness(s.agents, BackW);
      StepGood(s, i, true);
      ClaimedStep(s, i);
      AdmitsClaimed(Step(s, i, true));
      AdmitsBefore(s, Step(s, i, true));
    } else {
      NobodyCounted(s, BackW);
      var i := TotalWitness(s.agents, ClaimW);
      EnterClaimed(s, i);
    }
  }

  /** From a reachable state some continuation lets a writer in exactly when no release has
      leaked and, while the flag is set, no read hold is still to be released.  Sleepers may
      wake by themselves on the way; SleeperWokenIff is about those that do not. */
  lemma WriterAdmittedIff(s: State)
    requires Reachable(s)
    ensures Admits(s) <==>
            s.sh.leak == 0 && (s.sh.writer == 1 ==> forall i :: 0 <= i < |s.agents| ==> !Lingers(s.agents[i]))
  {
    ReachableGood(s);
    if Doomed(s) {
      DoomedNeverAdmits(s);
    } else if s.sh.writer == 0 {
      AdmitsFree(s);
    } else {
      AdmitsClaimed(s);
    }
  }

  // ---------------------------------------------------------------- the sleeping writer

  /** A step of anyone but agent w, so w does not wake by itself. */
  ghost predicate NextBut(s: State, s': State, w: nat) {
    || s' == s.(agents := s.agents + [Idle])
    || exists i, reader :: 0 <= i < |s.agents| && i != w && s' == Step(s, i, reader)
  }

  ghost predicate IsPathBut(path: seq<State>, w: nat) {
    |path| > 0 && forall k :: 0 <= k < |path| - 1 ==> NextBut(path[k], path[k + 1], w)
  }

  ghost predicate Sleeps(s: State, w: nat) {
    w < |s.agents| && s.agents[w] == WrAsleepReaders
  }

  /** Some continuation wakes agent w by a futex_wake. */
  ghost predicate Woke(s: State, w: nat) {
    exists path :: IsPathBut(path, w) && path[0] == s && !Sleeps(path[|path| - 1], w)
  }

  ghost predicate Some(s: State, pc: Pc) {
    exists i :: 0 <= i < |s.agents| && s.agents[i] == pc
  }

  /** The wake-up is on its way, or the last reader out will send it. */
  ghost predicate Owed(s: State) {
    || Some(s, ReaderWakesReaders)
    || (s.sh.leak == 0 && !SomeLinger(s) && Some(s, ReaderSubtracts))
  }

  lemma SleeperClaims(s: State, w: nat)
    requires Good(s) && Sleeps(s, w) && s.sh.leak == 0
    ensures s.sh.writer == 1 && forall i :: 0 <= i < |s.agents| && i != w ==> ClaimW(s.agents[i]) == 0
  {
    TotalAtLeast(s.agents, w, ClaimW);
    forall i | 0 <= i < |s.agents| && i != w ensures ClaimW(s.agents[i]) == 0 {
      TotalAtLeastTwo(s.agents, if i < w then i else w, if i < w then w else i, ClaimW);
    }
  }

  /** Only the last counted reader, and only without a leak, sees a count of one. */
  lemma LastReader(s: State, i: nat)
    requires Good(s) && i < |s.agents| && s.agents[i] == ReaderSubtracts && s.sh.readers == 1
    ensures s.sh.leak == 0 && !SomeLinger(s)
  {
    TotalAtLeast(s.agents, i, CountedW);
    if j :| 0 <= j < |s.agents| && Lingers(s.agents[j]) {
      TotalAtLeastTwo(s.agents, if i < j then i else j, if i < j then j else i, CountedW);
    }
  }

  lemma NoStray(s: State, i: nat)
    requires Good(s) && i < |s.agents|
    ensures s.agents[i] !in {WriterSubtracts, WriterWakesReaders}
  {
    TotalAtLeast(s.agents, i, StrayW);
  }

  lemma UnowedStep(s: State, w: nat, i: nat, reader: bool)
    requires Good(s) && Sleeps(s, w) && !Owed(s) && i < |s.agents| && i != w
    ensures Sleeps(Step(s, i, reader), w) && !Owed(Step(s, i, reader))
  {
    var s' := Step(s, i, reader);
    NoStray(s, i);
    assert s.agents[i] != ReaderWakesReaders;
    if s.agents[i] == ReaderSubtracts && s.sh.readers == 1 {
      LastReader(s, i);
    }
    assert !Some(s', ReaderWakesReaders);
    if s'.sh.leak == 0 {
      SleeperClaims(s, w);
      if SomeLinger(s) {
        DoomedStep(s, i, reader);
      } else {
        assert !Some(s, ReaderSubtracts);
        assert !Some(s', ReaderSubtracts);
      }
    }
  }

  lemma UnowedNext(s: State, s': State, w: nat)
    requires Good(s) && Sleeps(s, w) && !Owed(s) && NextBut(s, s', w)
    ensures Good(s') && Sleeps(s', w) && !Owed(s')
  {
    assert Next(s, s');
    NextKeepsInv(s, s');
    if s' == s.(agents := s.agents + [Idle]) {
      if j :| 0 <= j < |s.agents| && Lingers(s.agents[j]) {
        assert s'.agents[j] == s.agents[j];
      }
    } else {
      var i, reader :| 0 <= i < |s.agents| && i != w && s' == Step(s, i, reader);
      UnowedStep(s, w, i, reader);
    }
  }

  lemma {:induction false} UnowedPath(path: seq<State>, w: nat, k: nat)
    requires IsPathBut(path, w) && Good(path[0]) && Sleeps(path[0], w) && !Owed(path[0]) && k < |path|
    ensures Good(path[k]) && Sleeps(path[k], w) && !Owed(path[k])
  {
    if k > 0 {
      UnowedPath(path, w, k - 1);
      assert NextBut(path[k - 1], path[k], w);
      UnowedNext(path[k - 1], path[k], w);
    }
  }

  lemma WokeBefore(s: State, i: nat, reader: bool, w: nat)
    requires i < |s.agents| && i != w && Woke(Step(s, i, reader), w)
    ensures Woke(s, w)
  {
    var s' := Step(s, i, reader);
    var path :| IsPathBut(path, w) && path[0] == s' && !Sleeps(path[|path| - 1], w);
    var longer := [s] + path;
    assert NextBut(s, s', w);
    forall k | 0 <= k < |longer| - 1 ensures NextBut(longer[k], longer[k + 1], w) {
      assert k > 0 ==> NextBut(path[k - 1], path[k], w);
    }
    assert IsPathBut(longer, w) && longer[|longer| - 1] == path[|path| - 1];
  }

  lemma WokeByWaker(s: State, w: nat, i: nat)
    requires Sleeps(s, w) && i < |s.agents| && s.agents[i] == ReaderWakesReaders
    ensures Woke(s, w)
  {
    var s' := Step(s, i, true);
    assert IsPathBut([s'], w) && !Sleeps(s', w);
    WokeBefore(s, i, true, w);
  }

  /** Nothing leaked, no reader lingers, and r is on its way out. */
  ghost predicate Leaving(s: State, w: nat, r: nat) {
    && Sleeps(s, w) && s.sh.leak == 0 && !SomeLinger(s)
    && r < |s.agents| && s.agents[r] == ReaderSubtracts
  }

  lemma LeavingStep(s: State, w: nat, r: nat, i: nat)
    requires Good(s) && Leaving(s, w, r) && i < |s.agents| && i != r && BackW(s.agents[i]) > 0
    ensures i != w && Leaving(Step(s, i, true), w, r)
    ensures Total(Step(s, i, true).agents, BackW) < Total(s.agents, BackW)
  {
    hide Total;
    SleeperClaims(s, w);
    TotalStep(s, i, true, BackW);
  }

  /** The readers on their way out leave, the last one with a wake-up. */
  lemma {:induction false} WokeByLast(s: State, w: nat, r: nat)
    requires Good(s) && Leaving(s, w, r)
    ensures Woke(s, w)
    decreases Total(s.agents, BackW)
  {
    if i :| 0 <= i < |s.agents| && i != r && BackW(s.agents[i]) > 0 {
      LeavingStep(s, w, r, i);
      StepGood(s, i, true);
      WokeByLast(Step(s, i, true), w, r);
      WokeBefore(s, i, true, w);
    } else {
      LastOut(s, r);
      var s' := Step(s, r, true);
      assert s'.agents[r] == ReaderWakesReaders;
      WokeByWaker(s', w, r);
      WokeBefore(s, r, true, w);
    }
  }

  lemma LastOut(s: State, r: nat)
    requires Good(s) && s.sh.leak == 0 && !SomeLinger(s) && r < |s.agents| && s.agents[r] == ReaderSubtracts
    requires forall i :: 0 <= i < |s.agents| && i != r ==> BackW(s.agents[i]) == 0
    ensures s.sh.readers == 1
  {
    TotalUpdate(s.agents, r, Idle, CountedW);
    TotalZero(s.agents[r := Idle], CountedW);
  }

  /** A writer asleep on the reader count is woken in some continuation exactly when it is owed
      a wake-up; otherwise it sleeps for ever, whatever the others do. */
  lemma SleeperWokenIff(s: State, w: nat)
    requires Reachable(s) && Sleeps(s, w)
    ensures Woke(s, w) <==> Owed(s)
  {
    ReachableGood(s);
    if Some(s, ReaderWakesReaders) {
      var i :| 0 <= i < |s.agents| && s.agents[i] == ReaderWakesReaders;
      WokeByWaker(s, w, i);
    } else if Owed(s) {
      var r :| 0 <= r < |s.agents| && s.agents[r] == ReaderSubtracts;
      WokeByLast(s, w, r);
    } else if path :| IsPathBut(path, w) && path[0] == s && !Sleeps(path[|path| - 1], w) {
      UnowedPath(path, w, |path| - 1);
    }
  }

  /** The state of WriterSleepsOnFreeLock: nobody holds the lock and nobody owes the wake-up. */
  lemma SleepsForEver()
    ensures var s := Pair(Shared(0, 1, 0), Idle, WrAsleepReaders); Reachable(s) && !Woke(s, 1)
  {
    hide Reachable, Woke;
    WriterSleepsOnFreeLock();
    SleeperWokenIff(Pair(Shared(0, 1, 0), Idle, WrAsleepReaders), 1);
  }
}
