/** What a completed call on the read-write lock has done, whatever the other agents did
    meanwhile; which sleepers may count on a wake-up; and when a call can be completed. */
module RwLockCalls {
  import opened Tally
  import opened RwLock

  // ---------------------------------------------------------------- one step, seen by one agent

  ghost predicate Steps(s: State, i: nat, s': State) {
    i < |s.agents| && exists reader :: s' == Step(s, i, reader)
  }

  predicate InRun(run: seq<State>, i: nat, x: nat) {
    x + 1 < |run| && i < |run[x].agents| && i < |run[x + 1].agents|
  }

  predicate Moves(run: seq<State>, i: nat, x: nat)
    requires InRun(run, i, x)
  {
    run[x + 1].agents[i] != run[x].agents[i]
  }

  /** The agent does not move, or is woken by a step that leaves the lock as it is. */
  ghost predicate Passive(run: seq<State>, i: nat, x: nat) {
    InRun(run, i, x) &&
    (Moves(run, i, x) ==> run[x + 1].sh == run[x].sh && Awakes(run[x].agents[i], run[x + 1].agents[i]))
  }

  predicate Awakes(pc: Pc, pc': Pc) {
    (pc, pc') in {(RdAsleep, RdLoadWriter), (WrAsleep, WrExchange), (WrAsleepReaders, WrLoadReaders)}
  }

  lemma Effect(run: seq<State>, x: nat, i: nat)
    requires IsRun(run) && x + 1 < |run| && i < |run[x].agents|
    ensures Inv(run[x].sh, Count(run[x].agents)) && InRun(run, i, x)
    ensures Passive(run, i, x) || Steps(run[x], i, run[x + 1])
  {
    RunInv(run, x);
    hide Inv, Count;
    assert Next(run[x], run[x + 1]);
  }

  // ---------------------------------------------------------------- a call in a run

  /** Agent i left `from` for the call that begins at `entry` in step k, and is out of `inside`,
      the counters of that call, again in state m. */
  ghost predicate Called(run: seq<State>, i: nat, from: Pc, entry: Pc, inside: set<Pc>, k: nat, m: nat) {
    && IsRun(run) && k + 1 < m < |run| && i < |run[k].agents|
    && (forall x :: k <= x <= m ==> |run[k].agents| <= |run[x].agents|)
    && run[k].agents[i] == from && run[k + 1].agents[i] == entry
    && (forall x :: k < x < m ==> run[x].agents[i] in inside)
    && run[m].agents[i] !in inside
  }

  /** What the steps of agent i between k and x added to `readers`. */
  ghost function Net(run: seq<State>, i: nat, k: nat, x: nat): int {
    if x <= k || !InRun(run, i, x - 1) then 0
    else Net(run, i, k, x - 1) + (if Moves(run, i, x - 1) then run[x].sh.readers - run[x - 1].sh.readers else 0)
  }

  /** Step y of agent i leaves the writer flag alone. */
  ghost predicate FlagKept(run: seq<State>, i: nat, y: nat) {
    InRun(run, i, y) && (Moves(run, i, y) ==> run[y + 1].sh.writer == run[y].sh.writer && run[y + 1].sh.leak == run[y].sh.leak)
  }

  ghost predicate FlagAlone(run: seq<State>, i: nat, k: nat, x: nat) {
    forall y: nat :: k <= y < x ==> FlagKept(run, i, y)
  }

  /** Step e of agent i turns the flag from one value to another. */
  ghost predicate Turns(run: seq<State>, i: nat, e: nat, to: nat) {
    InRun(run, i, e) && Moves(run, i, e) && run[e].sh.writer == 1 - to && run[e + 1].sh.writer == to
  }

  /** One step of agent i between k and x turns the flag, the others leave it alone. */
  ghost predicate TurnedOnce(run: seq<State>, i: nat, k: nat, x: nat, to: nat) {
    exists e: nat :: k < e < x && Turns(run, i, e, to) && forall y: nat :: k <= y < x && y != e ==> FlagKept(run, i, y)
  }

  lemma FlagMore(run: seq<State>, i: nat, k: nat, x: nat)
    requires FlagKept(run, i, x) && k <= x
    ensures FlagAlone(run, i, k, x) ==> FlagAlone(run, i, k, x + 1)
    ensures forall to: nat :: TurnedOnce(run, i, k, x, to) ==> TurnedOnce(run, i, k, x + 1, to)
  {
    forall to: nat | TurnedOnce(run, i, k, x, to)
      ensures TurnedOnce(run, i, k, x + 1, to)
    {
      var e: nat :| k < e < x && Turns(run, i, e, to) && forall y: nat :: k <= y < x && y != e ==> FlagKept(run, i, y);
      assert k < e < x + 1 && Turns(run, i, e, to) && forall y: nat :: k <= y < x + 1 && y != e ==> FlagKept(run, i, y);
    }
  }

  lemma FlagTurned(run: seq<State>, i: nat, k: nat, x: nat, to: nat)
    requires FlagAlone(run, i, k, x) && Turns(run, i, x, to) && k < x
    ensures TurnedOnce(run, i, k, x + 1, to)
  {
  }

  // ---------------------------------------------------------------- pthread_rwlock_rdlock

  const RDLOCK: set<Pc> := {RdLoadWriter, RdFutex, RdAsleep, RdAdd, RdRecheck, RdUndo}

  /** Where an agent stands that entered pthread_rwlock_rdlock in step k. */
  ghost predicate RdPhase(run: seq<State>, i: nat, k: nat, x: nat) {
    k < x < |run| && i < |run[x].agents| && FlagAlone(run, i, k, x) &&
    var pc := run[x].agents[i];
    if pc in RDLOCK then Net(run, i, k, x) == CountedW(pc)
    else && pc == Reading && Net(run, i, k, x) == 1
         && i < |run[x - 1].agents| && run[x - 1].agents[i] == RdRecheck && run[x - 1].sh.writer == 0
  }

  lemma RdOn(run: seq<State>, i: nat, k: nat, x: nat)
    requires RdPhase(run, i, k, x) && run[x].agents[i] in RDLOCK && InRun(run, i, x)
    requires Passive(run, i, x) || Steps(run[x], i, run[x + 1])
    ensures RdPhase(run, i, k, x + 1)
  {
    FlagMore(run, i, k, x);
  }

  lemma RdBegins(run: seq<State>, i: nat, k: nat)
    requires InRun(run, i, k) && run[k].agents[i] == Idle && run[k + 1].agents[i] == RdLoadWriter
    requires Passive(run, i, k) || Steps(run[k], i, run[k + 1])
    ensures RdPhase(run, i, k, k + 1)
  {
    assert FlagKept(run, i, k);
    assert Net(run, i, k, k) == 0;
  }

  lemma {:induction false} RdTo(run: seq<State>, i: nat, k: nat, m: nat, x: nat)
    requires Called(run, i, Idle, RdLoadWriter, RDLOCK, k, m) && k < x <= m
    ensures RdPhase(run, i, k, x)
  {
    hide IsRun, Inv, Count, Steps, Passive, RdPhase;
    Effect(run, x - 1, i);
    if x == k + 1 {
      RdBegins(run, i, k);
    } else {
      RdTo(run, i, k, m, x - 1);
      RdOn(run, i, k, x - 1);
    }
  }

  /** A completed pthread_rwlock_rdlock leaves the caller holding the lock for reading. On
      balance it added exactly one to `readers`, it never touched the writer flag, and the
      flag was clear when it looked last, after the addition. */
  lemma RdLockTakes(run: seq<State>, i: nat, k: nat, m: nat)
    requires Called(run, i, Idle, RdLoadWriter, RDLOCK, k, m)
    ensures run[m].agents[i] == Reading && Net(run, i, k, m) == 1 && FlagAlone(run, i, k, m)
    ensures run[m - 1].agents[i] == RdRecheck && run[m - 1].sh.writer == 0
  {
    hide IsRun, Net, FlagAlone;
    RdTo(run, i, k, m, m);
  }

  // ---------------------------------------------------------------- pthread_rwlock_wrlock

  const CLAIMING: set<Pc> := {WrExchange, WrFutex, WrAsleep}
  const CLAIMED: set<Pc> := {WrLoadReaders, WrFutexReaders, WrAsleepReaders}

  /** Where an agent stands that entered pthread_rwlock_wrlock in step k. */
  ghost predicate WrPhase(run: seq<State>, i: nat, k: nat, x: nat) {
    k < x < |run| && i < |run[x].agents| && Net(run, i, k, x) == 0 &&
    var pc := run[x].agents[i];
    if pc in CLAIMING then FlagAlone(run, i, k, x)
    else TurnedOnce(run, i, k, x, 1) && (pc in CLAIMED || (pc == Writing && run[x - 1].sh.readers == 0))
  }

  lemma WrOn(run: seq<State>, i: nat, k: nat, x: nat)
    requires WrPhase(run, i, k, x) && run[x].agents[i] in CLAIMING + CLAIMED && InRun(run, i, x) && run[x].sh.writer <= 1
    requires Passive(run, i, x) || Steps(run[x], i, run[x + 1])
    ensures WrPhase(run, i, k, x + 1)
  {
    if run[x].agents[i] == WrExchange && run[x].sh.writer == 0 && Moves(run, i, x) {
      FlagTurned(run, i, k, x, 1);
    } else {
      FlagMore(run, i, k, x);
    }
  }

  lemma WrBegins(run: seq<State>, i: nat, k: nat)
    requires InRun(run, i, k) && run[k].agents[i] == Idle && run[k + 1].agents[i] == WrExchange
    requires Passive(run, i, k) || Steps(run[k], i, run[k + 1])
    ensures WrPhase(run, i, k, k + 1)
  {
    assert FlagKept(run, i, k);
    assert Net(run, i, k, k) == 0;
  }

  lemma FlagIsBit(s: State)
    requires Inv(s.sh, Count(s.agents))
    ensures s.sh.writer <= 1
  {
  }

  lemma {:induction false} WrTo(run: seq<State>, i: nat, k: nat, m: nat, x: nat)
    requires Called(run, i, Idle, WrExchange, CLAIMING + CLAIMED, k, m) && k < x <= m
    ensures WrPhase(run, i, k, x)
  {
    hide IsRun, Inv, Count, Steps, Passive, WrPhase;
    Effect(run, x - 1, i);
    if x == k + 1 {
      WrBegins(run, i, k);
    } else {
      WrTo(run, i, k, m, x - 1);
      FlagIsBit(run[x - 1]);
      WrOn(run, i, k, x - 1);
    }
  }

  /** A completed pthread_rwlock_wrlock leaves the caller holding the lock for writing. Exactly
      one of its steps touched the flag and turned it from 0 to 1, it left `readers` as it was
      on balance, and `readers` was 0 when it looked last. */
  lemma WrLockTakes(run: seq<State>, i: nat, k: nat, m: nat)
    requires Called(run, i, Idle, WrExchange, CLAIMING + CLAIMED, k, m)
    ensures run[m].agents[i] == Writing && TurnedOnce(run, i, k, m, 1)
    ensures Net(run, i, k, m) == 0 && run[m - 1].sh.readers == 0
  {
    hide IsRun, Net, TurnedOnce;
    WrTo(run, i, k, m, m);
  }

  // ---------------------------------------------------------------- pthread_rwlock_unlock

  ghost predicate None(s: State, pcs: set<Pc>) {
    forall j :: 0 <= j < |s.agents| ==> s.agents[j] !in pcs
  }

  /** Step e of agent i wakes everybody who sleeps on the flag. */
  ghost predicate WakesFlag(run: seq<State>, i: nat, e: nat) {
    InRun(run, i, e) && |run[e + 1].agents| == |run[e].agents| && Moves(run, i, e) &&
    None(run[e + 1], {RdAsleep, WrAsleep})
  }

  /** Step e of agent i wakes everybody who sleeps on `readers`. */
  ghost predicate WakesReaders(run: seq<State>, i: nat, e: nat) {
    InRun(run, i, e) && |run[e + 1].agents| == |run[e].agents| && Moves(run, i, e) &&
    None(run[e + 1], {WrAsleepReaders})
  }

  /** Step e of a reader's unlock looks at the flag. */
  ghost predicate Looks(run: seq<State>, i: nat, e: nat, set_: bool) {
    InRun(run, i, e) && Moves(run, i, e) && run[e].agents[i] == ReaderLoads && set_ == (run[e].sh.writer != 0)
  }

  ghost predicate Looked(run: seq<State>, i: nat, k: nat, x: nat, set_: bool) {
    exists e: nat :: k < e < x && Looks(run, i, e, set_)
  }

  /** Step e of agent i takes one off `readers`; `last` is whether nothing is left. */
  ghost predicate Drops(run: seq<State>, i: nat, e: nat, last: bool) {
    InRun(run, i, e) && Moves(run, i, e) && run[e + 1].sh.readers == run[e].sh.readers - 1 &&
    last == (run[e + 1].sh.readers == 0)
  }

  ghost predicate Dropped(run: seq<State>, i: nat, k: nat, x: nat, last: bool) {
    exists e: nat :: k < e < x && Drops(run, i, e, last)
  }

  const RDUNLOCK: set<Pc> := {ReaderLoads, ReaderClearsWriter, ReaderWakesWriters, ReaderSubtracts, ReaderWakesReaders}

  /** A reader has left through the branch meant for writers. */
  ghost predicate LeftLeaking(run: seq<State>, i: nat, k: nat, x: nat) {
    Looked(run, i, k, x, true) && Net(run, i, k, x) == 0 && Cleared(run, i, k, x)
  }

  /** Step e of agent i clears the flag and counts as a leak. */
  ghost predicate Leaks(run: seq<State>, i: nat, e: nat) {
    InRun(run, i, e) && Moves(run, i, e) && run[e + 1].sh.writer == 0 && run[e + 1].sh.leak == run[e].sh.leak + 1
  }

  /** One step of agent i clears the flag and counts as a leak, the others leave both alone. */
  ghost predicate Cleared(run: seq<State>, i: nat, k: nat, x: nat) {
    exists e: nat :: k < e < x && Leaks(run, i, e) && forall y: nat :: k <= y < x && y != e ==> FlagKept(run, i, y)
  }

  /** A reader has left by taking its increment off `readers`. */
  ghost predicate LeftCleanly(run: seq<State>, i: nat, k: nat, x: nat, last: bool) {
    Looked(run, i, k, x, false) && Net(run, i, k, x) == -1 && FlagAlone(run, i, k, x) && Dropped(run, i, k, x, last)
  }

  /** Where an agent stands that entered pthread_rwlock_unlock as a reader in step k. */
  ghost predicate RdOutPhase(run: seq<State>, i: nat, k: nat, x: nat) {
    k < x < |run| && i < |run[x].agents| &&
    match run[x].agents[i]
    case ReaderLoads => Net(run, i, k, x) == 0 && FlagAlone(run, i, k, x)
    case ReaderClearsWriter => Net(run, i, k, x) == 0 && FlagAlone(run, i, k, x) && Looked(run, i, k, x, true)
    case ReaderWakesWriters => LeftLeaking(run, i, k, x)
    case ReaderSubtracts => Net(run, i, k, x) == 0 && FlagAlone(run, i, k, x) && Looked(run, i, k, x, false)
    case ReaderWakesReaders => LeftCleanly(run, i, k, x, true)
    case Idle =>
      || (LeftLeaking(run, i, k, x) && WakesFlag(run, i, x - 1))
      || (LeftCleanly(run, i, k, x, true) && WakesReaders(run, i, x - 1))
      || LeftCleanly(run, i, k, x, false)
    case _ => false
  }

  lemma ClearedMore(run: seq<State>, i: nat, k: nat, x: nat)
    requires FlagKept(run, i, x) && k <= x && Cleared(run, i, k, x)
    ensures Cleared(run, i, k, x + 1)
  {
    var e: nat :| k < e < x && Leaks(run, i, e) && forall y: nat :: k <= y < x && y != e ==> FlagKept(run, i, y);
    assert k < e < x + 1 && Leaks(run, i, e) && forall y: nat :: k <= y < x + 1 && y != e ==> FlagKept(run, i, y);
  }

  lemma RdOutRests(run: seq<State>, i: nat, k: nat, x: nat)
    requires RdOutPhase(run, i, k, x) && run[x].agents[i] in RDUNLOCK && Passive(run, i, x)
    ensures RdOutPhase(run, i, k, x + 1)
  {
    FlagMore(run, i, k, x);
    if Cleared(run, i, k, x) {
      ClearedMore(run, i, k, x);
    }
  }

  lemma RdOutSteps(run: seq<State>, i: nat, k: nat, x: nat)
    requires RdOutPhase(run, i, k, x) && run[x].agents[i] in RDUNLOCK && InRun(run, i, x)
    requires Steps(run[x], i, run[x + 1])
    ensures RdOutPhase(run, i, k, x + 1)
  {
    match run[x].agents[i] {
      case ReaderLoads =>
        assert Looks(run, i, x, run[x].sh.writer != 0);
        FlagMore(run, i, k, x);
      case ReaderClearsWriter =>
        assert Leaks(run, i, x);
        assert Cleared(run, i, k, x + 1);
      case ReaderWakesWriters =>
        assert FlagKept(run, i, x);
        ClearedMore(run, i, k, x);
      case ReaderSubtracts =>
        assert Drops(run, i, x, run[x].sh.readers == 1);
        FlagMore(run, i, k, x);
      case ReaderWakesReaders =>
        FlagMore(run, i, k, x);
    }
  }

  lemma RdOutBegins(run: seq<State>, i: nat, k: nat)
    requires InRun(run, i, k) && run[k].agents[i] == Reading && run[k + 1].agents[i] == ReaderLoads
    requires Passive(run, i, k) || Steps(run[k], i, run[k + 1])
    ensures RdOutPhase(run, i, k, k + 1)
  {
    assert FlagKept(run, i, k);
    assert Net(run, i, k, k) == 0;
  }

  lemma {:induction false} RdOutTo(run: seq<State>, i: nat, k: nat, m: nat, x: nat)
    requires Called(run, i, Reading, ReaderLoads, RDUNLOCK, k, m) && k < x <= m
    ensures RdOutPhase(run, i, k, x)
  {
    hide IsRun, Inv, Count, Steps, Passive, RdOutPhase;
    Effect(run, x - 1, i);
    if x == k + 1 {
      RdOutBegins(run, i, k);
    } else {
      RdOutTo(run, i, k, m, x - 1);
      if Passive(run, i, x - 1) {
        RdOutRests(run, i, k, x - 1);
      } else {
        RdOutSteps(run, i, k, x - 1);
      }
    }
  }

  /** A completed pthread_rwlock_unlock by a reader found the writer flag clear and took exactly
      one off `readers`, and when nothing was left woke every writer that sleeps on `readers`;
      or it found the flag set, cleared it in place of that, leaving its increment behind, and
      woke everybody who sleeps on the flag. */
  lemma ReaderUnlocks(run: seq<State>, i: nat, k: nat, m: nat)
    requires Called(run, i, Reading, ReaderLoads, RDUNLOCK, k, m)
    ensures run[m].agents[i] == Idle
    ensures || (LeftCleanly(run, i, k, m, false))
            || (LeftCleanly(run, i, k, m, true) && WakesReaders(run, i, m - 1))
            || (LeftLeaking(run, i, k, m) && WakesFlag(run, i, m - 1))
  {
    hide IsRun;
    RdOutTo(run, i, k, m, m);
  }

  const WRUNLOCK: set<Pc> := {WriterLoads, WriterClears, WriterWakes}

  /** Where an agent stands that entered pthread_rwlock_unlock as a writer in step k. */
  ghost predicate WrOutPhase(run: seq<State>, i: nat, k: nat, x: nat) {
    k < x < |run| && i < |run[x].agents| && Net(run, i, k, x) == 0 &&
    match run[x].agents[i]
    case WriterLoads => FlagAlone(run, i, k, x)
    case WriterClears => FlagAlone(run, i, k, x)
    case WriterWakes => TurnedOnce(run, i, k, x, 0)
    case Idle => TurnedOnce(run, i, k, x, 0) && WakesFlag(run, i, x - 1)
    case _ => false
  }

  lemma WrOutOn(run: seq<State>, i: nat, k: nat, x: nat)
    requires WrOutPhase(run, i, k, x) && run[x].agents[i] in WRUNLOCK && InRun(run, i, x)
    requires run[x].agents[i] in {WriterLoads, WriterClears} ==> run[x].sh.writer == 1
    requires Passive(run, i, x) || Steps(run[x], i, run[x + 1])
    ensures WrOutPhase(run, i, k, x + 1)
  {
    if run[x].agents[i] == WriterClears && Moves(run, i, x) {
      FlagTurned(run, i, k, x, 0);
    } else {
      FlagMore(run, i, k, x);
    }
  }

  lemma WrOutBegins(run: seq<State>, i: nat, k: nat)
    requires InRun(run, i, k) && run[k].agents[i] == Writing && run[k + 1].agents[i] == WriterLoads
    requires Passive(run, i, k) || Steps(run[k], i, run[k + 1])
    ensures WrOutPhase(run, i, k, k + 1)
  {
    assert FlagKept(run, i, k);
    assert Net(run, i, k, k) == 0;
  }

  lemma {:induction false} WrOutTo(run: seq<State>, i: nat, k: nat, m: nat, x: nat)
    requires Called(run, i, Writing, WriterLoads, WRUNLOCK, k, m) && k < x <= m
    ensures WrOutPhase(run, i, k, x)
  {
    hide IsRun, Inv, Count, Steps, Passive, WrOutPhase;
    Effect(run, x - 1, i);
    if x == k + 1 {
      WrOutBegins(run, i, k);
    } else {
      WrOutTo(run, i, k, m, x - 1);
      if WriteHold(run[x - 1].agents[i]) {
        WriterExcludesAll(run, x - 1, i);
      }
      WrOutOn(run, i, k, x - 1);
    }
  }

  /** A completed pthread_rwlock_unlock by a writer turned the flag from 1 to 0, once, left
      `readers` alone, and woke everybody who sleeps on the flag after that. */
  lemma WriterUnlocks(run: seq<State>, i: nat, k: nat, m: nat)
    requires Called(run, i, Writing, WriterLoads, WRUNLOCK, k, m)
    ensures run[m].agents[i] == Idle && TurnedOnce(run, i, k, m, 0) && WakesFlag(run, i, m - 1)
    ensures Net(run, i, k, m) == 0
  {
    hide IsRun;
    WrOutTo(run, i, k, m, m);
  }

  // ---------------------------------------------------------------- the sleepers on the flag

  function FlagSleepW(pc: Pc): nat { Bit(pc in {RdAsleep, WrAsleep}) }
  function FlagWakeW(pc: Pc): nat { Bit(pc in {WriterWakes, ReaderWakesWriters}) }

  /** Whoever sleeps on a flag that is clear has a wake-up coming. */
  predicate Expected(s: State) {
    s.sh.writer == 0 && Total(s.agents, FlagSleepW) > 0 ==> Total(s.agents, FlagWakeW) > 0
  }

  lemma ExpectedStep(s: State, i: nat, reader: bool)
    requires i < |s.agents| && s.sh.writer <= 1 && Expected(s)
    ensures Expected(Step(s, i, reader))
  {
    var s' := Step(s, i, reader);
    if s.agents[i] in {WriterWakes, ReaderWakesWriters} {
      TotalZero(s'.agents, FlagSleepW);
    } else if s'.sh.writer == 0 && Total(s'.agents, FlagSleepW) > 0 {
      var j := TotalWitness(s'.agents, FlagSleepW);
      if s.sh.writer == 0 {
        TotalAtLeast(s.agents, j, FlagSleepW);
        var h := TotalWitness(s.agents, FlagWakeW);
        TotalAtLeast(s'.agents, h, FlagWakeW);
      } else {
        TotalAtLeast(s'.agents, i, FlagWakeW);
      }
    }
  }

  lemma {:induction false} RunExpected(run: seq<State>, k: nat)
    requires IsRun(run) && k < |run|
    ensures Expected(run[k])
  {
    if k == 0 {
      TotalZero(run[0].agents, FlagSleepW);
    } else {
      RunExpected(run, k - 1);
      RunInv(run, k - 1);
      assert Next(run[k - 1], run[k]);
      hide Count;
      if run[k] == run[k - 1].(agents := run[k - 1].agents + [Idle]) {
        TotalAppend(run[k - 1].agents, Idle, FlagSleepW);
        TotalAppend(run[k - 1].agents, Idle, FlagWakeW);
      } else {
        var i, reader :| 0 <= i < |run[k - 1].agents| && run[k] == Step(run[k - 1], i, reader);
        ExpectedStep(run[k - 1], i, reader);
      }
    }
  }

  /** No wake-up on the flag is lost: while it is clear and somebody sleeps on it, some unlock
      that cleared it still has its wake-up to run, and that one wakes every sleeper. */
  lemma NoLostFlagWakeup(run: seq<State>, k: nat, i: nat)
    requires IsRun(run) && k < |run| && run[k].sh.writer == 0
    requires i < |run[k].agents| && run[k].agents[i] in {RdAsleep, WrAsleep}
    ensures exists j: nat :: j < |run[k].agents| && run[k].agents[j] in {WriterWakes, ReaderWakesWriters}
  {
    RunExpected(run, k);
    TotalAtLeast(run[k].agents, i, FlagSleepW);
    var j := TotalWitness(run[k].agents, FlagWakeW);
  }

  // ---------------------------------------------------------------- completing a call

  predicate Asleep(pc: Pc) {
    pc in {RdAsleep, WrAsleep, WrAsleepReaders}
  }

  /** Outside every call, with or without a hold. */
  predicate Done(pc: Pc) {
    pc in {Idle, Reading, Writing}
  }

  /** Steps of agent i alone, none of them a spurious wake-up. */
  ghost predicate OwnPath(path: seq<State>, i: nat) {
    |path| > 0 && forall x :: 0 <= x < |path| - 1 ==> OwnStep(path[x], i, path[x + 1])
  }

  ghost predicate OwnStep(s: State, i: nat, s': State) {
    Steps(s, i, s') && !Asleep(s.agents[i])
  }

  /** Asleep, or waiting for the flag, or waiting for the readers, or about to sleep on them. */
  predicate Blocked(s: State, i: nat) {
    i < |s.agents| &&
    var pc := s.agents[i];
    || Asleep(pc)
    || (pc in RDLOCK && s.sh.writer != 0)
    || (pc in CLAIMING && (s.sh.writer != 0 || s.sh.readers != 0))
    || (pc == WrLoadReaders && s.sh.readers != 0)
    || pc == WrFutexReaders
  }

  /** How many steps a call that is not blocked still has before it, at the most. */
  function Ahead(pc: Pc): nat {
    match pc
    case Idle => 0
    case Reading => 0
    case Writing => 0
    case RdRecheck => 1
    case RdAdd => 2
    case RdLoadWriter => 3
    case RdFutex => 4
    case RdUndo => 4
    case WrLoadReaders => 1
    case WrExchange => 2
    case WrFutex => 3
    case ReaderLoads => 3
    case WriterLoads => 3
    case ReaderClearsWriter => 2
    case WriterClears => 2
    case ReaderSubtracts => 2
    case WriterSubtracts => 2
    case _ => 1
  }

  lemma Forward(s: State, i: nat)
    requires i < |s.agents| && !Done(s.agents[i]) && !Blocked(s, i)
    ensures var s' := Step(s, i, true);
            OwnStep(s, i, s') && !Blocked(s', i) && Ahead(s'.agents[i]) < Ahead(s.agents[i])
  {
  }

  lemma {:induction false} Finish(s: State, i: nat) returns (path: seq<State>)
    requires i < |s.agents| && !Blocked(s, i)
    ensures OwnPath(path, i) && path[0] == s && |path| <= Ahead(s.agents[i]) + 1
    ensures var last := path[|path| - 1]; i < |last.agents| && Done(last.agents[i])
    decreases Ahead(s.agents[i])
  {
    hide OwnStep, Blocked;
    if Done(s.agents[i]) {
      path := [s];
    } else {
      Forward(s, i);
      var rest := Finish(Step(s, i, true), i);
      path := [s] + rest;
    }
  }

  lemma BlockedStep(s: State, i: nat, s': State)
    requires Blocked(s, i) && s.sh.writer <= 1 && OwnStep(s, i, s')
    ensures Blocked(s', i) && s'.sh.writer <= 1
  {
  }

  lemma {:induction false} BlockedStays(path: seq<State>, i: nat, x: nat)
    requires OwnPath(path, i) && Blocked(path[0], i) && path[0].sh.writer <= 1 && x < |path|
    ensures Blocked(path[x], i) && path[x].sh.writer <= 1
  {
    hide OwnStep, Blocked;
    if x > 0 {
      BlockedStays(path, i, x - 1);
      BlockedStep(path[x - 1], i, path[x]);
    }
  }

  /** In every reachable state an agent can bring its call to its end by its own steps, four at
      the most, exactly when it is not blocked: not asleep, not before a flag or readers that
      keep it out, and not a writer that found readers and is about to wait for them. */
  lemma FinishesIff(run: seq<State>, k: nat, i: nat)
    requires IsRun(run) && k < |run| && i < |run[k].agents|
    ensures !Blocked(run[k], i) <==>
            exists path: seq<State> ::
              OwnPath(path, i) && path[0] == run[k] && |path| <= 5 && i < |path[|path| - 1].agents| &&
              Done(path[|path| - 1].agents[i])
  {
    RunInv(run, k);
    hide OwnPath, IsRun, Count;
    if Blocked(run[k], i) {
      forall path: seq<State> | OwnPath(path, i) && |path| > 0 && path[0] == run[k]
        ensures Blocked(path[|path| - 1], i)
      {
        BlockedStays(path, i, |path| - 1);
      }
    } else {
      var path := Finish(run[k], i);
    }
  }

  /** How many steps there are before an agent that waits for the flag sleeps, at the most. */
  function ToSleep(pc: Pc): nat {
    match pc
    case RdAsleep => 0
    case RdFutex => 1
    case RdLoadWriter => 2
    case RdUndo => 3
    case RdRecheck => 4
    case RdAdd => 5
    case WrAsleep => 0
    case WrFutex => 1
    case _ => 2
  }

  /** While the flag stays set, whoever waits for it goes to sleep after its next five steps at
      the latest, and leaves the flag set. */
  lemma {:induction false} FlagWaitersSleep(s: State, i: nat) returns (path: seq<State>)
    requires i < |s.agents| && s.agents[i] in RDLOCK + CLAIMING && s.sh.writer == 1
    ensures OwnPath(path, i) && path[0] == s && |path| <= ToSleep(s.agents[i]) + 1 <= 6
    ensures var last := path[|path| - 1];
            i < |last.agents| && last.agents[i] in {RdAsleep, WrAsleep} && last.sh.writer == 1
    decreases ToSleep(s.agents[i])
  {
    if s.agents[i] in {RdAsleep, WrAsleep} {
      path := [s];
    } else {
      SleepStep(s, i);
      hide OwnStep, ToSleep, Step;
      var rest := FlagWaitersSleep(Step(s, i, true), i);
      path := [s] + rest;
    }
  }

  lemma SleepStep(s: State, i: nat)
    requires i < |s.agents| && s.agents[i] in RDLOCK + CLAIMING && s.sh.writer == 1 && !Asleep(s.agents[i])
    ensures var s' := Step(s, i, true);
            OwnStep(s, i, s') && s'.agents[i] in RDLOCK + CLAIMING && s'.sh.writer == 1 &&
            ToSleep(s'.agents[i]) < ToSleep(s.agents[i])
  {
  }
}
