/** The read-write lock of src/pthread_rwlock.c as a state machine over its atomic steps.

    One agent stands for one hold: a thread with two read holds is two agents.  Agents may
    appear at any time and interleave in any order; sleepers may wake spuriously.  An agent
    calls pthread_rwlock_unlock only while it holds the lock. */
module RwLock {
  import opened Tally

  datatype Pc =
    | Idle
    // pthread_rwlock_rdlock
    | RdLoadWriter | RdFutex | RdAsleep | RdAdd | RdRecheck | RdUndo
    | Reading
    // pthread_rwlock_unlock by a reader
    | ReaderLoads | ReaderClearsWriter | ReaderWakesWriters | ReaderSubtracts | ReaderWakesReaders
    // pthread_rwlock_wrlock
    | WrExchange | WrFutex | WrAsleep | WrLoadReaders | WrFutexReaders | WrAsleepReaders
    | Writing
    // pthread_rwlock_unlock by a writer
    | WriterLoads | WriterClears | WriterWakes | WriterSubtracts | WriterWakesReaders

  /** `leak` counts the releases by readers that took the writer branch of unlock and so left
      their increment in `readers`; it is history. */
  datatype Shared = Shared(readers: int, writer: nat, leak: nat)

  datatype State = State(sh: Shared, agents: seq<Pc>)

  // ---------------------------------------------------------------- the steps

  /** The stepping agent; `reader` is the caller's choice when it starts a call. */
  function Local(sh: Shared, pc: Pc, reader: bool): Pc {
    match pc
    case Idle => if reader then RdLoadWriter else WrExchange
    case RdLoadWriter => if sh.writer != 0 then RdFutex else RdAdd
    case RdFutex => if sh.writer == 1 then RdAsleep else RdLoadWriter
    case RdAsleep => RdLoadWriter
    case RdAdd => RdRecheck
    case RdRecheck => if sh.writer == 0 then Reading else RdUndo
    case RdUndo => RdLoadWriter
    case Reading => ReaderLoads
    case ReaderLoads => if sh.writer != 0 then ReaderClearsWriter else ReaderSubtracts
    case ReaderClearsWriter => ReaderWakesWriters
    case ReaderWakesWriters => Idle
    case ReaderSubtracts => if sh.readers == 1 then ReaderWakesReaders else Idle
    case ReaderWakesReaders => Idle
    case WrExchange => if sh.writer != 0 then WrFutex else WrLoadReaders
    case WrFutex => if sh.writer == 1 then WrAsleep else WrExchange
    case WrAsleep => WrExchange
    case WrLoadReaders => if sh.readers != 0 then WrFutexReaders else Writing
    case WrFutexReaders => if sh.readers == 0 then WrAsleepReaders else WrLoadReaders
    case WrAsleepReaders => WrLoadReaders
    case Writing => WriterLoads
    case WriterLoads => if sh.writer != 0 then WriterClears else WriterSubtracts
    case WriterClears => WriterWakes
    case WriterWakes => Idle
    case WriterSubtracts => if sh.readers == 1 then WriterWakesReaders else Idle
    case WriterWakesReaders => Idle
  }

  function Global(sh: Shared, pc: Pc): Shared {
    match pc
    case RdAdd => sh.(readers := sh.readers + 1)
    case RdUndo => sh.(readers := sh.readers - 1)
    case ReaderClearsWriter => sh.(writer := 0, leak := sh.leak + 1)
    case ReaderSubtracts => sh.(readers := sh.readers - 1)
    case WrExchange => sh.(writer := 1)
    case WriterClears => sh.(writer := 0)
    case WriterSubtracts => sh.(readers := sh.readers - 1)
    case _ => sh
  }

  /** What the wake-ups of a step do to the sleepers: futex_wake with INT_MAX wakes them all. */
  function Woken(waker: Pc, pc: Pc): Pc {
    if waker in {ReaderWakesWriters, WriterWakes} then
      if pc == RdAsleep then RdLoadWriter else if pc == WrAsleep then WrExchange else pc
    else if waker in {ReaderWakesReaders, WriterWakesReaders} then
      if pc == WrAsleepReaders then WrLoadReaders else pc
    else pc
  }

  function Step(s: State, i: nat, reader: bool): State
    requires i < |s.agents|
  {
    State(Global(s.sh, s.agents[i]),
          seq(|s.agents|, j requires 0 <= j < |s.agents| =>
            if j == i then Local(s.sh, s.agents[i], reader) else Woken(s.agents[i], s.agents[j])))
  }

  ghost predicate Next(s: State, s': State) {
    || s' == s.(agents := s.agents + [Idle])
    || exists i, reader :: 0 <= i < |s.agents| && s' == Step(s, i, reader)
  }

  /** pthread_rwlock_init. */
  ghost predicate Init(s: State) {
    s.sh == Shared(0, 0, 0) && forall i :: 0 <= i < |s.agents| ==> s.agents[i] == Idle
  }

  ghost predicate IsRun(run: seq<State>) {
    && |run| > 0
    && Init(run[0])
    && forall k :: 0 <= k < |run| - 1 ==> Next(run[k], run[k + 1])
  }

  // ---------------------------------------------------------------- the invariant

  /** A read hold, up to the step that gives it back. */
  predicate ReadHold(pc: Pc) {
    pc in {Reading, ReaderLoads, ReaderClearsWriter, ReaderSubtracts}
  }

  /** A write hold, up to the step that gives it back. */
  predicate WriteHold(pc: Pc) {
    pc in {Writing, WriterLoads, WriterClears, WriterSubtracts}
  }

  function Bit(b: bool): nat { if b then 1 else 0 }
  /** The agent's increment is in `readers`. */
  function CountedW(pc: Pc): nat { Bit(ReadHold(pc) || pc in {RdRecheck, RdUndo}) }
  function ReadHoldW(pc: Pc): nat { Bit(ReadHold(pc)) }
  function WriteHoldW(pc: Pc): nat { Bit(WriteHold(pc)) }
  /** The agent set the writer flag and has not cleared it. */
  function ClaimW(pc: Pc): nat { Bit(WriteHold(pc) || pc in {WrLoadReaders, WrFutexReaders, WrAsleepReaders}) }
  /** About to clear the flag from the wrong side. */
  function ClearW(pc: Pc): nat { Bit(pc == ReaderClearsWriter) }
  function StrayW(pc: Pc): nat { Bit(pc in {WriterSubtracts, WriterWakesReaders}) }

  datatype Census = Census(counted: nat, readHold: nat, clear: nat, writeHold: nat, claim: nat, stray: nat) {
    function Plus(c: Census): Census {
      Census(counted + c.counted, readHold + c.readHold, clear + c.clear,
             writeHold + c.writeHold, claim + c.claim, stray + c.stray)
    }
    predicate Sound() {
      clear <= readHold <= counted && writeHold <= claim
    }
  }

  function Weigh(pc: Pc): (c: Census)
    ensures c.Sound()
  {
    Census(CountedW(pc), ReadHoldW(pc), ClearW(pc), WriteHoldW(pc), ClaimW(pc), StrayW(pc))
  }

  function Count(a: seq<Pc>): Census {
    Census(Total(a, CountedW), Total(a, ReadHoldW), Total(a, ClearW),
           Total(a, WriteHoldW), Total(a, ClaimW), Total(a, StrayW))
  }

  /** Every leaked or pending increment is in `readers`; until something leaks, the writer flag
      is the number of agents that claimed it, and a reader that saw it set still does; a
      writer inside means that nothing leaked and that there is no read hold. */
  predicate Inv(sh: Shared, c: Census) {
    && sh.readers == c.counted + sh.leak
    && sh.writer <= 1
    && (sh.leak == 0 ==> c.claim == sh.writer)
    && (c.writeHold > 0 ==> sh.leak == 0 && c.readHold == 0)
    && (c.clear > 0 && sh.leak == 0 ==> sh.writer == 1)
    && c.stray == 0
  }

  /** Inside pthread_rwlock_rdlock. */
  predicate Acquires(pc: Pc) {
    pc in {RdLoadWriter, RdFutex, RdAsleep, RdAdd, RdRecheck, RdUndo}
  }

  /** Holding for reading, or inside the release. */
  predicate Releases(pc: Pc) {
    ReadHold(pc) || pc in {ReaderWakesWriters, ReaderWakesReaders}
  }

  lemma AcquireStep(sh: Shared, o: Census, pc: Pc, reader: bool)
    requires o.Sound() && Inv(sh, o.Plus(Weigh(pc))) && Acquires(pc)
    ensures Inv(Global(sh, pc), o.Plus(Weigh(Local(sh, pc, reader))))
  {
  }

  lemma ReleaseStep(sh: Shared, o: Census, pc: Pc, reader: bool)
    requires o.Sound() && Inv(sh, o.Plus(Weigh(pc))) && Releases(pc)
    ensures Inv(Global(sh, pc), o.Plus(Weigh(Local(sh, pc, reader))))
  {
  }

  lemma WriterStep(sh: Shared, o: Census, pc: Pc, reader: bool)
    requires o.Sound() && Inv(sh, o.Plus(Weigh(pc))) && !Acquires(pc) && !Releases(pc)
    ensures Inv(Global(sh, pc), o.Plus(Weigh(Local(sh, pc, reader))))
  {
  }

  lemma StepKeepsInv(sh: Shared, o: Census, pc: Pc, reader: bool)
    requires o.Sound() && Inv(sh, o.Plus(Weigh(pc)))
    ensures Inv(Global(sh, pc), o.Plus(Weigh(Local(sh, pc, reader))))
  {
    hide *;
    if Acquires(pc) {
      AcquireStep(sh, o, pc, reader);
    } else if Releases(pc) {
      ReleaseStep(sh, o, pc, reader);
    } else {
      WriterStep(sh, o, pc, reader);
    }
  }

  lemma {:induction false} CountSound(a: seq<Pc>)
    ensures Count(a).Sound()
  {
    if a != [] {
      CountSound(a[1..]);
    }
  }

  lemma CountPut(a: seq<Pc>, i: nat, pc: Pc)
    requires i < |a|
    ensures Count(a[i := pc]) == Count(a[i := Idle]).Plus(Weigh(pc))
  {
    hide Total;
    var b := a[i := Idle];
    assert b[i := pc] == a[i := pc];
    TotalUpdate(b, i, pc, CountedW);
    TotalUpdate(b, i, pc, ReadHoldW);
    TotalUpdate(b, i, pc, ClearW);
    TotalUpdate(b, i, pc, WriteHoldW);
    TotalUpdate(b, i, pc, ClaimW);
    TotalUpdate(b, i, pc, StrayW);
  }

  lemma CountSame(a: seq<Pc>, b: seq<Pc>)
    requires |a| == |b| && forall i :: 0 <= i < |a| ==> Weigh(a[i]) == Weigh(b[i])
    ensures Count(a) == Count(b)
  {
    TotalCongruent(a, b, CountedW, CountedW);
    TotalCongruent(a, b, ReadHoldW, ReadHoldW);
    TotalCongruent(a, b, ClearW, ClearW);
    TotalCongruent(a, b, WriteHoldW, WriteHoldW);
    TotalCongruent(a, b, ClaimW, ClaimW);
    TotalCongruent(a, b, StrayW, StrayW);
  }

  lemma CountSpawn(a: seq<Pc>)
    ensures Count(a + [Idle]) == Count(a)
  {
    TotalAppend(a, Idle, CountedW);
    TotalAppend(a, Idle, ReadHoldW);
    TotalAppend(a, Idle, ClearW);
    TotalAppend(a, Idle, WriteHoldW);
    TotalAppend(a, Idle, ClaimW);
    TotalAppend(a, Idle, StrayW);
  }

  lemma CountStep(s: State, i: nat, reader: bool)
    requires i < |s.agents|
    ensures var o := Count(s.agents[i := Idle]);
            && o.Sound()
            && Count(s.agents) == o.Plus(Weigh(s.agents[i]))
            && Count(Step(s, i, reader).agents) == o.Plus(Weigh(Local(s.sh, s.agents[i], reader)))
  {
    hide Count;
    CountSound(s.agents[i := Idle]);
    assert s.agents[i := s.agents[i]] == s.agents;
    CountPut(s.agents, i, s.agents[i]);
    CountPut(s.agents, i, Local(s.sh, s.agents[i], reader));
    CountSame(Step(s, i, reader).agents, s.agents[i := Local(s.sh, s.agents[i], reader)]);
  }

  lemma NextKeepsInv(s: State, s': State)
    requires Inv(s.sh, Count(s.agents)) && Next(s, s')
    ensures Inv(s'.sh, Count(s'.agents)) && s.sh.leak <= s'.sh.leak
  {
    hide Count;
    if s' == s.(agents := s.agents + [Idle]) {
      CountSpawn(s.agents);
    } else {
      var i, reader :| 0 <= i < |s.agents| && s' == Step(s, i, reader);
      CountStep(s, i, reader);
      StepKeepsInv(s.sh, Count(s.agents[i := Idle]), s.agents[i], reader);
    }
  }

  lemma {:induction false} RunInv(run: seq<State>, k: nat)
    requires IsRun(run) && k < |run|
    ensures Inv(run[k].sh, Count(run[k].agents))
  {
    if k == 0 {
      CountSame(run[0].agents, seq(|run[0].agents|, _ => Idle));
      TotalZero(run[0].agents, CountedW);
      TotalZero(run[0].agents, ClearW);
      TotalZero(run[0].agents, WriteHoldW);
      TotalZero(run[0].agents, ClaimW);
      TotalZero(run[0].agents, StrayW);
    } else {
      RunInv(run, k - 1);
      assert Next(run[k - 1], run[k]);
      NextKeepsInv(run[k - 1], run[k]);
    }
  }

  // ---------------------------------------------------------------- what every run keeps

  /** A writer inside excludes every reader and every other writer, in every run, whichever
      branch earlier releases took. */
  lemma WriterExcludesAll(run: seq<State>, k: nat, i: nat)
    requires IsRun(run) && k < |run| && i < |run[k].agents| && WriteHold(run[k].agents[i])
    ensures forall j :: 0 <= j < |run[k].agents| && j != i ==>
                        !ReadHold(run[k].agents[j]) && !WriteHold(run[k].agents[j])
    ensures run[k].sh.writer == 1
  {
    var a := run[k].agents;
    RunInv(run, k);
    TotalAtLeast(a, i, WriteHoldW);
    CountSound(a);
    forall j | 0 <= j < |a| && j != i ensures !ReadHold(a[j]) && !WriteHold(a[j]) {
      TotalAtLeast(a, j, ReadHoldW);
      TotalAtLeastTwo(a, if i < j then i else j, if i < j then j else i, WriteHoldW);
    }
  }

  /** The reader count is exact up to what leaked: it is the number of agents whose increment
      is pending or held, plus one for every read release that took the writer branch. */
  lemma ReadersAreCounted(run: seq<State>, k: nat)
    requires IsRun(run) && k < |run|
    ensures run[k].sh.readers == Total(run[k].agents, CountedW) + run[k].sh.leak
    ensures run[k].sh.leak == 0 ==> Total(run[k].agents, ClaimW) == run[k].sh.writer <= 1
  {
    RunInv(run, k);
  }

  lemma LeakMeansNoWriter(s: State)
    requires Inv(s.sh, Count(s.agents)) && s.sh.leak > 0
    ensures forall i :: 0 <= i < |s.agents| ==> !WriteHold(s.agents[i])
  {
    forall i | 0 <= i < |s.agents| ensures !WriteHold(s.agents[i]) {
      TotalAtLeast(s.agents, i, WriteHoldW);
    }
  }

  lemma {:induction false} LeakStays(run: seq<State>, k: nat, m: nat)
    requires IsRun(run) && k <= m < |run|
    ensures run[k].sh.leak <= run[m].sh.leak
    decreases m - k
  {
    hide Inv, Count;
    if k < m {
      LeakStays(run, k, m - 1);
      RunInv(run, m - 1);
      assert Next(run[m - 1], run[m]);
      NextKeepsInv(run[m - 1], run[m]);
    }
  }

  /** After one read release took the writer branch, no writer ever gets inside again. */
  lemma LeakShutsWritersOut(run: seq<State>, k: nat, m: nat)
    requires IsRun(run) && k <= m < |run| && run[k].sh.leak > 0
    ensures run[m].sh.leak > 0
    ensures forall i :: 0 <= i < |run[m].agents| ==> !WriteHold(run[m].agents[i])
  {
    hide Inv, Count, IsRun;
    LeakStays(run, k, m);
    RunInv(run, m);
    LeakMeansNoWriter(run[m]);
  }

  ghost predicate Reachable(s: State) {
    exists run :: IsRun(run) && run[|run| - 1] == s
  }

  lemma {:induction false} StepReaches(s: State, i: nat, reader: bool, s': State)
    requires Reachable(s) && i < |s.agents| && s' == Step(s, i, reader)
    ensures Reachable(s')
  {
    var run :| IsRun(run) && run[|run| - 1] == s;
    var longer := run + [s'];
    assert Next(s, s');
    forall k | 0 <= k < |longer| - 1 ensures Next(longer[k], longer[k + 1]) {
      assert k < |run| - 1 ==> Next(run[k], run[k + 1]);
    }
    assert IsRun(longer) && longer[|longer| - 1] == s';
  }

  /** Two agents and what they run, one step of the first or of the second. */
  function Pair(sh: Shared, a: Pc, b: Pc): State {
    State(sh, [a, b])
  }

  lemma First(sh: Shared, a: Pc, b: Pc)
    requires Reachable(Pair(sh, a, b))
    ensures Reachable(Pair(Global(sh, a), Local(sh, a, true), Woken(a, b)))
  {
    StepReaches(Pair(sh, a, b), 0, true, Pair(Global(sh, a), Local(sh, a, true), Woken(a, b)));
  }

  lemma Second(sh: Shared, a: Pc, b: Pc)
    requires Reachable(Pair(sh, a, b))
    ensures Reachable(Pair(Global(sh, b), Woken(b, a), Local(sh, b, false)))
  {
    StepReaches(Pair(sh, a, b), 1, false, Pair(Global(sh, b), Woken(b, a), Local(sh, b, false)));
  }

  lemma ReaderInside()
    ensures Reachable(Pair(Shared(1, 0, 0), Reading, Idle))
  {
    var free, one := Shared(0, 0, 0), Shared(1, 0, 0);
    assert Init(Pair(free, Idle, Idle)) && IsRun([Pair(free, Idle, Idle)]);
    assert Reachable(Pair(free, Idle, Idle));
    First(free, Idle, Idle);
    First(free, RdLoadWriter, Idle);
    First(free, RdAdd, Idle);
    First(one, RdRecheck, Idle);
  }

  lemma WriterQueued()
    ensures Reachable(Pair(Shared(1, 1, 0), Reading, WrLoadReaders))
  {
    ReaderInside();
    Second(Shared(1, 0, 0), Reading, Idle);
    Second(Shared(1, 0, 0), Reading, WrExchange);
  }

  /** Such a release happens: a writer queues behind a reader and the reader unlocks.  Then
      nobody holds the lock, yet `readers` stays above zero. */
  lemma LeakHappens()
    ensures Reachable(Pair(Shared(1, 0, 1), Idle, WrLoadReaders))
  {
    WriterQueued();
    First(Shared(1, 1, 0), Reading, WrLoadReaders);
    First(Shared(1, 1, 0), ReaderLoads, WrLoadReaders);
    First(Shared(1, 1, 0), ReaderClearsWriter, WrLoadReaders);
    First(Shared(1, 0, 1), ReaderWakesWriters, WrLoadReaders);
  }

  lemma WriterMeetsLeavingReader()
    ensures Reachable(Pair(Shared(1, 1, 0), ReaderSubtracts, WrLoadReaders))
  {
    ReaderInside();
    First(Shared(1, 0, 0), Reading, Idle);
    First(Shared(1, 0, 0), ReaderLoads, Idle);
    Second(Shared(1, 0, 0), ReaderSubtracts, Idle);
    Second(Shared(1, 0, 0), ReaderSubtracts, WrExchange);
  }

  /** The other way to wait in vain: the writer loads `readers` just before the last reader
      leaves and then asks futex_wait to sleep while the count is 0, so it sleeps on a lock
      that is free. */
  lemma WriterSleepsOnFreeLock()
    ensures Reachable(Pair(Shared(0, 1, 0), Idle, WrAsleepReaders))
  {
    WriterMeetsLeavingReader();
    Second(Shared(1, 1, 0), ReaderSubtracts, WrLoadReaders);
    First(Shared(1, 1, 0), ReaderSubtracts, WrFutexReaders);
    First(Shared(0, 1, 0), ReaderWakesReaders, WrFutexReaders);
    Second(Shared(0, 1, 0), Idle, WrFutexReaders);
  }
}
