/** pthread_barrier_wait of src/pthread_barrier.c, run step by step over the futex mutex and
    the sequence-numbered condition variable of src/pthread.c.

    Any number of threads call the barrier any number of times, interleaved in any order.
    The barrier's mutex is a normal one, so its owner and recursion fields are never read
    and are not part of the state. */
module Barrier {
  import opened Tally

  datatype Pc =
    | Idle
    // pthread_mutex_lock, on entry or (back) at the end of pthread_cond_wait
    | Exchange | FutexWait | AsleepLock
    // the body of pthread_barrier_wait, lock held
    | LoadPhase | AddWaiting
    | ResetWaiting | BumpPhase | BumpSeq | WakeAll
    | CheckPhase
    // pthread_cond_wait
    | LoadSeq | CondStoreZero | CondWake | CheckSeq | CondFutexWait | AsleepCond
    // the final pthread_mutex_unlock and the return
    | StoreZero | WakeLock

  /** `gen` and `seen` are the locals `phase` and `seq` of the source, `back` tells the two
      lock acquisitions apart, `serial` is the value about to be returned.  `rank` is the
      value of `waiting` that the call incremented; the code keeps only rank + 1. */
  datatype Thread = Thread(pc: Pc, back: bool, gen: nat, seen: nat, serial: bool, rank: nat)

  const OUTSIDE := Thread(Idle, false, 0, 0, false, 0)

  /** The barrier object; `arrivals` counts the increments of `waiting` and is history. */
  datatype Shared = Shared(count: nat, waiting: nat, phase: nat, word: nat, seqno: nat, arrivals: nat)

  /** One call of the barrier: the phase it read and its rank among the arrivals. */
  datatype Ticket = Ticket(gen: nat, rank: nat)

  /** `results` holds what every returned call returned, true for
      PTHREAD_BARRIER_SERIAL_THREAD; it is history. */
  datatype State = State(sh: Shared, results: map<Ticket, bool>, threads: seq<Thread>)

  // ---------------------------------------------------------------- the steps

  /** What one step does to the stepping thread. */
  function Local(sh: Shared, t: Thread): Thread {
    match t.pc
    case Idle => OUTSIDE.(pc := Exchange)
    case Exchange => t.(pc := if sh.word != 0 then FutexWait else if t.back then CheckPhase else LoadPhase)
    case FutexWait => t.(pc := if sh.word == 1 then AsleepLock else Exchange)
    case AsleepLock => t.(pc := Exchange)
    case LoadPhase => t.(pc := AddWaiting, gen := sh.phase)
    case AddWaiting => t.(pc := if sh.waiting + 1 == sh.count then ResetWaiting else CheckPhase, rank := sh.waiting)
    case ResetWaiting => t.(pc := BumpPhase)
    case BumpPhase => t.(pc := BumpSeq)
    case BumpSeq => t.(pc := WakeAll)
    case WakeAll => t.(pc := StoreZero, serial := true)
    case CheckPhase => t.(pc := if t.gen == sh.phase then LoadSeq else StoreZero)
    case LoadSeq => t.(pc := CondStoreZero, seen := sh.seqno)
    case CondStoreZero => t.(pc := CondWake)
    case CondWake => t.(pc := CheckSeq)
    case CheckSeq => if sh.seqno == t.seen then t.(pc := CondFutexWait) else t.(pc := Exchange, back := true)
    case CondFutexWait => t.(pc := if sh.seqno == t.seen then AsleepCond else CheckSeq)
    case AsleepCond => t.(pc := CheckSeq)
    case StoreZero => t.(pc := WakeLock)
    case WakeLock => OUTSIDE
  }

  /** What one step does to the barrier object. */
  function Global(sh: Shared, t: Thread): Shared {
    match t.pc
    case Exchange => sh.(word := 1)
    case AddWaiting => sh.(waiting := sh.waiting + 1, arrivals := sh.arrivals + 1)
    case ResetWaiting => sh.(waiting := 0)
    case BumpPhase => sh.(phase := sh.phase + 1)
    case BumpSeq => sh.(seqno := sh.seqno + 1)
    case CondStoreZero => sh.(word := 0)
    case StoreZero => sh.(word := 0)
    case _ => sh
  }

  function TicketOf(t: Thread): Ticket {
    Ticket(t.gen, t.rank)
  }

  /** A step before any futex_wake takes effect. */
  function Moved(s: State, i: nat): State
    requires i < |s.threads|
  {
    var t := s.threads[i];
    State(Global(s.sh, t),
          if t.pc == WakeLock then s.results[TicketOf(t) := t.serial] else s.results,
          s.threads[i := Local(s.sh, t)])
  }

  /** futex_wake(&locked, 1): one sleeper, whichever the kernel picks, if there is any. */
  ghost predicate WakesOne(s: State, s': State) {
    || (s' == s && forall j :: 0 <= j < |s.threads| ==> s.threads[j].pc != AsleepLock)
    || exists j :: 0 <= j < |s.threads| && s.threads[j].pc == AsleepLock
                   && s' == s.(threads := s.threads[j := s.threads[j].(pc := Exchange)])
  }

  function Woken(t: Thread): Thread {
    if t.pc == AsleepCond then t.(pc := CheckSeq) else t
  }

  /** futex_wake(&seq, INT_MAX). */
  function WakeEveryWaiter(s: State): State {
    s.(threads := seq(|s.threads|, i requires 0 <= i < |s.threads| => Woken(s.threads[i])))
  }

  ghost predicate ThreadStep(s: State, i: nat, s': State)
    requires i < |s.threads|
  {
    match s.threads[i].pc
    case WakeAll => s' == WakeEveryWaiter(Moved(s, i))
    case CondWake => WakesOne(Moved(s, i), s')
    case WakeLock => WakesOne(Moved(s, i), s')
    case _ => s' == Moved(s, i)
  }

  ghost predicate Spawn(s: State, s': State) {
    s' == s.(threads := s.threads + [OUTSIDE])
  }

  ghost predicate Next(s: State, s': State) {
    || Spawn(s, s')
    || exists i :: 0 <= i < |s.threads| && ThreadStep(s, i, s')
  }

  /** pthread_barrier_init, which refuses a count of zero. */
  ghost predicate Init(s: State) {
    && s.sh.count > 0 && s.sh == Shared(s.sh.count, 0, 0, 0, 0, 0)
    && s.results == map[]
    && forall i :: 0 <= i < |s.threads| ==> s.threads[i] == OUTSIDE
  }

  ghost predicate IsRun(run: seq<State>) {
    && |run| > 0
    && Init(run[0])
    && forall k :: 0 <= k < |run| - 1 ==> Next(run[k], run[k + 1])
  }

  // ---------------------------------------------------------------- counting threads

  predicate Holds(t: Thread) {
    t.pc in {LoadPhase, AddWaiting, ResetWaiting, BumpPhase, BumpSeq, WakeAll, CheckPhase,
             LoadSeq, CondStoreZero, StoreZero}
  }

  /** Where a call stands: not arrived yet, about to arrive, waiting, sure to wait because it
      has compared the phase under the lock, completing its generation before or after the
      increment of `phase`, or leaving. */
  datatype Role = Outside | Joining | Waiting | Sure | Closing | Releasing | Leaving

  function RoleOf(t: Thread): Role {
    match t.pc
    case Idle => Outside
    case Exchange => if t.back then Waiting else Outside
    case FutexWait => if t.back then Waiting else Outside
    case AsleepLock => if t.back then Waiting else Outside
    case LoadPhase => Outside
    case AddWaiting => Joining
    case ResetWaiting => Closing
    case BumpPhase => Closing
    case BumpSeq => Releasing
    case WakeAll => Releasing
    case CheckPhase => Waiting
    case LoadSeq => Sure
    case CondStoreZero => Sure
    case CondWake => Waiting
    case CheckSeq => Waiting
    case CondFutexWait => Waiting
    case AsleepCond => Waiting
    case StoreZero => Leaving
    case WakeLock => Leaving
  }

  /** The call has incremented `waiting` and has not returned. */
  predicate Arrived(t: Thread) {
    RoleOf(t) !in {Outside, Joining}
  }

  /** How many threads hold the lock, sleep on it, will retry it or owe it a wake-up, and
      how many are in each of the four steps of a last arrival. */
  datatype Census = Census(holds: nat, asleep: nat, prompt: nat, reset: nat, bump: nat, signal: nat, waking: nat) {
    function Plus(c: Census): Census {
      Census(holds + c.holds, asleep + c.asleep, prompt + c.prompt, reset + c.reset,
             bump + c.bump, signal + c.signal, waking + c.waking)
    }

    predicate AtMost(c: Census) {
      && holds <= c.holds && asleep <= c.asleep && prompt <= c.prompt && reset <= c.reset
      && bump <= c.bump && signal <= c.signal && waking <= c.waking
    }

    /** The four steps run under the lock. */
    predicate UnderLock() {
      reset + bump + signal + waking <= holds
    }
  }

  function Bit(b: bool): nat { if b then 1 else 0 }

  function HoldsW(t: Thread): nat { Bit(Holds(t)) }
  function AsleepW(t: Thread): nat { Bit(t.pc == AsleepLock) }
  function PromptW(t: Thread): nat { Bit(t.pc in {Exchange, FutexWait, WakeLock, CondWake}) }
  function ResetW(t: Thread): nat { Bit(t.pc == ResetWaiting) }
  function BumpW(t: Thread): nat { Bit(t.pc == BumpPhase) }
  function SignalW(t: Thread): nat { Bit(t.pc == BumpSeq) }
  function WakingW(t: Thread): nat { Bit(t.pc == WakeAll) }

  function Weigh(t: Thread): Census {
    Census(HoldsW(t), AsleepW(t), PromptW(t), ResetW(t), BumpW(t), SignalW(t), WakingW(t))
  }

  function Count(ts: seq<Thread>): Census {
    Census(Total(ts, HoldsW), Total(ts, AsleepW), Total(ts, PromptW), Total(ts, ResetW),
           Total(ts, BumpW), Total(ts, SignalW), Total(ts, WakingW))
  }

  /** The census without thread i. */
  function Others(ts: seq<Thread>, i: nat): Census
    requires i < |ts|
  {
    Count(ts[i := OUTSIDE])
  }

  lemma CountPut(ts: seq<Thread>, i: nat, t: Thread)
    requires i < |ts|
    ensures Count(ts[i := t]) == Others(ts, i).Plus(Weigh(t))
  {
    hide Total;
    var us := ts[i := OUTSIDE];
    assert us[i := t] == ts[i := t] && us[i] == OUTSIDE;
    TotalUpdate(us, i, t, HoldsW);
    TotalUpdate(us, i, t, AsleepW);
    TotalUpdate(us, i, t, PromptW);
    TotalUpdate(us, i, t, ResetW);
    TotalUpdate(us, i, t, BumpW);
    TotalUpdate(us, i, t, SignalW);
    TotalUpdate(us, i, t, WakingW);
  }

  lemma CountSplit(ts: seq<Thread>, i: nat)
    requires i < |ts|
    ensures Count(ts) == Others(ts, i).Plus(Weigh(ts[i]))
  {
    hide Count;
    CountPut(ts, i, ts[i]);
    assert ts[i := ts[i]] == ts;
  }

  lemma CountHas(ts: seq<Thread>, i: nat)
    requires i < |ts|
    ensures Weigh(ts[i]).AtMost(Count(ts))
  {
    CountSplit(ts, i);
  }

  lemma CountAppend(ts: seq<Thread>)
    ensures Count(ts + [OUTSIDE]) == Count(ts)
  {
    hide Total;
    TotalAppend(ts, OUTSIDE, HoldsW);
    TotalAppend(ts, OUTSIDE, AsleepW);
    TotalAppend(ts, OUTSIDE, PromptW);
    TotalAppend(ts, OUTSIDE, ResetW);
    TotalAppend(ts, OUTSIDE, BumpW);
    TotalAppend(ts, OUTSIDE, SignalW);
    TotalAppend(ts, OUTSIDE, WakingW);
  }

  lemma CountSame(ts: seq<Thread>, us: seq<Thread>)
    requires |ts| == |us| && forall i :: 0 <= i < |ts| ==> Weigh(ts[i]) == Weigh(us[i])
    ensures Count(ts) == Count(us)
  {
    TotalCongruent(ts, us, HoldsW, HoldsW);
    TotalCongruent(ts, us, AsleepW, AsleepW);
    TotalCongruent(ts, us, PromptW, PromptW);
    TotalCongruent(ts, us, ResetW, ResetW);
    TotalCongruent(ts, us, BumpW, BumpW);
    TotalCongruent(ts, us, SignalW, SignalW);
    TotalCongruent(ts, us, WakingW, WakingW);
  }

  lemma {:induction false} CountUnderLock(ts: seq<Thread>)
    ensures Count(ts).UnderLock()
  {
    if ts != [] {
      CountUnderLock(ts[1..]);
    }
  }

  // ---------------------------------------------------------------- the invariant

  /** The generation that is filling up: `phase`, except between the reset of `waiting` and
      the increment of `phase`. */
  function Epoch(sh: Shared, c: Census): nat {
    sh.phase + c.bump
  }

  /** The ticket was handed out. */
  predicate Issued(sh: Shared, c: Census, k: Ticket) {
    k.rank < sh.count && (k.gen < Epoch(sh, c) || (k.gen == Epoch(sh, c) && k.rank < sh.waiting))
  }

  predicate Last(sh: Shared, k: Ticket) {
    k.rank + 1 == sh.count
  }

  /** The counters and the lock word. */
  predicate CountersInv(sh: Shared, c: Census) {
    && sh.count > 0
    && c.holds == sh.word <= 1
    && (c.reset == 0 ==> sh.waiting < sh.count)
    && (c.reset > 0 ==> sh.waiting == sh.count)
    && (c.bump > 0 ==> sh.waiting == 0)
  }

  predicate Generations(sh: Shared, c: Census) {
    sh.arrivals == Epoch(sh, c) * sh.count + sh.waiting
  }

  /** Every finished generation is broadcast once. */
  predicate Broadcasts(sh: Shared, c: Census) {
    sh.seqno + c.signal == sh.phase
  }

  predicate ArrivalsInv(sh: Shared, c: Census) {
    Generations(sh, c) && Broadcasts(sh, c)
  }

  /** A free lock with sleepers has somebody about to retry it or to wake one of them. */
  predicate PromptInv(sh: Shared, c: Census) {
    sh.word == 0 && c.asleep > 0 ==> c.prompt > 0
  }

  /** What the role of a thread says about its ticket. */
  predicate PlaceInv(sh: Shared, c: Census, t: Thread) {
    var k := TicketOf(t);
    match RoleOf(t)
    case Outside => !t.serial
    case Joining => !t.serial && t.gen == sh.phase
    case Waiting => !t.serial && t.gen <= sh.phase && Issued(sh, c, k) && !Last(sh, k)
    case Sure => !t.serial && t.gen == sh.phase && Issued(sh, c, k) && !Last(sh, k)
    case Closing => !t.serial && t.gen == sh.phase && Issued(sh, c, k) && Last(sh, k)
    case Releasing => !t.serial && t.gen < sh.phase && Issued(sh, c, k) && Last(sh, k)
    case Leaving => t.gen < sh.phase && Issued(sh, c, k) && (t.serial <==> Last(sh, k))
  }

  /** A waiter of a finished generation is covered by a broadcast that is still under way. */
  predicate CoverInv(sh: Shared, c: Census, t: Thread) {
    && (t.pc == CondStoreZero ==> t.seen == sh.seqno)
    && (t.pc in {CondWake, CheckSeq, CondFutexWait, AsleepCond} ==>
          t.seen <= sh.seqno && (t.gen < sh.phase && t.seen == sh.seqno ==> c.signal > 0))
    && (t.pc == AsleepCond && t.seen < sh.seqno ==> c.waking > 0)
  }

  predicate ThreadInv(sh: Shared, c: Census, t: Thread) {
    PlaceInv(sh, c, t) && CoverInv(sh, c, t)
  }

  ghost predicate ThreadsInv(s: State) {
    forall i :: 0 <= i < |s.threads| ==> ThreadInv(s.sh, Count(s.threads), s.threads[i])
  }

  ghost predicate InFlight(s: State, k: Ticket) {
    exists i :: 0 <= i < |s.threads| && Arrived(s.threads[i]) && TicketOf(s.threads[i]) == k
  }

  /** No ticket is held twice, and none is held after its call returned. */
  ghost predicate TicketsUnique(s: State) {
    && (forall i, j | 0 <= i < |s.threads| && 0 <= j < |s.threads| ::
          i != j && Arrived(s.threads[i]) && Arrived(s.threads[j]) ==> TicketOf(s.threads[i]) != TicketOf(s.threads[j]))
    && (forall i | 0 <= i < |s.threads| :: Arrived(s.threads[i]) ==> TicketOf(s.threads[i]) !in s.results)
  }

  /** Every issued ticket is in flight or has returned. */
  ghost predicate TicketsKept(s: State) {
    forall k | Issued(s.sh, Count(s.threads), k) :: k in s.results || InFlight(s, k)
  }

  /** A call that returned belongs to a finished generation and returned what its rank asks. */
  ghost predicate ResultsInv(s: State) {
    forall k | k in s.results ::
      Issued(s.sh, Count(s.threads), k) && k.gen < s.sh.phase && s.results[k] == Last(s.sh, k)
  }

  ghost predicate Inv(s: State) {
    && CountersInv(s.sh, Count(s.threads)) && ArrivalsInv(s.sh, Count(s.threads)) && PromptInv(s.sh, Count(s.threads))
    && ThreadsInv(s) && TicketsUnique(s) && TicketsKept(s) && ResultsInv(s)
  }

  // ---------------------------------------------------------------- one step, on values

  lemma StepUnderLock(sh: Shared, o: Census, t: Thread)
    requires o.UnderLock() && CountersInv(sh, o.Plus(Weigh(t))) && Holds(t)
    ensures CountersInv(Global(sh, t), o.Plus(Weigh(Local(sh, t))))
  {
  }

  lemma StepOutside(sh: Shared, o: Census, t: Thread)
    requires o.UnderLock() && CountersInv(sh, o.Plus(Weigh(t))) && !Holds(t)
    ensures CountersInv(Global(sh, t), o.Plus(Weigh(Local(sh, t))))
  {
  }

  lemma StepEpoch(sh: Shared, o: Census, t: Thread)
    ensures Epoch(Global(sh, t), o.Plus(Weigh(Local(sh, t))))
            == Epoch(sh, o.Plus(Weigh(t))) + Bit(t.pc == ResetWaiting)
  {
  }

  lemma StepCounters(sh: Shared, o: Census, t: Thread)
    requires o.UnderLock() && CountersInv(sh, o.Plus(Weigh(t)))
    ensures CountersInv(Global(sh, t), o.Plus(Weigh(Local(sh, t))))
    ensures Epoch(Global(sh, t), o.Plus(Weigh(Local(sh, t))))
            == Epoch(sh, o.Plus(Weigh(t))) + Bit(t.pc == ResetWaiting)
  {
    hide *;
    StepEpoch(sh, o, t);
    if Holds(t) {
      StepUnderLock(sh, o, t);
    } else {
      StepOutside(sh, o, t);
    }
  }

  lemma StepGenerations(sh: Shared, o: Census, t: Thread)
    requires o.UnderLock() && CountersInv(sh, o.Plus(Weigh(t))) && Generations(sh, o.Plus(Weigh(t)))
    ensures Generations(Global(sh, t), o.Plus(Weigh(Local(sh, t))))
  {
    var e, e' := Epoch(sh, o.Plus(Weigh(t))), Epoch(Global(sh, t), o.Plus(Weigh(Local(sh, t))));
    StepCounters(sh, o, t);
    assert e' * sh.count == e * sh.count + (if t.pc == ResetWaiting then sh.count else 0);
  }

  lemma StepBroadcasts(sh: Shared, o: Census, t: Thread)
    requires Broadcasts(sh, o.Plus(Weigh(t)))
    ensures Broadcasts(Global(sh, t), o.Plus(Weigh(Local(sh, t))))
  {
  }

  lemma StepArrivals(sh: Shared, o: Census, t: Thread)
    requires o.UnderLock() && CountersInv(sh, o.Plus(Weigh(t))) && ArrivalsInv(sh, o.Plus(Weigh(t)))
    ensures ArrivalsInv(Global(sh, t), o.Plus(Weigh(Local(sh, t))))
  {
    hide Generations, Broadcasts, CountersInv;
    StepGenerations(sh, o, t);
    StepBroadcasts(sh, o, t);
  }

  lemma StepPrompt(sh: Shared, o: Census, t: Thread)
    requires o.UnderLock() && CountersInv(sh, o.Plus(Weigh(t))) && PromptInv(sh, o.Plus(Weigh(t)))
    requires t.pc !in {CondWake, WakeLock}
    ensures PromptInv(Global(sh, t), o.Plus(Weigh(Local(sh, t))))
  {
  }

  /** Tickets stay issued; exactly AddWaiting hands out a new one, to the stepping thread. */
  lemma StepIssued(sh: Shared, o: Census, t: Thread, k: Ticket)
    requires o.UnderLock() && CountersInv(sh, o.Plus(Weigh(t))) && ThreadInv(sh, o.Plus(Weigh(t)), t)
    ensures Issued(Global(sh, t), o.Plus(Weigh(Local(sh, t))), k)
            <==> Issued(sh, o.Plus(Weigh(t)), k) || (t.pc == AddWaiting && k == TicketOf(Local(sh, t)))
    ensures t.pc == AddWaiting ==> !Issued(sh, o.Plus(Weigh(t)), TicketOf(Local(sh, t)))
  {
  }

  /** The stepping thread, given how the set of issued tickets reacts. */
  lemma PlaceSelf(sh: Shared, c: Census, c': Census, t: Thread)
    requires PlaceInv(sh, c, t)
    requires Issued(Global(sh, t), c', TicketOf(Local(sh, t)))
             <==> Issued(sh, c, TicketOf(Local(sh, t))) || t.pc == AddWaiting
    ensures PlaceInv(Global(sh, t), c', Local(sh, t))
  {
  }

  lemma StepSelfPlace(sh: Shared, o: Census, t: Thread)
    requires o.UnderLock() && CountersInv(sh, o.Plus(Weigh(t))) && ThreadInv(sh, o.Plus(Weigh(t)), t)
    ensures PlaceInv(Global(sh, t), o.Plus(Weigh(Local(sh, t))), Local(sh, t))
  {
    StepIssued(sh, o, t, TicketOf(Local(sh, t)));
    PlaceSelf(sh, o.Plus(Weigh(t)), o.Plus(Weigh(Local(sh, t))), t);
  }

  lemma StepSelfCover(sh: Shared, o: Census, t: Thread)
    requires o.UnderLock() && CountersInv(sh, o.Plus(Weigh(t))) && ThreadInv(sh, o.Plus(Weigh(t)), t)
    ensures CoverInv(Global(sh, t), o.Plus(Weigh(Local(sh, t))), Local(sh, t))
  {
  }

  lemma PlaceOther(sh: Shared, c: Census, c': Census, t: Thread, u: Thread)
    requires PlaceInv(sh, c, u) && (Issued(sh, c, TicketOf(u)) ==> Issued(Global(sh, t), c', TicketOf(u)))
    requires Holds(t) ==> !Holds(u)
    ensures PlaceInv(Global(sh, t), c', u) && PlaceInv(Global(sh, t), c', Woken(u))
  {
  }

  /** Any other thread u keeps its invariant; at the broadcast, once it is woken. */
  lemma StepOther(sh: Shared, o: Census, t: Thread, u: Thread)
    requires o.UnderLock() && CountersInv(sh, o.Plus(Weigh(t))) && ThreadInv(sh, o.Plus(Weigh(t)), t)
    requires Weigh(u).AtMost(o) && ThreadInv(sh, o.Plus(Weigh(t)), u)
    ensures ThreadInv(Global(sh, t), o.Plus(Weigh(Local(sh, t))), if t.pc == WakeAll then Woken(u) else u)
  {
    assert Holds(t) ==> !Holds(u);
    StepIssued(sh, o, t, TicketOf(u));
    PlaceOther(sh, o.Plus(Weigh(t)), o.Plus(Weigh(Local(sh, t))), t, u);
    CoverOther(sh, o, t, u);
  }

  lemma CoverOther(sh: Shared, o: Census, t: Thread, u: Thread)
    requires o.UnderLock() && CountersInv(sh, o.Plus(Weigh(t))) && ThreadInv(sh, o.Plus(Weigh(t)), t)
    requires Weigh(u).AtMost(o) && ThreadInv(sh, o.Plus(Weigh(t)), u)
    ensures CoverInv(Global(sh, t), o.Plus(Weigh(Local(sh, t))), if t.pc == WakeAll then Woken(u) else u)
  {
    hide Issued;
  }

  // ---------------------------------------------------------------- one step, on states

  /** The census before and after a step, split at the stepping thread. */
  lemma MovedCount(s: State, i: nat)
    requires i < |s.threads|
    ensures Others(s.threads, i).UnderLock()
    ensures Count(s.threads) == Others(s.threads, i).Plus(Weigh(s.threads[i]))
    ensures Count(Moved(s, i).threads) == Others(s.threads, i).Plus(Weigh(Local(s.sh, s.threads[i])))
  {
    CountUnderLock(s.threads[i := OUTSIDE]);
    CountSplit(s.threads, i);
    CountPut(s.threads, i, Local(s.sh, s.threads[i]));
  }

  lemma MovedCounters(s: State, i: nat)
    requires Inv(s) && i < |s.threads|
    ensures var m := Moved(s, i); CountersInv(m.sh, Count(m.threads)) && ArrivalsInv(m.sh, Count(m.threads))
    ensures var m := Moved(s, i); s.threads[i].pc !in {CondWake, WakeLock} ==> PromptInv(m.sh, Count(m.threads))
  {
    var t, o := s.threads[i], Others(s.threads, i);
    MovedCount(s, i);
    assert ThreadInv(s.sh, Count(s.threads), t);
    StepCounters(s.sh, o, t);
    StepArrivals(s.sh, o, t);
    if t.pc !in {CondWake, WakeLock} { StepPrompt(s.sh, o, t); }
  }

  lemma MovedThread(s: State, i: nat, j: nat)
    requires Inv(s) && i < |s.threads| && j < |s.threads|
    ensures var m := Moved(s, i);
            ThreadInv(m.sh, Count(m.threads), if s.threads[i].pc == WakeAll then Woken(m.threads[j]) else m.threads[j])
  {
    var t, o := s.threads[i], Others(s.threads, i);
    MovedCount(s, i);
    assert ThreadInv(s.sh, Count(s.threads), t) && ThreadInv(s.sh, Count(s.threads), s.threads[j]);
    if i == j {
      StepSelfPlace(s.sh, o, t);
      StepSelfCover(s.sh, o, t);
    } else {
      CountHas(s.threads[i := OUTSIDE], j);
      StepOther(s.sh, o, t, s.threads[j]);
    }
  }

  /** The ticket of the stepping thread after the step: drawn, kept or given back. */
  lemma MovedIssued(s: State, i: nat, k: Ticket)
    requires Inv(s) && i < |s.threads|
    ensures var m, t := Moved(s, i), s.threads[i];
            && (Issued(m.sh, Count(m.threads), k) <==>
                  Issued(s.sh, Count(s.threads), k) || (t.pc == AddWaiting && k == TicketOf(m.threads[i])))
            && (t.pc == AddWaiting ==> !Issued(s.sh, Count(s.threads), TicketOf(m.threads[i])))
  {
    MovedCount(s, i);
    assert ThreadInv(s.sh, Count(s.threads), s.threads[i]);
    StepIssued(s.sh, Others(s.threads, i), s.threads[i], k);
  }

  lemma MovedTicket(sh: Shared, t: Thread)
    ensures var t' := Local(sh, t);
            && (Arrived(t') <==> (Arrived(t) && t.pc != WakeLock) || t.pc == AddWaiting)
            && (Arrived(t) && Arrived(t') ==> TicketOf(t') == TicketOf(t))
            && (Arrived(t) ==> t.pc != AddWaiting)
  {
  }

  lemma MovedUnique(s: State, i: nat)
    requires Inv(s) && i < |s.threads|
    ensures TicketsUnique(Moved(s, i))
  {
    var m, t := Moved(s, i), s.threads[i];
    var t' := m.threads[i];
    MovedTicket(s.sh, t);
    MovedIssued(s, i, TicketOf(t'));
    forall j | 0 <= j < |s.threads| && Arrived(s.threads[j])
      ensures Issued(s.sh, Count(s.threads), TicketOf(s.threads[j]))
    {
      assert ThreadInv(s.sh, Count(s.threads), s.threads[j]);
    }
    assert t.pc == AddWaiting ==> TicketOf(t') !in s.results;
    forall j | 0 <= j < |s.threads| && j != i && Arrived(s.threads[j])
      ensures TicketOf(s.threads[j]) !in m.results && (Arrived(t') ==> TicketOf(s.threads[j]) != TicketOf(t'))
    {
    }
  }

  lemma MovedKept(s: State, i: nat)
    requires Inv(s) && i < |s.threads|
    ensures TicketsKept(Moved(s, i))
  {
    var m, t := Moved(s, i), s.threads[i];
    MovedTicket(s.sh, t);
    forall k | Issued(m.sh, Count(m.threads), k) ensures k in m.results || InFlight(m, k) {
      MovedIssued(s, i, k);
      if !Issued(s.sh, Count(s.threads), k) {
        assert Arrived(m.threads[i]) && TicketOf(m.threads[i]) == k;
      } else if k !in s.results {
        assert InFlight(s, k);
        var j :| 0 <= j < |s.threads| && Arrived(s.threads[j]) && TicketOf(s.threads[j]) == k;
        assert m.threads[j] == if j == i then Local(s.sh, t) else s.threads[j];
        if k !in m.results {
          assert Arrived(m.threads[j]) && TicketOf(m.threads[j]) == k;
        }
      }
    }
  }

  lemma MovedResults(s: State, i: nat)
    requires Inv(s) && i < |s.threads|
    ensures ResultsInv(Moved(s, i))
  {
    var m, t := Moved(s, i), s.threads[i];
    assert ThreadInv(s.sh, Count(s.threads), t);
    forall k | k in m.results
      ensures Issued(m.sh, Count(m.threads), k) && k.gen < m.sh.phase && m.results[k] == Last(m.sh, k)
    {
      MovedIssued(s, i, k);
    }
  }

  /** Waking threads changes no ticket. */
  lemma WokenTickets(m: State, s': State)
    requires s'.sh == m.sh && s'.results == m.results && |s'.threads| == |m.threads|
    requires forall j :: 0 <= j < |m.threads| ==>
               Arrived(s'.threads[j]) == Arrived(m.threads[j]) && TicketOf(s'.threads[j]) == TicketOf(m.threads[j])
    requires Count(s'.threads).bump == Count(m.threads).bump
    requires TicketsUnique(m) && TicketsKept(m) && ResultsInv(m)
    ensures TicketsUnique(s') && TicketsKept(s') && ResultsInv(s')
  {
    forall k | Issued(s'.sh, Count(s'.threads), k) ensures k in s'.results || InFlight(s', k) {
      assert Issued(m.sh, Count(m.threads), k);
      if k !in m.results {
        assert InFlight(m, k);
        var j :| 0 <= j < |m.threads| && Arrived(m.threads[j]) && TicketOf(m.threads[j]) == k;
        assert Arrived(s'.threads[j]) && TicketOf(s'.threads[j]) == k;
      }
    }
    forall k | k in s'.results
      ensures Issued(s'.sh, Count(s'.threads), k) && k.gen < s'.sh.phase && s'.results[k] == Last(s'.sh, k)
    {
      assert Issued(m.sh, Count(m.threads), k);
    }
  }

  lemma WakeOneKeepsInv(s: State, i: nat, s': State)
    requires Inv(s) && i < |s.threads| && s.threads[i].pc in {CondWake, WakeLock} && WakesOne(Moved(s, i), s')
    ensures Inv(s')
  {
    var m := Moved(s, i);
    MovedCounters(s, i);
    MovedUnique(s, i);
    MovedKept(s, i);
    MovedResults(s, i);
    forall j | 0 <= j < |m.threads| ensures ThreadInv(m.sh, Count(m.threads), m.threads[j]) {
      MovedThread(s, i, j);
    }
    if s' == m {
      CountNoSleeper(m, s');
    } else {
      var j :| 0 <= j < |m.threads| && m.threads[j].pc == AsleepLock
               && s' == m.(threads := m.threads[j := m.threads[j].(pc := Exchange)]);
      WakeSleeperKeepsInv(m, j, s');
    }
  }

  lemma CountNoSleeper(m: State, s': State)
    requires s' == m && WakesOne(m, s')
    ensures Count(m.threads).asleep == 0
  {
    if j :| 0 <= j < |m.threads| && m.threads[j].pc == AsleepLock {
      assert false;
    }
    TotalZero(m.threads, AsleepW);
  }

  /** Taking a thread off the lock's sleep queue. */
  lemma WakeSleeperThread(sh: Shared, o: Census, t: Thread, u: Thread)
    requires t.pc == AsleepLock
    ensures var c, c' := o.Plus(Weigh(t)), o.Plus(Weigh(t.(pc := Exchange)));
            && (CountersInv(sh, c) ==> CountersInv(sh, c')) && (ArrivalsInv(sh, c) ==> ArrivalsInv(sh, c'))
            && PromptInv(sh, c') && c'.bump == c.bump
            && (ThreadInv(sh, c, u) ==> ThreadInv(sh, c', u))
            && (ThreadInv(sh, c, t) ==> ThreadInv(sh, c', t.(pc := Exchange)))
  {
    var c, c' := o.Plus(Weigh(t)), o.Plus(Weigh(t.(pc := Exchange)));
    assert forall k :: Issued(sh, c, k) == Issued(sh, c', k);
  }

  lemma WakeSleeperKeepsInv(m: State, j: nat, s': State)
    requires j < |m.threads| && m.threads[j].pc == AsleepLock
    requires s' == m.(threads := m.threads[j := m.threads[j].(pc := Exchange)])
    requires CountersInv(m.sh, Count(m.threads)) && ArrivalsInv(m.sh, Count(m.threads)) && ThreadsInv(m)
    requires TicketsUnique(m) && TicketsKept(m) && ResultsInv(m)
    ensures Inv(s')
  {
    var o, t := Others(m.threads, j), m.threads[j];
    CountSplit(m.threads, j);
    CountPut(m.threads, j, s'.threads[j]);
    WakeSleeperThread(m.sh, o, t, t);
    WokenTickets(m, s');
    forall k | 0 <= k < |s'.threads| ensures ThreadInv(s'.sh, Count(s'.threads), s'.threads[k]) {
      assert ThreadInv(m.sh, Count(m.threads), m.threads[k]);
      WakeSleeperThread(m.sh, o, t, m.threads[k]);
    }
  }

  lemma BroadcastCount(m: State)
    ensures Count(WakeEveryWaiter(m).threads) == Count(m.threads)
  {
    CountSame(WakeEveryWaiter(m).threads, m.threads);
  }

  lemma BroadcastTickets(m: State)
    requires TicketsUnique(m) && TicketsKept(m) && ResultsInv(m)
    ensures var s' := WakeEveryWaiter(m); TicketsUnique(s') && TicketsKept(s') && ResultsInv(s')
  {
    BroadcastCount(m);
    WokenTickets(m, WakeEveryWaiter(m));
  }

  lemma WakeAllKeepsInv(s: State, i: nat)
    requires Inv(s) && i < |s.threads| && s.threads[i].pc == WakeAll
    ensures Inv(WakeEveryWaiter(Moved(s, i)))
  {
    var m := Moved(s, i);
    var s' := WakeEveryWaiter(m);
    MovedCounters(s, i);
    BroadcastCount(m);
    MovedUnique(s, i);
    MovedKept(s, i);
    MovedResults(s, i);
    BroadcastTickets(m);
    forall j | 0 <= j < |s'.threads| ensures ThreadInv(s'.sh, Count(s'.threads), s'.threads[j]) {
      MovedThread(s, i, j);
    }
  }

  lemma StepKeepsInv(s: State, i: nat, s': State)
    requires Inv(s) && i < |s.threads| && ThreadStep(s, i, s')
    ensures Inv(s')
  {
    if s.threads[i].pc == WakeAll {
      WakeAllKeepsInv(s, i);
    } else if s.threads[i].pc in {CondWake, WakeLock} {
      WakeOneKeepsInv(s, i, s');
    } else {
      MovedCounters(s, i);
      MovedUnique(s, i);
      MovedKept(s, i);
      MovedResults(s, i);
      forall j | 0 <= j < |s'.threads| ensures ThreadInv(s'.sh, Count(s'.threads), s'.threads[j]) {
        MovedThread(s, i, j);
      }
    }
  }

  lemma SpawnKeepsInv(s: State, s': State)
    requires Inv(s) && Spawn(s, s')
    ensures Inv(s')
  {
    CountAppend(s.threads);
    forall j | 0 <= j < |s'.threads| ensures ThreadInv(s'.sh, Count(s'.threads), s'.threads[j]) {
      assert j < |s.threads| ==> ThreadInv(s.sh, Count(s.threads), s.threads[j]);
    }
    forall k | Issued(s'.sh, Count(s'.threads), k) ensures k in s'.results || InFlight(s', k) {
      assert Issued(s.sh, Count(s.threads), k);
      if k !in s.results {
        assert InFlight(s, k);
        var j :| 0 <= j < |s.threads| && Arrived(s.threads[j]) && TicketOf(s.threads[j]) == k;
        assert Arrived(s'.threads[j]) && TicketOf(s'.threads[j]) == k;
      }
    }
  }

  lemma InitInv(s: State)
    requires Init(s)
    ensures Inv(s)
  {
    TotalZero(s.threads, HoldsW);
    TotalZero(s.threads, AsleepW);
    CountUnderLock(s.threads);
    var c := Count(s.threads);
    assert c.holds == 0 && c.asleep == 0 && c.reset == 0 && c.bump == 0 && c.signal == 0;
    hide Count;
    assert forall k :: !Issued(s.sh, c, k);
  }

  lemma {:induction false} RunInv(run: seq<State>, k: nat)
    requires IsRun(run) && k < |run|
    ensures Inv(run[k])
  {
    if k == 0 {
      InitInv(run[0]);
    } else {
      RunInv(run, k - 1);
      var s, s' := run[k - 1], run[k];
      assert Next(s, s');
      if Spawn(s, s') {
        SpawnKeepsInv(s, s');
      } else {
        var i :| 0 <= i < |s.threads| && ThreadStep(s, i, s');
        StepKeepsInv(s, i, s');
      }
    }
  }

  // ---------------------------------------------------------------- what every run keeps

  /** Whenever the lock is free, the arrivals so far are the finished generations plus the
      calls that are waiting, fewer than `count` calls are waiting, and the condition has been
      broadcast once for every finished generation. */
  lemma ArrivalsCounted(run: seq<State>, k: nat)
    requires IsRun(run) && k < |run| && run[k].sh.word == 0
    ensures var sh := run[k].sh;
            sh.arrivals == sh.phase * sh.count + sh.waiting && sh.waiting < sh.count && sh.seqno == sh.phase
  {
    RunInv(run, k);
    var sh, c := run[k].sh, Count(run[k].threads);
    CountUnderLock(run[k].threads);
    hide Inv, ThreadsInv, TicketsUnique, TicketsKept, ResultsInv, Count;
    assert Epoch(sh, c) == sh.phase;
  }

  /** All `count` calls of generation g have arrived. */
  predicate Full(sh: Shared, g: nat) {
    (g + 1) * sh.count <= sh.arrivals
  }

  lemma FinishedIsFull(sh: Shared, c: Census, g: nat)
    requires ArrivalsInv(sh, c) && g < sh.phase
    ensures Full(sh, g)
  {
    var e := Epoch(sh, c);
    assert e * sh.count == (g + 1) * sh.count + (e - (g + 1)) * sh.count;
    assert 0 <= (e - (g + 1)) * sh.count;
  }

  /** No call returns, or is even on its way out, before all `count` calls of its generation
      have arrived. */
  lemma NoEarlyReturn(run: seq<State>, k: nat)
    requires IsRun(run) && k < |run|
    ensures forall c <- run[k].results :: Full(run[k].sh, c.gen)
    ensures forall i | 0 <= i < |run[k].threads| ::
              run[k].threads[i].pc in {StoreZero, WakeLock} ==> Full(run[k].sh, run[k].threads[i].gen)
  {
    var s := run[k];
    RunInv(run, k);
    forall c <- s.results ensures Full(s.sh, c.gen) {
      FinishedIsFull(s.sh, Count(s.threads), c.gen);
    }
    forall i | 0 <= i < |s.threads| && s.threads[i].pc in {StoreZero, WakeLock}
      ensures Full(s.sh, s.threads[i].gen)
    {
      assert ThreadInv(s.sh, Count(s.threads), s.threads[i]);
      FinishedIsFull(s.sh, Count(s.threads), s.threads[i].gen);
    }
  }

  /** Of every generation exactly one call returns PTHREAD_BARRIER_SERIAL_THREAD: never two,
      and one as soon as no call of a finished generation is still inside. */
  lemma ExactlyOneSerial(run: seq<State>, k: nat, g: nat)
    requires IsRun(run) && k < |run|
    ensures var r := run[k].results;
            forall a, b :: a in r && b in r && a.gen == b.gen == g && r[a] && r[b] ==> a == b
    ensures var s := run[k];
            g < s.sh.phase && (forall i | 0 <= i < |s.threads| && Arrived(s.threads[i]) :: s.threads[i].gen != g)
            ==> exists a :: a in s.results && a.gen == g && s.results[a]
  {
    var s := run[k];
    RunInv(run, k);
    if g < s.sh.phase && forall i | 0 <= i < |s.threads| && Arrived(s.threads[i]) :: s.threads[i].gen != g {
      var last := Ticket(g, s.sh.count - 1);
      assert Issued(s.sh, Count(s.threads), last);
      assert !InFlight(s, last);
      assert s.results[last];
    }
  }

  /** A waiter of a finished generation is asleep only while the broadcast of a last arrival
      is still under way; once it has finished, none is. */
  lemma NoneAsleepAfterBroadcast(run: seq<State>, k: nat, i: nat)
    requires IsRun(run) && k < |run|
    requires i < |run[k].threads| && run[k].threads[i].pc == AsleepCond && run[k].threads[i].gen < run[k].sh.phase
    ensures exists j :: 0 <= j < |run[k].threads| && run[k].threads[j].pc in {BumpSeq, WakeAll}
  {
    var s := run[k];
    RunInv(run, k);
    assert ThreadInv(s.sh, Count(s.threads), s.threads[i]);
    if s.threads[i].seen == s.sh.seqno {
      var j := TotalWitness(s.threads, SignalW);
    } else {
      var j := TotalWitness(s.threads, WakingW);
    }
  }

  predicate Quiet(s: State) {
    forall i :: 0 <= i < |s.threads| ==> s.threads[i].pc in {Idle, AsleepLock, AsleepCond}
  }

  lemma QuietCounts(s: State)
    requires Inv(s) && Quiet(s)
    ensures s.sh.word == 0 && s.sh.waiting < s.sh.count
    ensures Count(s.threads) == Census(0, 0, 0, 0, 0, 0, 0)
  {
    TotalZero(s.threads, HoldsW);
    TotalZero(s.threads, PromptW);
    CountUnderLock(s.threads);
  }

  /** When nothing can move but threads outside the barrier, nobody is stuck on the lock, and
      the sleepers are exactly the arrivals of the one generation that is not full yet. */
  lemma QuietMeansIncomplete(run: seq<State>, k: nat)
    requires IsRun(run) && k < |run| && Quiet(run[k])
    ensures run[k].sh.word == 0 && run[k].sh.waiting < run[k].sh.count
    ensures forall i | 0 <= i < |run[k].threads| ::
              && run[k].threads[i].pc != AsleepLock
              && (run[k].threads[i].pc == AsleepCond ==>
                    run[k].threads[i].gen == run[k].sh.phase && run[k].threads[i].rank < run[k].sh.waiting)
    ensures forall r: nat | r < run[k].sh.waiting :: SleeperOfRank(run[k], r)
  {
    var s := run[k];
    RunInv(run, k);
    QuietCounts(s);
    forall i | 0 <= i < |s.threads|
      ensures s.threads[i].pc != AsleepLock
      ensures s.threads[i].pc == AsleepCond ==> s.threads[i].gen == s.sh.phase && s.threads[i].rank < s.sh.waiting
    {
      TotalAtLeast(s.threads, i, AsleepW);
      assert ThreadInv(s.sh, Count(s.threads), s.threads[i]);
    }
    forall r: nat | r < s.sh.waiting ensures SleeperOfRank(s, r) {
      assert Issued(s.sh, Count(s.threads), Ticket(s.sh.phase, r));
      assert InFlight(s, Ticket(s.sh.phase, r));
      var i :| 0 <= i < |s.threads| && Arrived(s.threads[i]) && TicketOf(s.threads[i]) == Ticket(s.sh.phase, r);
      assert s.threads[i].pc == AsleepCond;
    }
  }

  ghost predicate SleeperOfRank(s: State, r: nat) {
    exists i :: 0 <= i < |s.threads| && s.threads[i].pc == AsleepCond && s.threads[i].rank == r
  }
}
