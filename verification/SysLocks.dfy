/** A lock made of two mutexes and a flag, and a condition made of a semaphore, as the
    interleaved steps of any number of threads. */
module SysLocks {
  import opened Options

  type Tid = nat

  /** Where a thread is. The wait of a condition is a release, a down of the semaphore and
      an acquire; `waiting` says that a release is part of one. */
  datatype Pc =
    | Idle
    | Holding
    // acquire: take mutex a, set the flag, take mutex b, give mutex a back
    | AcquireA | AcquireFlag | AcquireB | AcquireDone
    // try: read the flag, take mutex a, read the flag again, take mutex b, give mutex a back
    | TryFlag | TryA | TryFlagAgain | TryB | TryDone | TryFailed
    // release: take mutex a, clear the flag, give mutex b back, give mutex a back
    | ReleaseA(waiting: bool) | ReleaseFlag(waiting: bool) | ReleaseB(waiting: bool) | ReleaseDone(waiting: bool)
    | Down

  datatype State = State(
    a: Option<Tid>, b: Option<Tid>, locked: bool,
    semaphore: int, ups: nat, downs: nat,
    pcs: map<Tid, Pc>)

  predicate Init(s: State)
  {
    s.a.None? && s.b.None? && !s.locked && s.semaphore == 0 && s.ups == 0 && s.downs == 0 && forall t | t in s.pcs :: s.pcs[t].Idle?
  }

  function At(s: State, t: Tid, pc: Pc): State { s.(pcs := s.pcs[t := pc]) }

  /** One step of a thread. An idle thread may start to acquire, to try or to signal; one
      that holds the lock may start to release, to wait or to signal. */
  predicate Step(s: State, t: Tid, n: State)
  {
    t in s.pcs &&
    match s.pcs[t]
    case Idle => n == At(s, t, AcquireA) || n == At(s, t, TryFlag) || n == Signalled(s)
    case Holding => n == At(s, t, ReleaseA(false)) || n == At(s, t, ReleaseA(true)) || n == Signalled(s)
    case AcquireA => s.a.None? && n == At(s, t, AcquireFlag).(a := Some(t))
    case AcquireFlag => n == At(s, t, AcquireB).(locked := true)
    case AcquireB => s.b.None? && n == At(s, t, AcquireDone).(b := Some(t))
    case AcquireDone => n == At(s, t, Holding).(a := None)
    case TryFlag => n == At(s, t, if s.locked then Idle else TryA)
    case TryA => s.a.None? && n == At(s, t, TryFlagAgain).(a := Some(t))
    case TryFlagAgain => n == if s.locked then At(s, t, TryFailed) else At(s, t, TryB).(locked := true)
    case TryB => s.b.None? && n == At(s, t, TryDone).(b := Some(t))
    case TryDone => n == At(s, t, Holding).(a := None)
    case TryFailed => n == At(s, t, Idle).(a := None)
    case ReleaseA(w) => s.a.None? && n == At(s, t, ReleaseFlag(w)).(a := Some(t))
    case ReleaseFlag(w) => n == At(s, t, ReleaseB(w)).(locked := false)
    case ReleaseB(w) => n == At(s, t, ReleaseDone(w)).(b := None)
    case ReleaseDone(w) => n == At(s, t, if w then Down else Idle).(a := None)
    case Down => s.semaphore > 0 && n == At(s, t, AcquireA).(semaphore := s.semaphore - 1, downs := s.downs + 1)
  }

  /** A signal, and a broadcast, is one up of the semaphore. */
  function Signalled(s: State): State { s.(semaphore := s.semaphore + 1, ups := s.ups + 1) }

  // ---------- what every step keeps ----------

  predicate HoldsA(pc: Pc)
  {
    pc.AcquireFlag? || pc.AcquireB? || pc.AcquireDone? || pc.TryFlagAgain? || pc.TryB? || pc.TryDone? || pc.TryFailed?
    || pc.ReleaseFlag? || pc.ReleaseB? || pc.ReleaseDone?
  }

  /** The thread owns the lock. */
  predicate Owns(pc: Pc)
  {
    pc.Holding? || pc.AcquireDone? || pc.TryDone? || pc.ReleaseA? || pc.ReleaseFlag? || pc.ReleaseB?
  }

  /** Mutex a is held by the thread, if any, that is where it needs it. */
  ghost predicate MutexA(s: State)
  {
    (forall t | t in s.pcs :: HoldsA(s.pcs[t]) <==> s.a == Some(t)) && (s.a.Some? ==> s.a.value in s.pcs)
  }

  /** Mutex b is held by the thread, if any, that owns the lock. */
  ghost predicate MutexB(s: State)
  {
    (forall t | t in s.pcs :: Owns(s.pcs[t]) <==> s.b == Some(t)) && (s.b.Some? ==> s.b.value in s.pcs)
  }

  /** What the holder of mutex a has made of the flag and of mutex b. */
  predicate FlagFor(pc: Pc, locked: bool, held: bool)
  {
    match pc
    case AcquireB => locked
    case TryB => locked && !held
    case ReleaseB(_) => !locked
    case _ => locked == held
  }

  /** The flag says whether mutex b is held, except while a thread that holds mutex a is
      between its changes of the two. */
  predicate FlagOk(s: State)
  {
    (s.a.None? ==> s.locked == s.b.Some?) &&
    (s.a.Some? && s.a.value in s.pcs ==> FlagFor(s.pcs[s.a.value], s.locked, s.b.Some?))
  }

  ghost predicate Inv(s: State)
  {
    MutexA(s) && MutexB(s) && FlagOk(s) && s.semaphore == s.ups - s.downs && s.semaphore >= 0
  }

  lemma InitHolds(s: State)
    requires Init(s)
    ensures Inv(s)
  {
  }

  /** A step moves one thread. */
  lemma StepMovesOne(s: State, t: Tid, n: State)
    requires Step(s, t, n)
    ensures t in s.pcs && n.pcs.Keys == s.pcs.Keys && forall u | u in s.pcs && u != t :: n.pcs[u] == s.pcs[u]
  {
  }

  /** It takes a mutex only when that is free, and gives back only what it holds. */
  lemma StepOfA(s: State, t: Tid, n: State)
    requires Step(s, t, n) && t in n.pcs && (HoldsA(s.pcs[t]) <==> s.a == Some(t))
    ensures HoldsA(n.pcs[t]) <==> n.a == Some(t)
    ensures n.a == s.a || (s.a.None? && n.a == Some(t)) || (s.a == Some(t) && n.a.None?)
  {
  }

  lemma StepOfB(s: State, t: Tid, n: State)
    requires Step(s, t, n) && t in n.pcs && (Owns(s.pcs[t]) <==> s.b == Some(t))
    ensures Owns(n.pcs[t]) <==> n.b == Some(t)
    ensures n.b == s.b || (s.b.None? && n.b == Some(t)) || (s.b == Some(t) && n.b.None?)
  {
  }

  lemma StepKeepsA(s: State, t: Tid, n: State)
    requires MutexA(s) && Step(s, t, n)
    ensures MutexA(n)
  {
    hide Step, HoldsA;
    StepMovesOne(s, t, n);
    StepOfA(s, t, n);
  }

  lemma StepKeepsB(s: State, t: Tid, n: State)
    requires MutexB(s) && Step(s, t, n)
    ensures MutexB(n)
  {
    hide Step, Owns;
    StepMovesOne(s, t, n);
    StepOfB(s, t, n);
  }

  lemma StepKeepsFlag(s: State, t: Tid, n: State)
    requires MutexA(s) && MutexB(s) && FlagOk(s) && Step(s, t, n)
    ensures FlagOk(n)
  {
    assert HoldsA(s.pcs[t]) <==> s.a == Some(t);
    assert Owns(s.pcs[t]) <==> s.b == Some(t);
  }

  lemma StepKeeps(s: State, t: Tid, n: State)
    requires Inv(s) && Step(s, t, n)
    ensures Inv(n)
  {
    hide MutexA, MutexB, FlagOk;
    StepKeepsA(s, t, n);
    StepKeepsB(s, t, n);
    StepKeepsFlag(s, t, n);
  }

  /** A run: states and the threads that stepped between them. */
  ghost predicate IsRun(states: seq<State>, threads: seq<Tid>)
  {
    |states| == |threads| + 1 && forall i | 0 <= i < |threads| :: Step(states[i], threads[i], states[i + 1])
  }

  lemma {:induction false} RunKeeps(states: seq<State>, threads: seq<Tid>, i: nat)
    requires IsRun(states, threads) && Inv(states[0]) && i < |states|
    ensures Inv(states[i])
  {
    if i > 0 {
      RunKeeps(states, threads, i - 1);
      StepKeeps(states[i - 1], threads[i - 1], states[i]);
    }
  }

  /** In every run at most one thread owns the lock; whenever mutex a is free the flag says
      exactly whether mutex b is held; a try never waits for mutex b; and no more downs have
      been done than ups. */
  lemma {:induction false} RunsAreSafe(states: seq<State>, threads: seq<Tid>, i: nat)
    requires IsRun(states, threads) && Init(states[0]) && i < |states|
    ensures var s := states[i];
      && (forall t, u | t in s.pcs && u in s.pcs && Owns(s.pcs[t]) && Owns(s.pcs[u]) :: t == u)
      && (s.a.None? ==> s.locked == s.b.Some?)
      && (forall t | t in s.pcs && s.pcs[t].TryB? :: s.b.None?)
      && s.downs <= s.ups
  {
    InitHolds(states[0]);
    RunKeeps(states, threads, i);
  }

  // ---------- signals ----------

  lemma {:induction false} SemaphoreChanges(states: seq<State>, threads: seq<Tid>, i: nat, j: nat)
    requires IsRun(states, threads) && i <= j < |states|
    ensures states[j].semaphore - states[i].semaphore == (states[j].ups - states[i].ups) - (states[j].downs - states[i].downs)
    ensures states[i].ups <= states[j].ups && states[i].downs <= states[j].downs
    decreases j
  {
    if i < j {
      SemaphoreChanges(states, threads, i, j - 1);
      assert Step(states[j - 1], threads[j - 1], states[j]);
    }
  }

  /** A signal that is sent at any time is not lost: a thread that waits for the semaphore
      afterwards can go on, unless another thread's down has used the signal up. */
  lemma SignalNotLost(states: seq<State>, threads: seq<Tid>, i: nat, j: nat, t: Tid)
    requires IsRun(states, threads) && Init(states[0]) && i < j < |states|
    requires states[i + 1].ups > states[i].ups && states[j].downs == states[i].downs
    requires t in states[j].pcs && states[j].pcs[t].Down?
    ensures exists n :: Step(states[j], t, n)
  {
    InitHolds(states[0]);
    RunKeeps(states, threads, i);
    SemaphoreChanges(states, threads, i, j);
    SemaphoreChanges(states, threads, i + 1, j);
    var s := states[j];
    assert Step(s, t, At(s, t, AcquireA).(semaphore := s.semaphore - 1, downs := s.downs + 1));
  }

  // ---------- a contended acquire ----------

  /** A thread waits for mutex b while it holds mutex a, and another thread owns the lock. */
  predicate Stuck(s: State, waiter: Tid, owner: Tid)
  {
    waiter in s.pcs && s.pcs[waiter].AcquireB? && s.b == Some(owner) && waiter != owner
  }

  /** Two threads that acquire one after the other get there, from every initial state. */
  lemma ContentionSticks(s: State, owner: Tid, waiter: Tid) returns (states: seq<State>, threads: seq<Tid>)
    requires Init(s) && owner in s.pcs && waiter in s.pcs && owner != waiter
    ensures IsRun(states, threads) && states[0] == s && Stuck(states[|states| - 1], waiter, owner)
  {
    var s1 := At(s, owner, AcquireA);
    var s2 := At(s1, owner, AcquireFlag).(a := Some(owner));
    var s3 := At(s2, owner, AcquireB).(locked := true);
    var s4 := At(s3, owner, AcquireDone).(b := Some(owner));
    var s5 := At(s4, owner, Holding).(a := None);
    var s6 := At(s5, waiter, AcquireA);
    var s7 := At(s6, waiter, AcquireFlag).(a := Some(waiter));
    var s8 := At(s7, waiter, AcquireB).(locked := true);
    states, threads := [s, s1, s2, s3, s4, s5, s6, s7, s8], [owner, owner, owner, owner, owner, waiter, waiter, waiter];
    assert Step(s, owner, s1) && Step(s1, owner, s2) && Step(s2, owner, s3) && Step(s3, owner, s4) && Step(s4, owner, s5);
    assert Step(s5, waiter, s6) && Step(s6, waiter, s7) && Step(s7, waiter, s8);
  }

  /** From then on the acquire never ends, and the owner never gets to release: whoever
      releases needs mutex a first. */
  lemma {:induction false} StuckForever(states: seq<State>, threads: seq<Tid>, i: nat, waiter: Tid, owner: Tid)
    requires IsRun(states, threads) && Inv(states[0]) && Stuck(states[0], waiter, owner) && i < |states|
    ensures Stuck(states[i], waiter, owner) && states[i].a == Some(waiter)
    ensures owner in states[i].pcs && Owns(states[i].pcs[owner])
  {
    RunKeeps(states, threads, i);
    if i > 0 {
      StuckForever(states, threads, i - 1, waiter, owner);
      RunKeeps(states, threads, i - 1);
      assert Step(states[i - 1], threads[i - 1], states[i]);
    }
  }

  /** An acquire that has mutex a can end if and only if mutex b is free at that moment. */
  lemma AcquireEndsIfFree(s: State, t: Tid)
    requires Inv(s) && t in s.pcs && s.pcs[t].AcquireB?
    ensures (exists n :: Step(s, t, n)) <==> s.b.None?
    ensures s.b.Some? ==> Stuck(s, t, s.b.value)
  {
    assert s.b.None? ==> Step(s, t, At(s, t, AcquireDone).(b := Some(t)));
  }

  // ---------- one thread alone ----------

  /** A run in which one thread moves, `count` times. */
  ghost predicate RunsAlone(states: seq<State>, threads: seq<Tid>, t: Tid, count: nat)
  {
    IsRun(states, threads) && |threads| == count && forall i | 0 <= i < count :: threads[i] == t
  }

  lemma AloneStep(states: seq<State>, threads: seq<Tid>, t: Tid, count: nat, i: nat)
    requires RunsAlone(states, threads, t, count) && i < count
    ensures |states| == count + 1 && Step(states[i], t, states[i + 1])
  {
  }

  /** A thread that tries to take the free lock and is not disturbed has it after five steps. */
  lemma TryTakesFree(states: seq<State>, threads: seq<Tid>, t: Tid)
    requires RunsAlone(states, threads, t, 5) && t in states[0].pcs && states[0].pcs[t].TryFlag?
    requires states[0].a.None? && states[0].b.None? && !states[0].locked
    ensures t in states[5].pcs && states[5].pcs[t].Holding? && states[5].b == Some(t) && states[5].a.None? && states[5].locked
  {
    AloneStep(states, threads, t, 5, 0);
    AloneStep(states, threads, t, 5, 1);
    AloneStep(states, threads, t, 5, 2);
    AloneStep(states, threads, t, 5, 3);
    AloneStep(states, threads, t, 5, 4);
  }

  /** On a lock that is taken, a try fails: at once if it sees the flag, and otherwise as soon as
      it has mutex a, which it gives back. */
  lemma TryFailsOnTaken(s: State, t: Tid, n: State)
    requires t in s.pcs && s.locked && Step(s, t, n)
    ensures s.pcs[t].TryFlag? ==> n == s.(pcs := s.pcs[t := Idle])
    ensures s.pcs[t].TryFlagAgain? ==> n == s.(pcs := s.pcs[t := TryFailed])
    ensures s.pcs[t].TryFailed? ==> n == s.(pcs := s.pcs[t := Idle], a := None)
  {
  }

  /** Acquiring the free lock undisturbed takes four steps. */
  lemma AcquireTakesFree(states: seq<State>, threads: seq<Tid>, t: Tid)
    requires RunsAlone(states, threads, t, 4) && t in states[0].pcs && states[0].pcs[t].AcquireA?
    requires states[0].a.None? && states[0].b.None?
    ensures t in states[4].pcs && states[4].pcs[t].Holding? && states[4].b == Some(t) && states[4].a.None? && states[4].locked
  {
    AloneStep(states, threads, t, 4, 0);
    AloneStep(states, threads, t, 4, 1);
    AloneStep(states, threads, t, 4, 2);
    AloneStep(states, threads, t, 4, 3);
  }

  /** So does giving it back. */
  lemma ReleaseFrees(states: seq<State>, threads: seq<Tid>, t: Tid)
    requires RunsAlone(states, threads, t, 4) && t in states[0].pcs && states[0].pcs[t].ReleaseA? && states[0].a.None?
    ensures t in states[4].pcs && states[4].pcs[t] == (if states[0].pcs[t].waiting then Down else Idle)
    ensures states[4].b.None? && states[4].a.None? && !states[4].locked
  {
    AloneStep(states, threads, t, 4, 0);
    AloneStep(states, threads, t, 4, 1);
    AloneStep(states, threads, t, 4, 2);
    AloneStep(states, threads, t, 4, 3);
  }

  /** Such runs exist, from every state in which the mutexes allow them. */
  lemma TryIsPossible(s: State, t: Tid) returns (states: seq<State>, threads: seq<Tid>)
    requires t in s.pcs && s.pcs[t].TryFlag? && s.a.None? && s.b.None? && !s.locked
    ensures RunsAlone(states, threads, t, 5) && states[0] == s
  {
    var s1 := At(s, t, TryA);
    var s2 := At(s1, t, TryFlagAgain).(a := Some(t));
    var s3 := At(s2, t, TryB).(locked := true);
    var s4 := At(s3, t, TryDone).(b := Some(t));
    var s5 := At(s4, t, Holding).(a := None);
    states, threads := [s, s1, s2, s3, s4, s5], [t, t, t, t, t];
  }

  /** A wait gives the lock back, takes one signal, and acquires; a signal is there for one. */
  lemma WaitTakesOne(s: State, t: Tid, n: State)
    requires t in s.pcs && Step(s, t, n)
    ensures s.pcs[t].Down? ==> s.semaphore > 0 && n.semaphore == s.semaphore - 1 && n.pcs[t].AcquireA?
    ensures n.semaphore > s.semaphore ==> n.semaphore == s.semaphore + 1 && n.pcs == s.pcs && n.a == s.a && n.b == s.b && n.locked == s.locked
  {
  }

  /** A thread can move, unless it needs a mutex that is held or waits for a signal. */
  lemma BlockedExactly(s: State, t: Tid)
    requires t in s.pcs
    ensures (exists n :: Step(s, t, n)) <==>
      && (s.pcs[t].AcquireA? || s.pcs[t].TryA? || s.pcs[t].ReleaseA? ==> s.a.None?)
      && (s.pcs[t].AcquireB? || s.pcs[t].TryB? ==> s.b.None?)
      && (s.pcs[t].Down? ==> s.semaphore > 0)
  {
    var n := match s.pcs[t]
      case Idle => Signalled(s)
      case Holding => Signalled(s)
      case AcquireA => At(s, t, AcquireFlag).(a := Some(t))
      case AcquireFlag => At(s, t, AcquireB).(locked := true)
      case AcquireB => At(s, t, AcquireDone).(b := Some(t))
      case AcquireDone => At(s, t, Holding).(a := None)
      case TryFlag => At(s, t, if s.locked then Idle else TryA)
      case TryA => At(s, t, TryFlagAgain).(a := Some(t))
      case TryFlagAgain => if s.locked then At(s, t, TryFailed) else At(s, t, TryB).(locked := true)
      case TryB => At(s, t, TryDone).(b := Some(t))
      case TryDone => At(s, t, Holding).(a := None)
      case TryFailed => At(s, t, Idle).(a := None)
      case ReleaseA(w) => At(s, t, ReleaseFlag(w)).(a := Some(t))
      case ReleaseFlag(w) => At(s, t, ReleaseB(w)).(locked := false)
      case ReleaseB(w) => At(s, t, ReleaseDone(w)).(b := None)
      case ReleaseDone(w) => At(s, t, if w then Down else Idle).(a := None)
      case Down => At(s, t, AcquireA).(semaphore := s.semaphore - 1, downs := s.downs + 1);
    if (s.pcs[t].AcquireA? || s.pcs[t].TryA? || s.pcs[t].ReleaseA? ==> s.a.None?)
       && (s.pcs[t].AcquireB? || s.pcs[t].TryB? ==> s.b.None?) && (s.pcs[t].Down? ==> s.semaphore > 0)
    {
      assert Step(s, t, n);
    }
  }
}
