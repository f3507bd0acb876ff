/** The worker pool as an interleaving of atomic steps.

    Every worker, every call of push and the one call of delete has a program counter; a step
    moves one of them.  The `stop` flags are written without the mutex, `pthread_cond_wait`
    releases the mutex and blocks in one step, and a blocked worker may wake spuriously at any
    time.  The p-th call of push pushes task number p. */
module ThreadPool {
  datatype WorkerPc =
    | Lock                 // about to take the mutex (line 55)
    | TestList             // tests task_list == NULL (line 56)
    | TestStop             // list seen empty, reads stop (line 57)
    | EnterWait            // stop seen 0, about to wait (line 58)
    | Waiting              // blocked inside pthread_cond_wait
    | Reacquire            // woken, still has to get the mutex back
    | TestStopAgain        // reads stop after the inner loop (line 60)
    | UnlockExit           // releases the mutex before leaving (line 61)
    | Exited
    | Take                 // unlinks the head of the list (lines 64-65)
    | UnlockRun(task: nat) // releases the mutex (line 66)
    | Run(task: nat)       // runs the task (line 67)

  datatype PusherPc = PushLock | PushInsert | PushSignal | PushUnlock | PushDone

  datatype DeleterPc =
    | Idle | SetStop(next: nat) | DeleteLock | Broadcast | DeleteUnlock | Join(next: nat) | Deleted

  datatype Owner = Free | ByWorker(w: nat) | ByPusher(p: nat) | ByDeleter

  datatype State = State(
    workers: seq<WorkerPc>,
    stop: seq<bool>,
    pushers: seq<PusherPc>,
    deleter: DeleterPc,
    owner: Owner,
    queue: seq<nat>,  // task_list, head first
    ran: seq<nat>)    // tasks whose function has returned, in order

  datatype Action =
    | WorkerStep(w: nat)
    | Spurious(w: nat)
    | PushBegin
    | PusherStep(p: nat, woken: nat)  // woken: the waiter that a signal picks
    | DeleteBegin
    | DeleterStep

  predicate Init(s: State) {
    && |s.stop| == |s.workers| > 0
    && (forall i :: 0 <= i < |s.workers| ==> s.workers[i] == Lock)
    && (forall i :: 0 <= i < |s.stop| ==> !s.stop[i])
    && s.pushers == [] && s.deleter == Idle && s.owner == Free && s.queue == [] && s.ran == []
  }

  predicate AnyWaiting(s: State) {
    exists i :: 0 <= i < |s.workers| && s.workers[i] == Waiting
  }

  predicate Enabled(s: State, a: Action) {
    |s.stop| == |s.workers| &&
    match a
    case WorkerStep(w) =>
      && w < |s.workers|
      && (match s.workers[w]
          case Lock => s.owner == Free
          case Reacquire => s.owner == Free
          case Waiting => false
          case Exited => false
          case Take => s.queue != []
          case _ => true)
    case Spurious(w) => w < |s.workers| && s.workers[w] == Waiting
    case PushBegin => true
    case PusherStep(p, woken) =>
      && p < |s.pushers|
      && (match s.pushers[p]
          case PushLock => s.owner == Free
          case PushSignal => AnyWaiting(s) ==> woken < |s.workers| && s.workers[woken] == Waiting
          case PushDone => false
          case _ => true)
    case DeleteBegin => s.deleter == Idle
    case DeleterStep =>
      match s.deleter
      case Idle => false
      case DeleteLock => s.owner == Free
      case Join(i) => i < |s.workers| ==> s.workers[i] == Exited
      case Deleted => false
      case _ => true
  }

  function Moved(s: State, w: nat, pc: WorkerPc): State
    requires w < |s.workers|
  {
    s.(workers := s.workers[w := pc])
  }

  function WorkerNext(s: State, w: nat): State
    requires Enabled(s, WorkerStep(w))
  {
    match s.workers[w]
    case Lock => Moved(s, w, TestList).(owner := ByWorker(w))
    case Reacquire => Moved(s, w, TestList).(owner := ByWorker(w))
    case TestList => Moved(s, w, if s.queue == [] then TestStop else TestStopAgain)
    case TestStop => Moved(s, w, if s.stop[w] then TestStopAgain else EnterWait)
    case EnterWait => Moved(s, w, Waiting).(owner := Free)
    case TestStopAgain => Moved(s, w, if s.stop[w] then UnlockExit else Take)
    case UnlockExit => Moved(s, w, Exited).(owner := Free)
    case Take => Moved(s, w, UnlockRun(s.queue[0])).(queue := s.queue[1..])
    case UnlockRun(t) => Moved(s, w, Run(t)).(owner := Free)
    case Run(t) => Moved(s, w, Lock).(ran := s.ran + [t])
  }

  function PusherNext(s: State, p: nat, woken: nat): State
    requires Enabled(s, PusherStep(p, woken))
  {
    match s.pushers[p]
    case PushLock => s.(pushers := s.pushers[p := PushInsert], owner := ByPusher(p))
    case PushInsert => s.(pushers := s.pushers[p := PushSignal], queue := [p] + s.queue)
    case PushSignal =>
      var s' := s.(pushers := s.pushers[p := PushUnlock]);
      if AnyWaiting(s) then Moved(s', woken, Reacquire) else s'
    case PushUnlock => s.(pushers := s.pushers[p := PushDone], owner := Free)
  }

  function WakeAll(ws: seq<WorkerPc>): (r: seq<WorkerPc>)
    ensures |r| == |ws|
    ensures forall i :: 0 <= i < |ws| ==> r[i] == if ws[i] == Waiting then Reacquire else ws[i]
  {
    seq(|ws|, i requires 0 <= i < |ws| => if ws[i] == Waiting then Reacquire else ws[i])
  }

  function DeleterNext(s: State): State
    requires Enabled(s, DeleterStep)
  {
    match s.deleter
    case SetStop(i) =>
      if i < |s.workers| then s.(stop := s.stop[i := true], deleter := SetStop(i + 1))
      else s.(deleter := DeleteLock)
    case DeleteLock => s.(deleter := Broadcast, owner := ByDeleter)
    case Broadcast => s.(deleter := DeleteUnlock, workers := WakeAll(s.workers))
    case DeleteUnlock => s.(deleter := Join(0), owner := Free)
    case Join(i) => s.(deleter := if i < |s.workers| then Join(i + 1) else Deleted)
  }

  function Next(s: State, a: Action): State
    requires Enabled(s, a)
  {
    match a
    case WorkerStep(w) => WorkerNext(s, w)
    case Spurious(w) => Moved(s, w, Reacquire)
    case PushBegin => s.(pushers := s.pushers + [PushLock])
    case PusherStep(p, woken) => PusherNext(s, p, woken)
    case DeleteBegin => s.(deleter := SetStop(0))
    case DeleterStep => DeleterNext(s)
  }

  /** `s` after performing `actions` in order, or None when one of them is not enabled. */
  datatype Outcome = Stuck | At(state: State)

  function RunFrom(s: State, actions: seq<Action>): Outcome
    decreases |actions|
  {
    if actions == [] then At(s)
    else if !Enabled(s, actions[0]) then Stuck
    else RunFrom(Next(s, actions[0]), actions[1..])
  }

  ghost predicate Reachable(s: State) {
    exists s0, actions :: Init(s0) && RunFrom(s0, actions) == At(s)
  }

  // ---------------------------------------------------------------- mutual exclusion

  predicate Holds(pc: WorkerPc) {
    pc.TestList? || pc.TestStop? || pc.EnterWait? || pc.TestStopAgain? || pc.UnlockExit?
    || pc.Take? || pc.UnlockRun?
  }

  predicate PusherHolds(pc: PusherPc) { pc.PushInsert? || pc.PushSignal? || pc.PushUnlock? }

  predicate DeleterHolds(pc: DeleterPc) { pc.Broadcast? || pc.DeleteUnlock? }

  ghost predicate MutexInv(s: State) {
    && |s.stop| == |s.workers|
    && (forall i :: 0 <= i < |s.workers| ==> (Holds(s.workers[i]) <==> s.owner == ByWorker(i)))
    && (forall p :: 0 <= p < |s.pushers| ==> (PusherHolds(s.pushers[p]) <==> s.owner == ByPusher(p)))
    && (DeleterHolds(s.deleter) <==> s.owner == ByDeleter)
    && (s.owner.ByWorker? ==> s.owner.w < |s.workers|)
    && (s.owner.ByPusher? ==> s.owner.p < |s.pushers|)
  }

  /** What the `stop` flags say, and what a worker that has passed a test may rely on. */
  predicate StopsSet(s: State) {
    !s.deleter.Idle? && !s.deleter.SetStop?
  }

  ghost predicate StopInv(s: State) {
    && |s.stop| == |s.workers|
    && (s.deleter.Idle? ==> forall i :: 0 <= i < |s.stop| ==> !s.stop[i])
    && (s.deleter.SetStop? ==> s.deleter.next <= |s.stop|)
    && (s.deleter.SetStop? ==> forall i :: 0 <= i < |s.stop| ==> (s.stop[i] <==> i < s.deleter.next))
    && (StopsSet(s) ==> forall i :: 0 <= i < |s.stop| ==> s.stop[i])
    && (s.deleter.Join? ==> s.deleter.next <= |s.workers|)
    && (s.deleter.Join? ==> forall i :: 0 <= i < s.deleter.next ==> s.workers[i] == Exited)
    && (s.deleter.Deleted? ==> forall i :: 0 <= i < |s.workers| ==> s.workers[i] == Exited)
    && (forall i :: 0 <= i < |s.workers| ==>
        && ((s.workers[i].TestStop? || s.workers[i].EnterWait?) ==> s.queue == [])
        && (s.workers[i].TestStopAgain? ==> s.stop[i] || s.queue != [])
        && (s.workers[i].Take? ==> s.queue != [])
        && ((s.workers[i].UnlockExit? || s.workers[i].Exited?) ==> s.stop[i]))
  }

  /** The author's argument for broadcasting under the lock: once the broadcast has been made,
      no worker is blocked and none is on its way to block. */
  ghost predicate NoSleeper(s: State) {
    s.deleter.DeleteUnlock? || s.deleter.Join? || s.deleter.Deleted? ==>
      forall i :: 0 <= i < |s.workers| ==> s.workers[i] != Waiting && s.workers[i] != EnterWait
  }

  // ---------------------------------------------------------------- sums over threads

  function Sum<T>(xs: seq<T>, rank: T -> nat): nat {
    if xs == [] then 0 else rank(xs[0]) + Sum(xs[1..], rank)
  }

  lemma {:induction false} SumUpdate<T>(xs: seq<T>, i: nat, x: T, rank: T -> nat)
    requires i < |xs|
    ensures Sum(xs[i := x], rank) + rank(xs[i]) == Sum(xs, rank) + rank(x)
  {
    if i == 0 {
      assert xs[i := x][1..] == xs[1..];
    } else {
      assert xs[i := x][1..] == xs[1..][i - 1 := x];
      SumUpdate(xs[1..], i - 1, x, rank);
    }
  }

  lemma {:induction false} SumAppend<T>(xs: seq<T>, x: T, rank: T -> nat)
    ensures Sum(xs + [x], rank) == Sum(xs, rank) + rank(x)
  {
    if xs == [] {
      assert xs + [x] == [x];
    } else {
      assert (xs + [x])[1..] == xs[1..] + [x];
      SumAppend(xs[1..], x, rank);
    }
  }

  lemma {:induction false} SumZero<T>(xs: seq<T>, rank: T -> nat)
    ensures Sum(xs, rank) == 0 <==> forall i :: 0 <= i < |xs| ==> rank(xs[i]) == 0
  {
    if xs == [] {
    } else {
      SumZero(xs[1..], rank);
      assert forall i :: 0 <= i < |xs[1..]| ==> xs[1..][i] == xs[i + 1];
      if forall i :: 0 <= i < |xs| ==> rank(xs[i]) == 0 {
        assert rank(xs[0]) == 0;
      } else {
        var i :| 0 <= i < |xs| && rank(xs[i]) != 0;
        assert i == 0 || xs[1..][i - 1] == xs[i];
      }
    }
  }

  // ---------------------------------------------------------------- tasks

  predicate Inserted(pc: PusherPc) { pc.PushSignal? || pc.PushUnlock? || pc.PushDone? }

  predicate Pushed(s: State, t: nat) { t < |s.pushers| && Inserted(s.pushers[t]) }

  function ClaimOf(t: nat): WorkerPc -> nat {
    pc => if pc == UnlockRun(t) || pc == Run(t) then 1 else 0
  }

  /** How often task t occurs in the pool: waiting in the list, claimed by a worker, finished. */
  function Occurrences(s: State, t: nat): nat {
    multiset(s.queue)[t] + Sum(s.workers, ClaimOf(t)) + multiset(s.ran)[t]
  }

  ghost predicate TaskInv(s: State) {
    forall t: nat :: Occurrences(s, t) == if Pushed(s, t) then 1 else 0
  }

  /** 1 for a worker that is awake, holds no task and has not yet seen the list empty. */
  function AvailableRank(pc: WorkerPc): nat {
    if pc.Lock? || pc.Reacquire? || pc.TestList? || pc.TestStopAgain? || pc.Take? then 1 else 0
  }

  function Available(s: State): nat { Sum(s.workers, AvailableRank) }

  predicate SignalPending(s: State) {
    s.owner.ByPusher? && s.owner.p < |s.pushers| && s.pushers[s.owner.p] == PushSignal
  }

  /** Before delete is called nobody sleeps while there is work for them. */
  ghost predicate WakeInv(s: State) {
    s.deleter.Idle? && AnyWaiting(s) ==>
      |s.queue| <= Available(s) + if SignalPending(s) then 1 else 0
  }

  ghost predicate Inv(s: State) {
    |s.workers| > 0 && MutexInv(s) && StopInv(s) && NoSleeper(s) && TaskInv(s) && WakeInv(s)
  }

  // ---------------------------------------------------------------- one step keeps the invariant

  lemma InitInv(s: State)
    requires Init(s)
    ensures Inv(s)
  {
    forall t: nat ensures Occurrences(s, t) == 0 {
      SumZero(s.workers, ClaimOf(t));
    }
  }

  lemma MutexWorkerStep(s: State, w: nat)
    requires MutexInv(s) && Enabled(s, WorkerStep(w))
    ensures MutexInv(WorkerNext(s, w))
  {
  }

  lemma MutexPusherStep(s: State, p: nat, woken: nat)
    requires MutexInv(s) && Enabled(s, PusherStep(p, woken))
    ensures MutexInv(PusherNext(s, p, woken))
  {
  }

  lemma MutexStep(s: State, a: Action)
    requires MutexInv(s) && Enabled(s, a)
    ensures MutexInv(Next(s, a))
  {
    match a {
      case WorkerStep(w) => MutexWorkerStep(s, w);
      case PusherStep(p, woken) => MutexPusherStep(s, p, woken);
      case _ =>
    }
  }

  lemma StopWorkerStep(s: State, w: nat)
    requires MutexInv(s) && StopInv(s) && Enabled(s, WorkerStep(w))
    ensures StopInv(WorkerNext(s, w))
  {
    assert !Holds(Exited) && !Holds(Waiting);
    forall i | 0 <= i < |s.workers| && i != w
      ensures WorkerNext(s, w).workers[i] == s.workers[i]
      ensures Holds(s.workers[w]) ==> !Holds(s.workers[i])
    {
    }
  }

  lemma StopPusherStep(s: State, p: nat, woken: nat)
    requires MutexInv(s) && StopInv(s) && Enabled(s, PusherStep(p, woken))
    ensures StopInv(PusherNext(s, p, woken))
  {
    if s.pushers[p] == PushInsert {
      assert forall i :: 0 <= i < |s.workers| ==> !Holds(s.workers[i]);
    }
  }

  lemma StopStep(s: State, a: Action)
    requires MutexInv(s) && StopInv(s) && Enabled(s, a)
    ensures StopInv(Next(s, a))
  {
    match a {
      case WorkerStep(w) => StopWorkerStep(s, w);
      case PusherStep(p, woken) => StopPusherStep(s, p, woken);
      case _ =>
    }
  }

  lemma NoSleeperStep(s: State, a: Action)
    requires MutexInv(s) && StopInv(s) && NoSleeper(s) && Enabled(s, a)
    ensures NoSleeper(Next(s, a))
  {
  }

  lemma TaskWorkerStep(s: State, w: nat, t: nat)
    requires Enabled(s, WorkerStep(w))
    ensures Occurrences(WorkerNext(s, w), t) == Occurrences(s, t)
  {
    SumUpdate(s.workers, w, WorkerNext(s, w).workers[w], ClaimOf(t));
    if s.workers[w] == Take {
      assert s.queue == [s.queue[0]] + s.queue[1..];
    }
  }

  lemma TaskSignalStep(s: State, p: nat, woken: nat, t: nat)
    requires Enabled(s, PusherStep(p, woken)) && s.pushers[p] == PushSignal
    ensures Occurrences(PusherNext(s, p, woken), t) == Occurrences(s, t)
  {
    if AnyWaiting(s) {
      SumUpdate(s.workers, woken, Reacquire, ClaimOf(t));
    }
  }

  lemma TaskInsertStep(s: State, p: nat, woken: nat, t: nat)
    requires Enabled(s, PusherStep(p, woken)) && s.pushers[p] == PushInsert
    ensures Occurrences(PusherNext(s, p, woken), t) == Occurrences(s, t) + if t == p then 1 else 0
  {
    assert multiset([p] + s.queue) == multiset{p} + multiset(s.queue);
  }

  lemma TaskPusherStep(s: State, p: nat, woken: nat, t: nat)
    requires Enabled(s, PusherStep(p, woken))
    ensures Occurrences(PusherNext(s, p, woken), t)
            == Occurrences(s, t) + if s.pushers[p].PushInsert? && t == p then 1 else 0
  {
    if s.pushers[p] == PushSignal {
      TaskSignalStep(s, p, woken, t);
    } else if s.pushers[p] == PushInsert {
      TaskInsertStep(s, p, woken, t);
    }
  }

  lemma {:induction false} SumWakeAllClaims(ws: seq<WorkerPc>, t: nat)
    ensures Sum(WakeAll(ws), ClaimOf(t)) == Sum(ws, ClaimOf(t))
  {
    if ws == [] {
    } else {
      assert WakeAll(ws)[1..] == WakeAll(ws[1..]);
      SumWakeAllClaims(ws[1..], t);
    }
  }

  lemma TaskOtherStep(s: State, a: Action, t: nat)
    requires Enabled(s, a) && !a.WorkerStep? && !a.PusherStep?
    ensures Occurrences(Next(s, a), t) == Occurrences(s, t)
  {
    if a.Spurious? {
      SumUpdate(s.workers, a.w, Reacquire, ClaimOf(t));
    } else if a.DeleterStep? {
      SumWakeAllClaims(s.workers, t);
    }
  }

  lemma OccurrencesStep(s: State, a: Action, t: nat)
    requires Enabled(s, a)
    ensures Occurrences(Next(s, a), t)
            == Occurrences(s, t) + if a.PusherStep? && s.pushers[a.p].PushInsert? && t == a.p then 1 else 0
  {
    match a {
      case WorkerStep(w) => TaskWorkerStep(s, w, t);
      case PusherStep(p, woken) => TaskPusherStep(s, p, woken, t);
      case _ => TaskOtherStep(s, a, t);
    }
  }

  lemma PushedStep(s: State, a: Action, t: nat)
    requires Enabled(s, a)
    ensures Pushed(Next(s, a), t)
            <==> Pushed(s, t) || (a.PusherStep? && s.pushers[a.p].PushInsert? && t == a.p)
  {
  }

  lemma TaskStep(s: State, a: Action)
    requires TaskInv(s) && Enabled(s, a)
    ensures TaskInv(Next(s, a))
  {
    forall t: nat ensures Occurrences(Next(s, a), t) == if Pushed(Next(s, a), t) then 1 else 0 {
      OccurrencesStep(s, a, t);
      PushedStep(s, a, t);
    }
  }

  lemma WakeWorkerStep(s: State, w: nat)
    requires MutexInv(s) && StopInv(s) && WakeInv(s) && Enabled(s, WorkerStep(w))
    ensures WakeInv(WorkerNext(s, w))
  {
    var s' := WorkerNext(s, w);
    SumUpdate(s.workers, w, s'.workers[w], AvailableRank);
    if s.workers[w] != EnterWait && AnyWaiting(s') {
      var i :| 0 <= i < |s'.workers| && s'.workers[i] == Waiting;
      assert s.workers[i] == Waiting;
    }
  }

  lemma WakePusherStep(s: State, p: nat, woken: nat)
    requires MutexInv(s) && WakeInv(s) && Enabled(s, PusherStep(p, woken))
    ensures WakeInv(PusherNext(s, p, woken))
  {
    if s.pushers[p] == PushSignal && AnyWaiting(s) {
      SumUpdate(s.workers, woken, Reacquire, AvailableRank);
    }
  }

  lemma WakeStep(s: State, a: Action)
    requires MutexInv(s) && StopInv(s) && WakeInv(s) && Enabled(s, a)
    ensures WakeInv(Next(s, a))
  {
    match a {
      case WorkerStep(w) => WakeWorkerStep(s, w);
      case PusherStep(p, woken) => WakePusherStep(s, p, woken);
      case Spurious(w) => SumUpdate(s.workers, w, Reacquire, AvailableRank);
      case _ =>
    }
  }

  lemma StepInv(s: State, a: Action)
    requires Inv(s) && Enabled(s, a)
    ensures Inv(Next(s, a))
  {
    MutexStep(s, a);
    StopStep(s, a);
    NoSleeperStep(s, a);
    TaskStep(s, a);
    WakeStep(s, a);
  }

  lemma {:induction false} RunInv(s: State, actions: seq<Action>)
    requires Inv(s)
    ensures RunFrom(s, actions).At? ==> Inv(RunFrom(s, actions).state)
    decreases |actions|
  {
    if actions == [] || !Enabled(s, actions[0]) {
    } else {
      StepInv(s, actions[0]);
      RunInv(Next(s, actions[0]), actions[1..]);
    }
  }

  lemma ReachableInv(s: State)
    requires Reachable(s)
    ensures Inv(s)
  {
    var s0, actions :| Init(s0) && RunFrom(s0, actions) == At(s);
    InitInv(s0);
    RunInv(s0, actions);
  }

  // ---------------------------------------------------------------- main results

  /** Before delete is called, a blocked worker means that the queued tasks are covered by awake
      workers that hold no task, but for one task whose push has not signalled yet.  In
      particular nobody sleeps beside a queued task when every other worker is busy. */
  lemma NeverSleepsOnWork(s: State)
    requires Reachable(s) && s.deleter.Idle? && AnyWaiting(s)
    ensures |s.queue| <= Available(s) + if SignalPending(s) then 1 else 0
    ensures (forall i :: 0 <= i < |s.workers| ==> AvailableRank(s.workers[i]) == 0) && !SignalPending(s)
            ==> s.queue == []
  {
    ReachableInv(s);
    SumZero(s.workers, AvailableRank);
  }

  lemma {:induction false} RunShape(s: State, actions: seq<Action>)
    requires RunFrom(s, actions).At?
    ensures |RunFrom(s, actions).state.workers| == |s.workers|
    ensures s.deleter.DeleteUnlock? || s.deleter.Join? || s.deleter.Deleted? ==>
              var d := RunFrom(s, actions).state.deleter; d.DeleteUnlock? || d.Join? || d.Deleted?
    decreases |actions|
  {
    if actions == [] {
    } else {
      RunShape(Next(s, actions[0]), actions[1..]);
    }
  }

  /** No lost wakeup: in every interleaving, after the broadcast no worker is blocked in
      pthread_cond_wait or about to block, now or later. */
  lemma ShutdownWakesEveryone(s: State, actions: seq<Action>, i: nat)
    requires Reachable(s) && (s.deleter.DeleteUnlock? || s.deleter.Join? || s.deleter.Deleted?)
    requires RunFrom(s, actions).At? && i < |s.workers|
    ensures var later := RunFrom(s, actions).state;
            |later.workers| == |s.workers| && later.workers[i] != Waiting && later.workers[i] != EnterWait
  {
    ReachableInv(s);
    RunInv(s, actions);
    RunShape(s, actions);
  }

  /** A pushed task is in exactly one place, exactly once: in the list, with one worker, or
      finished; a task not yet inserted is nowhere. */
  lemma TasksRunExactlyOnce(s: State, t: nat)
    requires Reachable(s)
    ensures multiset(s.queue)[t] + Sum(s.workers, ClaimOf(t)) + multiset(s.ran)[t]
            == if Pushed(s, t) then 1 else 0
  {
    ReachableInv(s);
    assert Occurrences(s, t) == if Pushed(s, t) then 1 else 0;
  }

  // ---------------------------------------------------------------- termination

  /** Bound on the steps a worker can still make without a wakeup or a task. */
  function WorkerRank(pc: WorkerPc): nat {
    match pc
    case Waiting => 0
    case Exited => 0
    case UnlockExit => 1
    case EnterWait => 1
    case Take => 2
    case TestStopAgain => 3
    case TestStop => 4
    case TestList => 5
    case Lock => 6
    case Reacquire => 6
    case Run(_) => 7
    case UnlockRun(_) => 8
  }

  function PusherRank(pc: PusherPc): nat {
    match pc
    case PushDone => 0
    case PushUnlock => 1
    case PushSignal => 8
    case PushInsert => 19
    case PushLock => 20
  }

  function DeleterRank(d: DeleterPc, workers: nat): nat {
    match d
    case Idle => 0
    case Deleted => 0
    case Join(i) => if i <= workers then 1 + workers - i else 1
    case DeleteUnlock => workers + 2
    case Broadcast => 7 * workers + 3
    case DeleteLock => 7 * workers + 4
    case SetStop(i) => 7 * workers + 5 + if i <= workers then workers - i else 0
  }

  function Measure(s: State): nat {
    Sum(s.workers, WorkerRank) + Sum(s.pushers, PusherRank) + 10 * |s.queue|
    + DeleterRank(s.deleter, |s.workers|)
  }

  /** What the environment adds: a spurious wakeup, a new push, the call of delete. */
  function Cost(a: Action, workers: nat): nat {
    match a
    case Spurious(_) => 7
    case PushBegin => 21
    case DeleteBegin => 8 * workers + 6
    case _ => 0
  }

  function TotalCost(actions: seq<Action>, workers: nat): nat {
    if actions == [] then 0 else Cost(actions[0], workers) + TotalCost(actions[1..], workers)
  }

  predicate External(a: Action) { a.Spurious? || a.PushBegin? || a.DeleteBegin? }

  lemma {:induction false} SumWakeAll(ws: seq<WorkerPc>)
    ensures Sum(WakeAll(ws), WorkerRank) <= Sum(ws, WorkerRank) + 6 * |ws|
  {
    if ws == [] {
    } else {
      assert WakeAll(ws)[1..] == WakeAll(ws[1..]);
      SumWakeAll(ws[1..]);
    }
  }

  lemma MeasureWorkerStep(s: State, w: nat)
    requires Enabled(s, WorkerStep(w))
    ensures Measure(WorkerNext(s, w)) < Measure(s)
  {
    SumUpdate(s.workers, w, WorkerNext(s, w).workers[w], WorkerRank);
  }

  lemma MeasurePusherStep(s: State, p: nat, woken: nat)
    requires Enabled(s, PusherStep(p, woken))
    ensures Measure(PusherNext(s, p, woken)) < Measure(s)
  {
    SumUpdate(s.pushers, p, PusherNext(s, p, woken).pushers[p], PusherRank);
    if s.pushers[p] == PushSignal && AnyWaiting(s) {
      SumUpdate(s.workers, woken, Reacquire, WorkerRank);
    }
  }

  lemma MeasureDeleterStep(s: State)
    requires StopInv(s) && Enabled(s, DeleterStep)
    ensures Measure(DeleterNext(s)) < Measure(s)
  {
    SumWakeAll(s.workers);
  }

  lemma MeasureStep(s: State, a: Action)
    requires StopInv(s) && Enabled(s, a)
    ensures Measure(Next(s, a)) + 1 <= Measure(s) + Cost(a, |s.workers|)
  {
    match a {
      case WorkerStep(w) => MeasureWorkerStep(s, w);
      case PusherStep(p, woken) => MeasurePusherStep(s, p, woken);
      case DeleterStep => MeasureDeleterStep(s);
      case Spurious(w) => SumUpdate(s.workers, w, Reacquire, WorkerRank);
      case PushBegin => SumAppend(s.pushers, PushLock, PusherRank);
      case DeleteBegin =>
    }
  }

  /** Every run is bounded by what the environment feeds it: with finitely many pushes, spurious
      wakeups and one call of delete, only finitely many steps are possible. */
  lemma {:induction false} RunsAreBounded(s: State, actions: seq<Action>)
    requires Inv(s) && RunFrom(s, actions).At?
    ensures |actions| + Measure(RunFrom(s, actions).state)
            <= Measure(s) + TotalCost(actions, |s.workers|)
    decreases |actions|
  {
    if actions == [] {
    } else {
      MeasureStep(s, actions[0]);
      StepInv(s, actions[0]);
      RunsAreBounded(Next(s, actions[0]), actions[1..]);
    }
  }

  predicate AllDone(ps: seq<PusherPc>) { forall p :: 0 <= p < |ps| ==> ps[p] == PushDone }

  predicate AllAre(ws: seq<WorkerPc>, pc: WorkerPc) { forall i :: 0 <= i < |ws| ==> ws[i] == pc }

  ghost function PickWaiter(s: State): (i: nat)
    requires AnyWaiting(s)
    ensures i < |s.workers| && s.workers[i] == Waiting
  {
    var i :| 0 <= i < |s.workers| && s.workers[i] == Waiting;
    i
  }

  /** Whoever holds the mutex has a step to make. */
  lemma OwnerCanMove(s: State)
    requires Inv(s) && s.owner != Free
    ensures exists a :: Enabled(s, a) && !External(a)
  {
    match s.owner {
      case ByWorker(w) => assert Enabled(s, WorkerStep(w));
      case ByPusher(p) =>
        var woken := if AnyWaiting(s) then PickWaiter(s) else 0;
        assert Enabled(s, PusherStep(p, woken));
      case ByDeleter => assert Enabled(s, DeleterStep);
    }
  }

  /** The pool never deadlocks.  A state in which no thread can move is one where every push has
      returned and either delete was not called, every worker is blocked and every pushed task
      has run exactly once, or delete has joined every worker. */
  lemma NoDeadlock(s: State)
    requires Reachable(s)
    requires forall a :: Enabled(s, a) ==> External(a)
    ensures AllDone(s.pushers)
    ensures s.deleter.Idle? || s.deleter.Deleted?
    ensures s.deleter.Idle? ==> AllAre(s.workers, Waiting) && s.queue == []
    ensures s.deleter.Idle? ==> forall t: nat :: multiset(s.ran)[t] == if t < |s.pushers| then 1 else 0
    ensures s.deleter.Deleted? ==> AllAre(s.workers, Exited)
    ensures s.deleter.Deleted? ==>
              forall t: nat :: multiset(s.ran)[t] + multiset(s.queue)[t] == if t < |s.pushers| then 1 else 0
  {
    ReachableInv(s);
    if s.owner != Free {
      OwnerCanMove(s);
    }
    assert s.owner == Free;
    forall i | 0 <= i < |s.workers| ensures s.workers[i] == Waiting || s.workers[i] == Exited {
      assert !Holds(s.workers[i]);
      assert !Enabled(s, WorkerStep(i));
    }
    forall p | 0 <= p < |s.pushers| ensures s.pushers[p] == PushDone {
      assert !PusherHolds(s.pushers[p]);
      assert !Enabled(s, PusherStep(p, 0));
    }
    assert !Enabled(s, DeleterStep);
    if s.deleter.Idle? {
      forall i | 0 <= i < |s.workers| ensures s.workers[i] == Waiting { assert !s.stop[i]; }
      assert s.workers[0] == Waiting;
      SumZero(s.workers, AvailableRank);
    }
    forall t: nat ensures Sum(s.workers, ClaimOf(t)) == 0 { SumZero(s.workers, ClaimOf(t)); }
    forall t: nat ensures multiset(s.queue)[t] + multiset(s.ran)[t] == if t < |s.pushers| then 1 else 0 {
      assert Occurrences(s, t) == if Pushed(s, t) then 1 else 0;
    }
  }

  lemma {:induction false} RunThen(s: State, first: seq<Action>, rest: seq<Action>)
    requires RunFrom(s, first).At?
    ensures RunFrom(s, first + rest) == RunFrom(RunFrom(s, first).state, rest)
    decreases |first|
  {
    if first == [] {
      assert first + rest == rest;
    } else {
      assert (first + rest)[1..] == first[1..] + rest;
      RunThen(Next(s, first[0]), first[1..], rest);
    }
  }

  lemma {:induction false} DeleteStays(s: State, actions: seq<Action>)
    requires !s.deleter.Idle? && RunFrom(s, actions).At?
    ensures !RunFrom(s, actions).state.deleter.Idle?
    decreases |actions|
  {
    if actions == [] {
    } else {
      DeleteStays(Next(s, actions[0]), actions[1..]);
    }
  }

  /** Shutdown completes.  After delete was called, every run is bounded by what the environment
      feeds it, and where no thread can move any more, every push has returned, delete has joined
      every worker and every worker has exited. */
  lemma ShutdownCompletes(s: State, actions: seq<Action>)
    requires Reachable(s) && !s.deleter.Idle? && RunFrom(s, actions).At?
    ensures |actions| <= Measure(s) + TotalCost(actions, |s.workers|)
    ensures var later := RunFrom(s, actions).state;
            (forall a :: Enabled(later, a) ==> External(a)) ==>
              later.deleter.Deleted? && AllAre(later.workers, Exited) && AllDone(later.pushers)
  {
    ReachableInv(s);
    RunsAreBounded(s, actions);
    DeleteStays(s, actions);
    var s0, before :| Init(s0) && RunFrom(s0, before) == At(s);
    RunThen(s0, before, actions);
    var later := RunFrom(s, actions).state;
    assert RunFrom(s0, before + actions) == At(later);
    if forall a :: Enabled(later, a) ==> External(a) {
      NoDeadlock(later);
    }
  }

  // ---------------------------------------------------------------- what a stopped worker does

  /** The worker is about to take a task, or has one that it has not finished. */
  predicate Working(pc: WorkerPc) { pc.Take? || pc.UnlockRun? || pc.Run? }

  function WorkingRank(pc: WorkerPc): nat {
    if Working(pc) then 1 else 0
  }

  function TakingRank(pc: WorkerPc): nat {
    if pc.Take? then 1 else 0
  }

  /** A worker that sees its `stop` set when it has no task takes none any more. */
  lemma StoppedStep(s: State, a: Action, w: nat)
    requires Enabled(s, a) && w < |s.workers| && s.stop[w] && !Working(s.workers[w])
    ensures var s' := Next(s, a);
            |s'.workers| == |s'.stop| == |s.workers| && s'.stop[w] && !Working(s'.workers[w])
  {
  }

  lemma {:induction false} StoppedTakesNothing(s: State, actions: seq<Action>, w: nat)
    requires |s.stop| == |s.workers| && w < |s.workers| && s.stop[w] && !Working(s.workers[w])
    requires RunFrom(s, actions).At?
    ensures var later := RunFrom(s, actions).state;
            |later.workers| == |s.workers| && !Working(later.workers[w])
    decreases |actions|
  {
    if actions == [] {
    } else {
      StoppedStep(s, actions[0], w);
      StoppedTakesNothing(Next(s, actions[0]), actions[1..], w);
    }
  }

  predicate AllStopped(s: State) {
    |s.stop| == |s.workers| && forall i :: 0 <= i < |s.stop| ==> s.stop[i]
  }

  /** How many workers have a task or are about to take one, and how many are about to. */
  function AtWork(s: State): nat { Sum(s.workers, WorkingRank) }

  function Taking(s: State): nat { Sum(s.workers, TakingRank) }

  /** The last n tasks of the list. */
  function Oldest(queue: seq<nat>, n: nat): seq<nat>
    requires n <= |queue|
  {
    queue[|queue| - n..]
  }

  predicate Keeps(queue: seq<nat>, later: seq<nat>, n: nat) {
    n <= |queue| && n <= |later| && Oldest(later, n) == Oldest(queue, n)
  }

  lemma {:induction false} SumOfWaking(ws: seq<WorkerPc>, rank: WorkerPc -> nat)
    requires rank(Waiting) == rank(Reacquire)
    ensures Sum(WakeAll(ws), rank) == Sum(ws, rank)
  {
    if ws == [] {
    } else {
      assert WakeAll(ws)[1..] == WakeAll(ws[1..]);
      SumOfWaking(ws[1..], rank);
    }
  }

  /** When all flags are set, finished and unfinished tasks add up to the same number, and the list
      loses at its head what the workers about to take a task take, no more. */
  ghost predicate Winding(s: State, s': State) {
    && AllStopped(s')
    && |s'.ran| + AtWork(s') == |s.ran| + AtWork(s)
    && Taking(s') <= Taking(s)
    && (forall n: nat :: n <= |s.queue| - (Taking(s) - Taking(s')) ==> Keeps(s.queue, s'.queue, n))
  }

  lemma WindingWorker(s: State, w: nat)
    requires AllStopped(s) && Enabled(s, WorkerStep(w))
    ensures Winding(s, WorkerNext(s, w))
  {
    var s' := WorkerNext(s, w);
    SumUpdate(s.workers, w, s'.workers[w], WorkingRank);
    SumUpdate(s.workers, w, s'.workers[w], TakingRank);
  }

  lemma WindingPusher(s: State, p: nat, woken: nat)
    requires AllStopped(s) && Enabled(s, PusherStep(p, woken))
    ensures Winding(s, PusherNext(s, p, woken))
  {
    if s.pushers[p] == PushSignal && AnyWaiting(s) {
      SumUpdate(s.workers, woken, Reacquire, WorkingRank);
      SumUpdate(s.workers, woken, Reacquire, TakingRank);
    }
  }

  lemma WindingStep(s: State, a: Action)
    requires AllStopped(s) && Enabled(s, a)
    ensures Winding(s, Next(s, a))
  {
    match a {
      case WorkerStep(w) => WindingWorker(s, w);
      case PusherStep(p, woken) => WindingPusher(s, p, woken);
      case Spurious(w) =>
        SumUpdate(s.workers, w, Reacquire, WorkingRank);
        SumUpdate(s.workers, w, Reacquire, TakingRank);
      case DeleterStep =>
        SumOfWaking(s.workers, WorkingRank);
        SumOfWaking(s.workers, TakingRank);
      case _ =>
    }
  }

  lemma {:induction false} WindingRun(s: State, actions: seq<Action>)
    requires AllStopped(s) && RunFrom(s, actions).At?
    ensures Winding(s, RunFrom(s, actions).state)
    decreases |actions|
  {
    if actions == [] {
    } else {
      WindingStep(s, actions[0]);
      var s', later := Next(s, actions[0]), RunFrom(s, actions).state;
      WindingRun(s', actions[1..]);
      forall n: nat | n <= |s.queue| - (Taking(s) - Taking(later)) ensures Keeps(s.queue, later.queue, n) {
        var most: nat := |s.queue| - (Taking(s) - Taking(s'));
        assert Keeps(s.queue, s'.queue, most) && Keeps(s.queue, s'.queue, n);
        assert Keeps(s'.queue, later.queue, n);
      }
    }
  }

  /** Once all flags are set, exactly the tasks that workers have or are about to take are still run,
      and of the tasks listed then all but the ones those workers take stay in the list, in order,
      until delete has joined every worker and for ever. */
  lemma ShutdownRunsNoMore(s: State, actions: seq<Action>, n: nat)
    requires Reachable(s) && AllStopped(s) && RunFrom(s, actions).At?
    ensures var later := RunFrom(s, actions).state;
            && |later.ran| <= |s.ran| + AtWork(s)
            && (n + Taking(s) <= |s.queue| ==> Keeps(s.queue, later.queue, n))
            && (later.deleter.Deleted? ==> |later.ran| == |s.ran| + AtWork(s))
  {
    WindingRun(s, actions);
    var later := RunFrom(s, actions).state;
    if later.deleter.Deleted? {
      ReachableInv(s);
      RunInv(s, actions);
      SumZero(later.workers, WorkingRank);
    }
  }
}
