/** What holds over every run of the scheduler: wake-ups are not lost, tasks are neither lost nor run
    early, and exactly when start and stop are safe. */
module SchedulerRuns {
  import opened Results
  import opened Scheduler

  lemma InvInit(s: State)
    requires Init(s)
    ensures Inv(s)
  {
  }

  lemma InvOther(s: State, step: Step)
    requires Enabled(s, step) && Inv(s) && (step.Tick? || step.CallStart? || step.FinishStart?)
    ensures Inv(Apply(s, step))
  {
    hide IsTop, Entries;
    assert step.Tick? ==> NotEarly(s.ledger.started, step.time);
    if s.worker.Asleep? && NotifyOwed(s) {
      var j :| j in s.clients && s.clients[j].OwesNotify?;
      var s' := Apply(s, step);
      assert j in s'.clients && s'.clients[j].OwesNotify?;
    }
  }

  lemma InvWork(s: State, move: WorkerStep)
    requires Enabled(s, Work(move)) && Inv(s)
    ensures Inv(Apply(s, Work(move)))
  {
    hide LockInv, PassInv, SleepInv, ThreadInv, StopInv, LedgerInv;
    LockWork(s, move);
    PassWork(s, move);
    SleepWork(s, move);
    ThreadWork(s, move);
    StopWork(s, move);
    LedgerWork(s, move);
    hide DoWork, CanWork;
  }

  lemma InvAct(s: State, i: nat, act: ClientStep)
    requires Enabled(s, Act(i, act)) && Inv(s)
    ensures Inv(Apply(s, Act(i, act)))
  {
    hide LockInv, PassInv, SleepInv, ThreadInv, StopInv, OverlapInv, LedgerInv, DoAct, CanAct;
    LockAct(s, i, act);
    PassAct(s, i, act);
    SleepAct(s, i, act);
    ThreadAct(s, i, act);
    StopAct(s, i, act);
    OverlapAct(s, i, act);
    LedgerAct(s, i, act);
  }

  lemma InvStop(s: State, i: nat, stage: StopStep)
    requires Enabled(s, Stop(i, stage)) && Inv(s)
    ensures Inv(Apply(s, Stop(i, stage)))
  {
    hide LockInv, PassInv, SleepInv, ThreadInv, StopInv, OverlapInv, LedgerInv, DoStop, CanStop;
    StopStage(s, i, stage);
    StopOkStage(s, i, stage);
    SleepStage(s, i, stage);
    OverlapStage(s, i, stage);
  }

  lemma InvStep(s: State, step: Step)
    requires Enabled(s, step) && Inv(s)
    ensures Inv(Apply(s, step))
  {
    hide Inv, Apply, Enabled;
    match step
    case Work(move) => InvWork(s, move);
    case Act(i, act) => InvAct(s, i, act);
    case Stop(i, stage) => InvStop(s, i, stage);
    case _ => InvOther(s, step);
  }

  lemma {:induction false} InvRun(s: State, steps: seq<Step>, s': State)
    requires Inv(s) && Run(s, steps, s')
    ensures Inv(s')
    decreases |steps|
  {
    hide Inv;
    if steps == [] {
    } else {
      InvStep(s, steps[0]);
      InvRun(Apply(s, steps[0]), steps[1..], s');
    }
  }

  lemma ReachableInv(s: State)
    requires Reachable(s)
    ensures Inv(s)
  {
    hide Inv;
    var s0, steps :| Init(s0) && Run(s0, steps, s);
    InvInit(s0);
    InvRun(s0, steps, s);
  }

  lemma {:induction false} RunSnoc(s: State, steps: seq<Step>, s': State, step: Step)
    requires Run(s, steps, s') && Enabled(s', step)
    ensures Run(s, steps + [step], Apply(s', step))
    decreases |steps|
  {
    hide Enabled, Apply;
    if steps == [] {
      assert Run(Apply(s, step), [], Apply(s', step));
      assert [step][1..] == [];
    } else {
      RunSnoc(Apply(s, steps[0]), steps[1..], s', step);
      assert (steps + [step])[1..] == steps[1..] + [step];
    }
  }

  lemma Reach(s: State, step: Step)
    requires Reachable(s) && Enabled(s, step)
    ensures Reachable(Apply(s, step))
  {
    var s0, steps :| Init(s0) && Run(s0, steps, s);
    RunSnoc(s0, steps, s, step);
    hide Init, Run, Enabled, Apply;
  }

  // ---- wake-ups ----

  /** A worker asleep, with no notification on its way, has nothing to do before its deadline; and as
      soon as some entry is due, its wait can time out. */
  lemma NoLostWakeup(s: State)
    requires Reachable(s) && s.worker.Asleep? && !NotifyOwed(s)
    ensures s.keepRunning
    ensures s.worker.deadline.None? ==> s.ledger.queue == multiset{}
    ensures s.worker.deadline.Some? ==> forall e :: e in s.ledger.queue ==> s.worker.deadline.value <= e.time
    ensures !s.crashed && (exists e :: e in s.ledger.queue && e.time <= s.now) ==> Enabled(s, Work(Timeout))
  {
    ReachableInv(s);
    hide LockInv, PassInv, ThreadInv, StopInv, OverlapInv, LedgerInv;
  }

  // ---- conservation ----

  /** Every entry pushed is queued, has been started once, or was dropped by clear or remove; and
      no task was started before its time. */
  lemma Conservation(s: State)
    requires Reachable(s)
    ensures s.ledger.pushed == s.ledger.queue + Entries(s.ledger.started) + s.ledger.dropped
    ensures forall i :: 0 <= i < |s.ledger.started| ==> s.ledger.started[i].entry.time <= s.ledger.started[i].at
  {
    ReachableInv(s);
    hide LockInv, PassInv, SleepInv, ThreadInv, StopInv, OverlapInv;
  }

  // ---- start and stop ----

  /** Stops that do not overlap never join twice or through a null pointer; the join comes after the
      worker has left, and a stop that returned leaves no thread. */
  lemma StopSafety(s: State, i: nat)
    requires Reachable(s)
    ensures s.joins <= 1
    ensures s.crashed ==> s.overlapped
    ensures At(s, i, StopJoining) && s.starter == StartReturned ==> s.worker == Gone && s.owner == Stopper(i)
    ensures At(s, i, Stopped) ==> !s.threadExists && !s.threadStarted && s.worker == Gone
  {
    ReachableInv(s);
    hide PassInv, SleepInv, LedgerInv;
  }

  /** A join that holds the lock can finish, unless the thread never got the lock to begin with; that
      happens only after a start that timed out. */
  lemma JoinBlocksOnlyAfterFailedStart(s: State, i: nat)
    requires Reachable(s) && !s.crashed && At(s, i, StopJoining)
    ensures Enabled(s, Stop(i, Join)) <==> s.worker != Starting
    ensures s.worker == Starting ==> s.starter == StartTimedOut
  {
    ReachableInv(s);
    hide PassInv, SleepInv, LedgerInv, OverlapInv;
  }

  lemma {:induction false} DeadlockForever(s: State, i: nat, steps: seq<Step>, s': State)
    requires Inv(s) && At(s, i, StopJoining) && s.worker == Starting && Run(s, steps, s')
    ensures At(s', i, StopJoining) && s'.worker == Starting
    decreases |steps|
  {
    if steps == [] {
    } else {
      InvStep(s, steps[0]);
      StaysStuck(s, i, steps[0]);
      hide Inv, At, Enabled, Apply;
      DeadlockForever(Apply(s, steps[0]), i, steps[1..], s');
    }
  }

  lemma StaysStuck(s: State, i: nat, step: Step)
    requires Enabled(s, step) && LockInv(s) && ThreadInv(s) && StopInv(s)
    requires At(s, i, StopJoining) && s.worker == Starting
    ensures At(Apply(s, step), i, StopJoining) && Apply(s, step).worker == Starting
  {
    hide IsTop, Removes, SomeoneSleeps, Enqueued, Answered, Begin, Drop;
  }

  ghost function Fresh(): (s: State)
    ensures Init(s) && Reachable(s)
  {
    var s := State(0, Free, Ledger(multiset{}, multiset{}, [], multiset{}, multiset{}, []), false, false, false,
                   Unborn, NotCalled, map[], false, 0, false);
    assert Run(s, [], s);
    s
  }

  // One client's stop, up to the point where it wants the lock for its check.
  lemma StopToCheck(s: State, i: nat) returns (s': State)
    requires Reachable(s) && !s.crashed && i !in s.clients && s.owner == Free
    requires s.starter == StartReturned || s.starter == StartTimedOut
    ensures Reachable(s')
    ensures s' == s.(keepRunning := false, worker := WakeUp(s.worker), clients := s.clients[i := StopChecking])
  {
    var s1 := Apply(s, Act(i, Call(Stopping)));
    Reach(s, Act(i, Call(Stopping)));
    var s2 := Apply(s1, Act(i, ClearRunning));
    Reach(s1, Act(i, ClearRunning));
    s' := Apply(s2, Act(i, Notify));
    Reach(s2, Act(i, Notify));
    assert s'.clients == s.clients[i := StopChecking];
  }

  /** A start that times out and is followed by a stop may end in a deadlock no run leaves. */
  lemma FailedStartDeadlocks() returns (s: State, i: nat)
    ensures Reachable(s) && At(s, i, StopJoining) && s.worker == Starting
    ensures forall steps, s' :: Run(s, steps, s') ==> At(s', i, StopJoining) && s'.worker == Starting
  {
    var s0 := Fresh();
    Reach(s0, CallStart);
    var s1 := Apply(s0, CallStart);
    Reach(s1, FinishStart);
    var s2 := Apply(s1, FinishStart);
    i := 0;
    var s3 := StopToCheck(s2, i);
    Reach(s3, Stop(i, CheckStop));
    s := Apply(s3, Stop(i, CheckStop));
    ReachableInv(s);
    hide Inv, Run;
    forall steps, s' | Run(s, steps, s')
      ensures At(s', i, StopJoining) && s'.worker == Starting
    {
      DeadlockForever(s, i, steps, s');
    }
  }

  // ---- overlapping stops ----

  // How far the worker is from leaving, once keepRunning is false.
  function Distance(pc: Pc): nat {
    match pc
    case Unborn | Starting => 10
    case Asleep(_) => 9
    case Awake => 8
    case Entering => 7
    case Running(_, _) => 6
    case Returned(_, _, _) => 5
    case Stored(_) => 4
    case Deciding(_, _) => 3
    case LoopHead => 2
    case Leaving => 1
    case Gone => 0
  }

  // Entries the current pass may still look at, counting one that waits to be rescheduled.
  ghost function Pending(s: State): nat {
    |s.ledger.queue| + if s.worker.Returned? && s.worker.wait.Some? then 1 else 0
  }

  // The worker's next step on its way out; a task that is running is not to be rescheduled.
  lemma NextMove(s: State) returns (move: WorkerStep)
    requires Inv(s) && !s.keepRunning && (s.owner == Free || s.owner == Worker)
    requires s.worker != Unborn && s.worker != Starting && s.worker != Gone
    ensures CanWork(s, move)
    ensures s.worker.Running? ==> move == Return(None)
    ensures var s' := DoWork(s, move);
      && s'.worker != Starting && s'.worker != Unborn && (s'.owner == Free || s'.owner == Worker)
      && s' == s.(ledger := s'.ledger, owner := s'.owner, worker := s'.worker, threadStarted := s'.threadStarted)
  {
    var top := HasTop(s.ledger.queue);
    move := match s.worker
      case Asleep(_) => Spurious
      case Awake => Reacquire
      case Entering => Enter(top)
      case Running(_, _) => Return(None)
      case Returned(_, _, _) => Store
      case Stored(_) => Next(top)
      case Deciding(_, _) => Decide
      case LoopHead => Loop(top)
      case _ => Leave;
    hide IsTop, SleepInv, StopInv, OverlapInv, LedgerInv, Answered, Begin;
  }

  // Every step but a timer or a spurious wake-up brings the worker closer to leaving.
  lemma MoveAdvances(s: State, move: WorkerStep)
    requires CanWork(s, move) && PassInv(s) && !s.keepRunning
    requires move.Return? ==> move.wait == None
    requires s.worker != Starting
    ensures var s' := DoWork(s, move);
      Pending(s') < Pending(s) || (Pending(s') == Pending(s) && Distance(s'.worker) < Distance(s.worker))
  {
    hide With, Without;
    if move.Decide? {
      OneTaken(s.ledger.queue, s.worker.top);
    } else if move.Store? && s.worker.wait.Some? {
      OneQueued(s.ledger.queue, Reschedule(s.worker.entry.task, s.now, s.worker.wait).value);
    }
  }

  lemma OneTaken(queue: multiset<Entry>, e: Entry)
    requires e in queue
    ensures |Without(queue, multiset{e})| == |queue| - 1
  {
  }

  lemma OneQueued(queue: multiset<Entry>, e: Entry)
    ensures |With(queue, e)| == |queue| + 1
  {
  }

  /** A worker told to stop can always leave. */
  lemma WorkerLeaves(s: State) returns (s': State)
    requires Reachable(s) && !s.crashed && !s.keepRunning && (s.owner == Free || s.owner == Worker)
    requires s.worker != Unborn && s.worker != Starting
    ensures Follows(s, s')
    ensures s'.worker == Gone && s'.owner == Free && !s'.threadStarted && !s'.crashed
    ensures s'.clients == s.clients && s'.threadExists == s.threadExists
    decreases Pending(s), Distance(s.worker)
  {
    ReachableInv(s);
    if s.worker == Gone {
      Follows0(s);
      s' := s;
    } else {
      var move := NextMove(s);
      MoveAdvances(s, move);
      var s1 := Apply(s, Work(move));
      Reach(s, Work(move));
      hide Reachable, Inv, CanWork, DoWork;
      s' := WorkerLeaves(s1);
      FollowsStep(s, Work(move), s1, s');
    }
  }

  ghost predicate Follows(s: State, s': State) {
    exists steps: seq<Step> :: Run(s, steps, s')
  }

  lemma Follows0(s: State)
    ensures Follows(s, s)
  {
    assert Run(s, [], s);
  }

  lemma FollowsStep(s: State, step: Step, s1: State, s': State)
    requires Takes(s, step, s1) && Follows(s1, s')
    ensures Follows(s, s')
  {
    var steps :| Run(s1, steps, s');
    hide Enabled, Apply;
    assert ([step] + steps)[1..] == steps;
    assert Run(s, [step] + steps, s');
  }

  lemma {:induction false} FollowsOn(s: State, s1: State, step: Step)
    requires Follows(s, s1) && Enabled(s1, step)
    ensures Follows(s, Apply(s1, step))
  {
    var steps :| Run(s, steps, s1);
    RunSnoc(s, steps, s1, step);
    hide Enabled, Apply, Run;
  }

  /** Whenever a stop reaches its check or sleeps while another stop sleeps, some continuation of the run
      joins through a null pointer: the wait does not look at the thread again. */
  lemma OverlappingStopsCanCrash(s: State, i: nat, j: nat) returns (s': State)
    requires Reachable(s) && !s.crashed && i != j
    requires At(s, i, StopSleeping) && (At(s, j, StopSleeping) || At(s, j, StopChecking))
    ensures Follows(s, s') && s'.crashed
  {
    hide Follows, Reachable, Run, SleepInv, PassInv, LedgerInv, OverlapInv, SomeoneSleeps;
    ReachableInv(s);
    var s1: State;
    Follows0(s);
    if k: nat :| s.owner == Stopper(k) {
      s1 := Apply(s, Stop(k, Join));
      FollowsOn(s, s, Stop(k, Join));
    } else {
      var s2 := WorkerLeaves(s);
      var stage := if At(s2, j, StopSleeping) then WakeStop else CheckStop;
      s1 := Apply(s2, Stop(j, stage));
      FollowsOn(s, s2, Stop(j, stage));
      if s1.crashed {
        return s1;
      }
      if s1.threadExists {
        FollowsOn(s, s1, Stop(j, Join));
        s1 := Apply(s1, Stop(j, Join));
      }
    }
    FollowsOn(s, s1, Stop(i, WakeStop));
    s' := Apply(s1, Stop(i, WakeStop));
  }

  /** Two stops of a thread that started normally are enough. */
  lemma TwoStopsCanCrash() returns (s: State, s': State)
    ensures Reachable(s) && s.starter == StartReturned && !s.crashed
    ensures Follows(s, s') && s'.crashed
  {
    var s0 := Fresh();
    Reach(s0, CallStart);
    var s1 := Apply(s0, CallStart);
    Reach(s1, Work(Born));
    var s2 := Apply(s1, Work(Born));
    Reach(s2, Work(Enter(Entry(0, 0))));
    var s3 := Apply(s2, Work(Enter(Entry(0, 0))));
    Reach(s3, Work(Loop(Entry(0, 0))));
    var s4 := Apply(s3, Work(Loop(Entry(0, 0))));
    Reach(s4, FinishStart);
    var s5 := Apply(s4, FinishStart);
    hide Reachable;
    var s6 := StopToCheck(s5, 0);
    Reach(s6, Stop(0, CheckStop));
    var s7 := Apply(s6, Stop(0, CheckStop));
    s := StopToCheck(s7, 1);
    s' := OverlappingStopsCanCrash(s, 0, 1);
  }

  // ---- a pass need not end ----

  predicate Spinning(s: State) {
    && !s.crashed && s.owner == Worker && s.worker == Deciding(s.now, Entry(s.now, 0))
    && s.ledger.queue == multiset{Entry(s.now, 0)}
  }

  lemma Spin(s: State) returns (s': State)
    requires Spinning(s)
    ensures Follows(s, s') && Spinning(s') && s'.now == s.now
    ensures |s'.ledger.started| == |s.ledger.started| + 1
  {
    Follows0(s);
    FollowsOn(s, s, Work(Decide));
    var s1 := Apply(s, Work(Decide));
    FollowsOn(s, s1, Work(Return(Some(0))));
    var s2 := Apply(s1, Work(Return(Some(0))));
    FollowsOn(s, s2, Work(Store));
    var s3 := Apply(s2, Work(Store));
    FollowsOn(s, s3, Work(Next(Entry(s.now, 0))));
    s' := Apply(s3, Work(Next(Entry(s.now, 0))));
    hide Follows;
  }

  lemma {:induction false} FollowsTrans(s: State, s1: State, s2: State)
    requires Follows(s, s1) && Follows(s1, s2)
    ensures Follows(s, s2)
  {
    var a :| Run(s, a, s1);
    var b :| Run(s1, b, s2);
    RunAppend(s, a, s1, b, s2);
  }

  lemma {:induction false} RunAppend(s: State, a: seq<Step>, s1: State, b: seq<Step>, s2: State)
    requires Run(s, a, s1) && Run(s1, b, s2)
    ensures Run(s, a + b, s2)
    decreases |a|
  {
    hide Enabled, Apply;
    if a == [] {
      assert a + b == b;
    } else {
      RunAppend(Apply(s, a[0]), a[1..], s1, b, s2);
      assert (a + b)[1..] == a[1..] + b;
    }
  }

  lemma {:induction false} ZeroWaitSpins(s: State, n: nat) returns (s': State)
    requires Spinning(s)
    ensures Follows(s, s') && Spinning(s') && s'.now == s.now
    ensures |s'.ledger.started| == |s.ledger.started| + n
    decreases n
  {
    if n == 0 {
      Follows0(s);
      s' := s;
    } else {
      var s1 := Spin(s);
      s' := ZeroWaitSpins(s1, n - 1);
      FollowsTrans(s, s1, s');
    }
  }

  /** A task that asks to run again after 0 ms is due again at once: while the clock stands still one pass can
      start it any number of times. */
  lemma PassNeedNotEnd(n: nat) returns (s: State, s': State)
    ensures Reachable(s) && Spinning(s)
    ensures Follows(s, s') && s'.worker == s.worker && s'.now == s.now
    ensures |s'.ledger.started| == |s.ledger.started| + n
  {
    hide Reachable, Run;
    var task := Entry(0, 0);
    var s0 := Fresh();
    Reach(s0, Act(0, Call(Enqueuing(Some(task)))));
    var s1 := Apply(s0, Act(0, Call(Enqueuing(Some(task)))));
    Reach(s1, Act(0, Enqueue));
    var s2 := Apply(s1, Act(0, Enqueue));
    Reach(s2, CallStart);
    var s3 := Apply(s2, CallStart);
    Reach(s3, Work(Born));
    var s4 := Apply(s3, Work(Born));
    Reach(s4, Work(Enter(task)));
    s := Apply(s4, Work(Enter(task)));
    s' := ZeroWaitSpins(s, n);
  }
}
