/** The controller does its work: what it sleeps for, and that whatever is due can be started. */
module SchedulerProgress {
  import opened Results
  import opened Scheduler
  import opened SchedulerRuns
  import opened SchedulerTasks

  /** When the controller goes to sleep, it does so until the earliest time in the queue, and without a deadline exactly
      when the queue is empty. */
  lemma SleepsUntilEarliest(s: State, top: Entry)
    requires CanWork(s, Loop(top)) && s.keepRunning
    ensures var s' := DoWork(s, Loop(top));
      && s'.worker.Asleep? && s'.owner == Free
      && (s'.worker.deadline.None? <==> s.ledger.queue == multiset{})
      && (s'.worker.deadline.Some? ==>
            && (exists e :: e in s.ledger.queue && e.time == s'.worker.deadline.value)
            && forall e :: e in s.ledger.queue ==> s'.worker.deadline.value <= e.time)
  {
  }

  /** In every reachable state: a stop returns from its check exactly when there is no thread, and waits exactly when
      the worker is between entering and leaving run; when its wait ends it throws exactly when the worker still is. */
  lemma StopOutcomeIff(s: State, i: nat, stage: StopStep)
    requires Reachable(s) && Enabled(s, Stop(i, stage))
    ensures var s' := Apply(s, Stop(i, stage)); var running := Alive(s.worker);
      && (stage == CheckStop ==>
            i in s'.clients &&
            s'.clients[i] == if !s.threadExists then Stopped else if running then StopSleeping else StopJoining)
      && (stage == WakeStop && (running || s.threadExists) ==>
            !s'.crashed && i in s'.clients && s'.clients[i] == if running then StopTimedOut else StopJoining)
      && (stage == WakeStop && !running && !s.threadExists ==> s'.crashed)
      && (stage == Join ==> i in s'.clients && s'.clients[i] == Stopped && !s'.threadExists)
  {
    ReachableInv(s);
    hide LockInv, PassInv, SleepInv, StopInv, OverlapInv, LedgerInv, SomeoneSleeps;
  }

  /** A start ends well exactly when, at the end of its wait, the worker is between entering and leaving run. */
  lemma StartOutcomeIff(s: State)
    requires Reachable(s) && Enabled(s, FinishStart)
    ensures Apply(s, FinishStart).starter == if Alive(s.worker) then StartReturned else StartTimedOut
  {
    ReachableInv(s);
    hide LockInv, PassInv, SleepInv, StopInv, OverlapInv, LedgerInv;
  }

  // The worker is in a pass whose clock reading is before t.
  predicate StalePass(pc: Pc, t: int) {
    (pc.Deciding? || pc.Running? || pc.Returned? || pc.Stored?) && pc.pass < t
  }

  // How many rounds away a pass is that takes everything due at t.
  function Stage(pc: Pc, t: int): nat {
    if StalePass(pc, t) then 2
    else if pc.Deciding? || pc.Running? || pc.Returned? || pc.Stored? then 0
    else 1
  }

  function Ahead(pc: Pc): nat {
    match pc
    case LoopHead => 5
    case Asleep(_) => 4
    case Awake => 3
    case Starting => 2
    case Entering => 1
    case Running(_, _) => 4
    case Returned(_, _, _) => 3
    case Stored(_) => 2
    case Deciding(_, _) => 1
    case _ => 0
  }

  // The controller runs, and may take the lock or has it.
  predicate Serving(s: State) {
    && !s.crashed && s.keepRunning && (s.owner == Free || s.owner == Worker)
    && s.worker != Unborn && s.worker != Leaving && s.worker != Gone
  }

  // Its next step: a running task returns without asking for more, a sleeper that is owed a notification gets it, and
  // one that is not times out.
  lemma NextServing(s: State, e: Entry) returns (step: Step)
    requires Inv(s) && Serving(s) && e in s.ledger.queue && e.time <= s.now
    ensures Enabled(s, step)
    ensures step.Work? || (s.worker.Asleep? && step.Act? && step.act == Notify)
    ensures step.Work? ==> step.move != Spurious && (step.move.Return? ==> step.move.wait == None)
    ensures step.Work? && s.worker.Asleep? ==> step.move == Timeout
  {
    hide IsTop, StopInv, OverlapInv, LedgerInv;
    var top := HasTop(s.ledger.queue);
    match s.worker
    case Starting => step := Work(Born);
    case Entering => step := Work(Enter(top));
    case Deciding(_, _) => step := Work(Decide);
    case Running(_, _) => step := Work(Return(None));
    case Returned(_, _, _) => step := Work(Store);
    case Stored(_) => step := Work(Next(top));
    case LoopHead => step := Work(Loop(top));
    case Awake => step := Work(Reacquire);
    case Asleep(_) =>
      if i :| i in s.clients && s.clients[i].OwesNotify? {
        step := Act(i, Notify);
      } else {
        step := Work(Timeout);
      }
  }

  // The entry was the last one started, just now; or it is still queued, and a pass that takes it is nearer.
  ghost predicate Nearer(s: State, s': State, e: Entry) {
    && Serving(s') && s'.now == s.now
    && (s'.ledger.started == s.ledger.started + [Start(e, s.now)] ||
        (e in s'.ledger.queue && s.ledger.started <= s'.ledger.started && Closer(s, s', e)))
  }

  ghost predicate Closer(s: State, s': State, e: Entry) {
    var (a, b) := (Stage(s.worker, e.time), Stage(s'.worker, e.time));
    b < a || (b == a && (Pending(s') < Pending(s) || (Pending(s') == Pending(s) && Ahead(s'.worker) < Ahead(s.worker))))
  }

  lemma ServesDecide(s: State, e: Entry)
    requires CanWork(s, Decide) && PassInv(s) && Serving(s) && e in s.ledger.queue && e.time <= s.now
    ensures Nearer(s, DoWork(s, Decide), e)
  {
    var top := s.worker.top;
    assert top in s.ledger.queue && top.time <= e.time;
    hide IsTop;
    if top.time <= s.worker.pass {
      BeginIs(s.ledger, top, s.now);
      OneTaken(s.ledger.queue, top);
    }
  }

  lemma ServesWork(s: State, move: WorkerStep, e: Entry)
    requires CanWork(s, move) && PassInv(s) && Serving(s) && e in s.ledger.queue && e.time <= s.now
    requires move != Spurious && (move.Return? ==> move.wait == None)
    ensures Nearer(s, DoWork(s, move), e)
  {
    if move.Decide? {
      ServesDecide(s, e);
    } else if move.Store? {
      assert Nearer(s, DoWork(s, Store), e);
    } else {
      hide IsTop, Answered, Begin;
    }
  }

  lemma ServesOnce(s: State, e: Entry) returns (step: Step)
    requires Reachable(s) && Serving(s) && e in s.ledger.queue && e.time <= s.now
    ensures Enabled(s, step) && Reachable(Apply(s, step)) && Nearer(s, Apply(s, step), e)
  {
    ReachableInv(s);
    step := NextServing(s, e);
    Reach(s, step);
    if step.Work? {
      ServesWork(s, step.move, e);
    }
    hide Reachable, Inv, Serving, Nearer, CanWork, DoWork, CanAct, DoAct;
  }

  /** Whatever state the running controller is in, an entry that is due can be started without any time passing: its
      running task returns, a notification that is owed is given, a wait that is over times out, and no more is needed
      than the controller's own steps. */
  lemma DueCanStart(s: State, e: Entry) returns (s': State)
    requires Reachable(s) && Serving(s) && e in s.ledger.queue && e.time <= s.now
    ensures Follows(s, s') && s'.now == s.now
    ensures s.ledger.started <= s'.ledger.started
    ensures |s'.ledger.started| > |s.ledger.started|
    ensures s'.ledger.started[|s'.ledger.started| - 1] == Start(e, s.now)
    decreases Stage(s.worker, e.time), Pending(s), Ahead(s.worker)
  {
    hide Reachable, Enabled, Apply, Serving, Pending, Stage, Ahead, Follows;
    var step := ServesOnce(s, e);
    var s1 := Apply(s, step);
    if s1.ledger.started == s.ledger.started + [Start(e, s.now)] {
      s' := s1;
      Follows0(s1);
    } else {
      s' := DueCanStart(s1, e);
    }
    FollowsStep(s, step, s1, s');
  }
}
