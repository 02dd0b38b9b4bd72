/** Where the entries of the queue come from, over every run: clients, and tasks that ask to run again; that two starts
    of one task are apart by the wait it asked for; what enqueue, clear and remove do to the queue; and that a task once
    removed stays away. */
module SchedulerTasks {
  import opened Results
  import opened Scheduler
  import opened SchedulerRuns

  // What the tasks started asked for: the same task, so many milliseconds after the clock was read.
  function Requeued(started: seq<Start>, answers: seq<Answer>): multiset<Entry>
    requires |answers| <= |started|
    decreases answers
  {
    if answers == [] then multiset{}
    else
      var k := |answers| - 1;
      Requeued(started, answers[..k]) + RequeuedBy(started[k], answers[k])
  }

  function RequeuedBy(start: Start, answer: Answer): multiset<Entry> {
    match answer.wait
    case None => multiset{}
    case Some(wait) => multiset{Entry(answer.at + 1_000_000 * wait, start.entry.task)}
  }

  predicate Busy(pc: Pc) {
    pc.Running? || pc.Returned?
  }

  ghost predicate Mentioned(queue: multiset<Entry>, task: nat) {
    exists e :: e in queue && e.task == task
  }

  // Every start but one that is still busy has been answered, and the account of what was pushed.
  ghost predicate TaskInv(l: Ledger, worker: Pc, now: int) {
    && |l.started| == |l.answers| + (if Busy(worker) then 1 else 0)
    && (Busy(worker) ==> worker.entry == l.started[|l.answers|].entry)
    && l.pushed == l.enqueued + Requeued(l.started, l.answers)
    && (forall k :: 0 <= k < |l.answers| ==> l.started[k].at <= l.answers[k].at <= now)
    && (forall e :: e in l.pushed ==> Mentioned(l.enqueued, e.task))
  }

  lemma {:induction false} RequeuedPrefix(started: seq<Start>, more: seq<Start>, answers: seq<Answer>)
    requires |answers| <= |started| <= |more| && more[..|started|] == started
    ensures Requeued(more, answers) == Requeued(started, answers)
    decreases answers
  {
    if answers == [] {
    } else {
      var k := |answers| - 1;
      assert more[k] == more[..|started|][k];
      RequeuedPrefix(started, more, answers[..k]);
    }
  }

  lemma RequeuedSnoc(started: seq<Start>, answers: seq<Answer>, answer: Answer)
    requires |answers| < |started|
    ensures Requeued(started, answers + [answer])
         == Requeued(started, answers) + RequeuedBy(started[|answers|], answer)
  {
    hide RequeuedBy;
    assert (answers + [answer])[..|answers|] == answers;
  }

  // The k-th start was answered with a wait that makes this entry.
  predicate AskedAt(started: seq<Start>, answers: seq<Answer>, k: nat, e: Entry) {
    && k < |answers| && k < |started| && answers[k].wait.Some?
    && e == Entry(answers[k].at + 1_000_000 * answers[k].wait.value, started[k].entry.task)
  }

  /** An entry is requeued exactly when some start was answered with a wait that makes it: the task is that of the
      start, and the time so many milliseconds after the answer. */
  lemma {:induction false} RequeuedIff(started: seq<Start>, answers: seq<Answer>, e: Entry)
    requires |answers| <= |started|
    ensures e in Requeued(started, answers) <==> exists k: nat :: AskedAt(started, answers, k, e)
    decreases answers
  {
    if answers == [] {
    } else {
      hide *;
      var last := |answers| - 1;
      RequeuedIff(started, answers[..last], e);
      if e in Requeued(started, answers[..last]) {
        var k: nat :| AskedAt(started, answers[..last], k, e);
        AskedSplit(started, answers, k, e);
      } else if e in Requeued(started, answers) {
        AskedSplit(started, answers, last, e);
      }
      if k: nat :| AskedAt(started, answers, k, e) {
        AskedSplit(started, answers, k, e);
      }
    }
  }

  lemma AskedSplit(started: seq<Start>, answers: seq<Answer>, k: nat, e: Entry)
    requires 0 < |answers| <= |started|
    ensures var last := |answers| - 1;
      AskedAt(started, answers, k, e) <==>
      AskedAt(started, answers[..last], k, e) || (k == last && e in RequeuedBy(started[last], answers[last]))
  {
  }

  // ---- every step keeps the account ----

  lemma TaskBegin(l: Ledger, worker: Pc, top: Entry, pass: int, now: int)
    requires TaskInv(l, worker, now) && !Busy(worker)
    ensures TaskInv(Begin(l, top, now), Running(pass, top), now)
  {
    hide Requeued, Without;
    RequeuedPrefix(l.started, l.started + [Start(top, now)], l.answers);
  }

  lemma TaskAnswered(l: Ledger, worker: Pc, wait: Option<nat>, pass: int, now: int)
    requires TaskInv(l, worker, now) && worker.Returned? && NotEarly(l.started, now) && Balanced(l)
    ensures TaskInv(Answered(l, worker.entry.task, now, wait), Stored(pass), now)
  {
    hide Requeued, Balanced;
    var task := worker.entry.task;
    var n := |l.answers|;
    RequeuedSnoc(l.started, l.answers, Answer(wait, now));
    StartWasPushed(l, n);
    assert l.started[n].entry in l.pushed;
    AnswerPushes(l, task, now, wait);
    hide RequeuedBy, Answered;
    assert Answered(l, task, now, wait).pushed == l.pushed + RequeuedBy(l.started[n], Answer(wait, now));
  }

  lemma AnswerPushes(l: Ledger, task: nat, now: int, wait: Option<nat>)
    ensures var l' := Answered(l, task, now, wait);
      && l' == l.(queue := l'.queue, pushed := l'.pushed, answers := l.answers + [Answer(wait, now)])
      && l'.pushed == l.pushed + RequeuedBy(Start(Entry(now, task), now), Answer(wait, now))
      && l'.queue == l.queue + RequeuedBy(Start(Entry(now, task), now), Answer(wait, now))
  {
  }

  lemma StartWasPushed(l: Ledger, n: nat)
    requires Balanced(l) && n < |l.started|
    ensures l.started[n].entry in l.pushed
  {
    StartInEntries(l.started, n);
    hide Entries;
  }

  lemma {:induction false} StartInEntries(started: seq<Start>, n: nat)
    requires n < |started|
    ensures started[n].entry in Entries(started)
    decreases started
  {
    if n == |started| - 1 {
    } else {
      StartInEntries(started[..|started| - 1], n);
    }
  }

  lemma TaskEnqueued(l: Ledger, entry: Option<Entry>, worker: Pc, now: int)
    requires TaskInv(l, worker, now)
    ensures TaskInv(Enqueued(l, entry), worker, now)
  {
    hide Requeued;
    match entry
    case None =>
    case Some(e) =>
      assert e in With(l.enqueued, e);
      forall x | x in With(l.pushed, e)
        ensures Mentioned(With(l.enqueued, e), x.task)
      {
        if x in l.pushed {
          var y :| y in l.enqueued && y.task == x.task;
          assert y in With(l.enqueued, e);
        }
      }
  }

  ghost predicate Accounted(s: State) {
    TaskInv(s.ledger, s.worker, s.now)
  }

  lemma TaskWork(s: State, move: WorkerStep)
    requires CanWork(s, move) && Accounted(s) && LedgerInv(s)
    ensures Accounted(DoWork(s, move))
  {
    hide TaskInv, IsTop, Balanced, NotEarly, Begin, Answered;
    match move
    case Decide =>
      TaskBegin(s.ledger, s.worker, s.worker.top, s.worker.pass, s.now);
      TaskIdle(s.ledger, s.worker, LoopHead, s.now);
    case Store =>
      TaskAnswered(s.ledger, s.worker, s.worker.wait, s.worker.pass, s.now);
    case Return(wait) =>
      TaskIdle(s.ledger, s.worker, Returned(s.worker.pass, s.worker.entry, wait), s.now);
    case _ =>
      TaskIdle(s.ledger, s.worker, DoWork(s, move).worker, s.now);
  }

  // The account does not depend on what else the worker does.
  lemma TaskIdle(l: Ledger, worker: Pc, worker': Pc, now: int)
    requires TaskInv(l, worker, now)
    requires Busy(worker) == Busy(worker') && (Busy(worker) ==> worker.entry == worker'.entry)
    ensures TaskInv(l, worker', now)
  {
    hide Requeued, Mentioned;
  }

  lemma TaskAct(s: State, i: nat, act: ClientStep)
    requires CanAct(s, i, act) && Accounted(s)
    ensures Accounted(DoAct(s, i, act))
  {
    ActFrame(s, i, act);
    ActWorker(s, i, act);
    TaskIdle(s.ledger, s.worker, DoAct(s, i, act).worker, s.now);
    var l := s.ledger;
    if act.Enqueue? {
      TaskEnqueued(l, s.clients[i].entry, s.worker, s.now);
    } else {
      ActDrops(s, i, act);
      TaskDropped(l, DoAct(s, i, act).ledger, DoAct(s, i, act).worker, s.now);
    }
    hide TaskInv, CanAct;
  }

  lemma ActDrops(s: State, i: nat, act: ClientStep)
    requires CanAct(s, i, act) && !act.Enqueue?
    ensures var l' := DoAct(s, i, act).ledger; l' == s.ledger.(queue := l'.queue, dropped := l'.dropped)
    ensures DoAct(s, i, act).ledger.queue <= s.ledger.queue
  {
    hide WakeUp;
  }

  lemma TaskDropped(l: Ledger, l': Ledger, worker: Pc, now: int)
    requires TaskInv(l, worker, now) && l' == l.(queue := l'.queue, dropped := l'.dropped)
    ensures TaskInv(l', worker, now)
  {
    hide Requeued, Mentioned;
  }

  lemma TaskLater(l: Ledger, worker: Pc, now: int, now': int)
    requires TaskInv(l, worker, now) && now <= now'
    ensures TaskInv(l, worker, now')
  {
    hide Requeued, Mentioned;
  }

  lemma TaskStep(s: State, step: Step)
    requires Enabled(s, step) && Inv(s) && Accounted(s)
    ensures Accounted(Apply(s, step))
  {
    hide TaskInv, LockInv, PassInv, SleepInv, ThreadInv, StopInv, OverlapInv, LedgerInv, DoWork, DoAct, CanWork, CanAct;
    match step
    case Tick(time) => TaskLater(s.ledger, s.worker, s.now, time);
    case CallStart => StarterIdle(s);
    case Work(move) => TaskWork(s, move);
    case Act(i, act) => TaskAct(s, i, act);
    case _ =>
  }

  lemma StarterIdle(s: State)
    requires Enabled(s, CallStart) && ThreadInv(s) && Accounted(s)
    ensures Accounted(Apply(s, CallStart))
  {
    hide TaskInv;
    TaskIdle(s.ledger, s.worker, Starting, s.now);
  }

  lemma {:induction false} TaskRun(s: State, steps: seq<Step>, s': State)
    requires Inv(s) && Accounted(s) && Run(s, steps, s')
    ensures Inv(s') && Accounted(s')
    decreases |steps|
  {
    hide Inv, Accounted, Enabled, Apply;
    if steps == [] {
    } else {
      InvStep(s, steps[0]);
      TaskStep(s, steps[0]);
      TaskRun(Apply(s, steps[0]), steps[1..], s');
    }
  }

  lemma ReachableAccounted(s: State)
    requires Reachable(s)
    ensures Inv(s) && Accounted(s)
  {
    var s0, steps :| Init(s0) && Run(s0, steps, s);
    InvInit(s0);
    hide Inv, Run;
    TaskRun(s0, steps, s);
  }

  // ---- where entries come from ----

  /** In every reachable state: what was pushed is what clients enqueued and what the tasks started asked for, every
      start but the one that is running answered once and in order. So what is queued, was started or was dropped
      comes from there, entry by entry. */
  lemma PushedExactly(s: State)
    requires Reachable(s)
    ensures var l := s.ledger;
      && |l.answers| <= |l.started| <= |l.answers| + 1
      && l.pushed == l.enqueued + Requeued(l.started, l.answers)
      && l.queue + Entries(l.started) + l.dropped == l.enqueued + Requeued(l.started, l.answers)
    ensures forall k :: 0 <= k < |s.ledger.answers| ==> s.ledger.started[k].at <= s.ledger.answers[k].at <= s.now
  {
    ReachableAccounted(s);
    Conservation(s);
    hide Inv, Entries, Requeued;
  }

  /** No task is queued or started that no client ever enqueued. */
  lemma TasksComeFromClients(s: State, e: Entry)
    requires Reachable(s) && (e in s.ledger.queue || e in Entries(s.ledger.started) || e in s.ledger.dropped)
    ensures exists client :: client in s.ledger.enqueued && client.task == e.task
  {
    ReachableAccounted(s);
    Conservation(s);
    hide Inv, Entries, Requeued;
    assert e in s.ledger.pushed;
    assert Mentioned(s.ledger.enqueued, e.task);
  }

  // ---- two starts of one task ----

  // The n-th start (from 1) has been answered with a wait, and it is over at time t.
  predicate WaitOver(l: Ledger, n: nat, t: int) {
    && 0 < n <= |l.answers| && l.answers[n - 1].wait.Some?
    && t >= l.answers[n - 1].at + 1_000_000 * l.answers[n - 1].wait.value
  }

  // Start j is the first of the task after n of them.
  predicate NextStart(l: Ledger, n: nat, j: nat, task: nat) {
    && n <= j < |l.started| && l.started[j].entry.task == task
    && forall i :: n <= i < j ==> l.started[i].entry.task != task
  }

  predicate StartedSince(l: Ledger, n: nat, task: nat) {
    exists i :: n <= i < |l.started| && l.started[i].entry.task == task
  }

  // Until the task is started again, its entries in the queue are not due before its wait is over ...
  ghost predicate QueueApart(l: Ledger, n: nat, task: nat) {
    StartedSince(l, n, task) || forall e :: e in l.queue && e.task == task ==> WaitOver(l, n, e.time)
  }

  // ... nor was the start that came then.
  ghost predicate StartsLater(l: Ledger, n: nat, task: nat) {
    forall j: nat :: NextStart(l, n, j, task) ==> WaitOver(l, n, l.started[j].at)
  }

  ghost predicate KeepsApart(l: Ledger, n: nat, task: nat) {
    && 0 < n <= |l.started| && l.started[n - 1].entry.task == task
    && QueueApart(l, n, task) && StartsLater(l, n, task)
  }

  lemma BeginIs(l: Ledger, top: Entry, now: int)
    ensures var l' := Begin(l, top, now);
      l'.started == l.started + [Start(top, now)] && l'.answers == l.answers && l'.queue <= l.queue
  {
  }

  lemma StartedOnce(l: Ledger, l': Ledger, start: Start, n: nat, task: nat)
    requires l'.started == l.started + [start] && n <= |l.started|
    ensures StartedSince(l', n, task) <==> StartedSince(l, n, task) || start.entry.task == task
  {
    if i :| n <= i < |l.started| && l.started[i].entry.task == task {
      assert l'.started[i] == l.started[i];
    } else if start.entry.task == task {
      assert l'.started[|l.started|].entry.task == task;
    }
  }

  lemma NextOnce(l: Ledger, l': Ledger, start: Start, n: nat, j: nat, task: nat)
    requires l'.started == l.started + [start] && n <= |l.started| && NextStart(l', n, j, task)
    ensures if j < |l.started| then NextStart(l, n, j, task) && l'.started[j] == l.started[j]
            else l'.started[j] == start && start.entry.task == task && !StartedSince(l, n, task)
  {
    assert forall i :: n <= i < |l.started| ==> l'.started[i] == l.started[i];
  }

  lemma ApartBegin(l: Ledger, top: Entry, now: int, n: nat, task: nat)
    requires KeepsApart(l, n, task) && top in l.queue && top.time <= now
    ensures KeepsApart(Begin(l, top, now), n, task)
  {
    hide Begin, StartedSince;
    var l' := Begin(l, top, now);
    BeginIs(l, top, now);
    StartedOnce(l, l', Start(top, now), n, task);
    forall j: nat | NextStart(l', n, j, task)
      ensures WaitOver(l', n, l'.started[j].at)
    {
      NextOnce(l, l', Start(top, now), n, j, task);
    }
  }

  lemma ApartAnswered(l: Ledger, now: int, wait: Option<nat>, n: nat, task: nat)
    requires KeepsApart(l, n, task) && |l.started| == |l.answers| + 1
    ensures KeepsApart(Answered(l, l.started[|l.answers|].entry.task, now, wait), n, task)
  {
    var k := |l.answers|;
    var last := l.started[k].entry.task;
    var l' := Answered(l, last, now, wait);
    AnswerPushes(l, last, now, wait);
    hide Answered, WaitOver, StartedSince, RequeuedBy;
    forall t | WaitOver(l, n, t)
      ensures WaitOver(l', n, t)
    {
    }
    forall j: nat | NextStart(l', n, j, task)
      ensures WaitOver(l', n, l'.started[j].at)
    {
    }
    if !StartedSince(l, n, task) {
      forall e | e in l'.queue && e.task == task
        ensures WaitOver(l', n, e.time)
      {
      }
    }
  }

  // Changes to the queue that bring in no entry of the task.
  lemma ApartQueue(l: Ledger, l': Ledger, n: nat, task: nat)
    requires KeepsApart(l, n, task) && l'.started == l.started && l'.answers == l.answers
    requires forall e :: e in l'.queue && e.task == task ==> e in l.queue
    ensures KeepsApart(l', n, task)
  {
    forall j: nat | NextStart(l', n, j, task)
      ensures WaitOver(l', n, l'.started[j].at)
    {
    }
  }

  // No client enqueued the task.
  ghost predicate NoneEnqueued(before: Ledger, after: Ledger, task: nat) {
    forall e :: e in after.enqueued && e.task == task ==> after.enqueued[e] <= before.enqueued[e]
  }

  lemma ApartStep(s: State, step: Step, s': State, n: nat, task: nat)
    requires Takes(s, step, s') && Inv(s) && Accounted(s) && KeepsApart(s.ledger, n, task)
    requires NoneEnqueued(s.ledger, s'.ledger, task)
    ensures KeepsApart(s'.ledger, n, task)
  {
    hide KeepsApart, LockInv, SleepInv, ThreadInv, StopInv, OverlapInv, LedgerInv, NoneEnqueued, TaskInv,
         DoWork, DoAct, CanWork, CanAct;
    match step
    case Work(move) => ApartWork(s, move, n, task);
    case Act(i, act) => ApartAct(s, i, act, n, task);
    case _ =>
  }

  lemma ApartWork(s: State, move: WorkerStep, n: nat, task: nat)
    requires CanWork(s, move) && PassInv(s) && Accounted(s) && KeepsApart(s.ledger, n, task)
    ensures KeepsApart(DoWork(s, move).ledger, n, task)
  {
    hide KeepsApart, Begin, Answered;
    match move
    case Decide =>
      if s.worker.top.time <= s.worker.pass {
        ApartBegin(s.ledger, s.worker.top, s.now, n, task);
      }
    case Store =>
      ApartAnswered(s.ledger, s.now, s.worker.wait, n, task);
    case _ =>
  }

  lemma ApartAct(s: State, i: nat, act: ClientStep, n: nat, task: nat)
    requires CanAct(s, i, act) && KeepsApart(s.ledger, n, task)
    requires NoneEnqueued(s.ledger, DoAct(s, i, act).ledger, task)
    ensures KeepsApart(DoAct(s, i, act).ledger, n, task)
  {
    if act.Enqueue? {
      hide KeepsApart;
      var l := s.ledger;
      if s.clients[i].entry.Some? {
        var e := s.clients[i].entry.value;
        assert Enqueued(l, Some(e)).enqueued[e] == l.enqueued[e] + 1;
        assert e.task != task;
      }
      ApartQueue(l, Enqueued(l, s.clients[i].entry), n, task);
    } else {
      ActDrops(s, i, act);
      hide KeepsApart, DoAct, CanAct;
      ApartQueue(s.ledger, DoAct(s, i, act).ledger, n, task);
    }
  }

  lemma EnqueuedStep(s: State, step: Step)
    requires Enabled(s, step)
    ensures s.ledger.enqueued <= Apply(s, step).ledger.enqueued
  {
    hide IsTop, Removes, SomeoneSleeps;
    match step
    case Act(i, act) =>
      if !act.Enqueue? {
        ActDrops(s, i, act);
      }
    case Work(move) =>
    case _ =>
  }

  lemma {:induction false} EnqueuedGrows(s: State, steps: seq<Step>, s': State)
    requires Run(s, steps, s')
    ensures s.ledger.enqueued <= s'.ledger.enqueued
    decreases |steps|
  {
    hide Enabled, Apply;
    if steps == [] {
    } else {
      EnqueuedStep(s, steps[0]);
      EnqueuedGrows(Apply(s, steps[0]), steps[1..], s');
    }
  }

  lemma {:induction false} ApartRun(s: State, steps: seq<Step>, s': State, n: nat, task: nat)
    requires Inv(s) && Accounted(s) && KeepsApart(s.ledger, n, task) && Run(s, steps, s')
    requires NoneEnqueued(s.ledger, s'.ledger, task)
    ensures KeepsApart(s'.ledger, n, task)
    decreases |steps|
  {
    hide Inv, Accounted, Enabled, Apply, KeepsApart;
    if steps == [] {
    } else {
      var s1 := Apply(s, steps[0]);
      EnqueuedStep(s, steps[0]);
      EnqueuedGrows(s1, steps[1..], s');
      ApartStep(s, steps[0], s1, n, task);
      InvStep(s, steps[0]);
      TaskStep(s, steps[0]);
      hide NoneEnqueued;
      ApartRun(s1, steps[1..], s', n, task);
    }
  }

  /** From a start of a task, with no other entry of it queued, over any run in which no client enqueues it: it is not
      started again before it has returned, asked for a wait, and so many milliseconds have passed since. */
  lemma StartsApart(s: State, steps: seq<Step>, s': State, j: nat)
    requires Reachable(s) && s.worker.Running? && Run(s, steps, s')
    requires forall e :: e in s.ledger.queue ==> e.task != s.worker.entry.task
    requires NoneEnqueued(s.ledger, s'.ledger, s.worker.entry.task)
    requires NextStart(s'.ledger, |s.ledger.started|, j, s.worker.entry.task)
    ensures var n := |s.ledger.started|;
      && 0 < n <= |s'.ledger.answers|
      && var (start, answer) := (s'.ledger.started[n - 1], s'.ledger.answers[n - 1]);
      && start.entry.task == s.worker.entry.task && answer.wait.Some? && start.at <= answer.at
      && s'.ledger.started[j].at >= answer.at + 1_000_000 * answer.wait.value
  {
    var n := |s.ledger.started|;
    ReachableAccounted(s);
    assert KeepsApart(s.ledger, n, s.worker.entry.task);
    TaskRun(s, steps, s');
    ApartRun(s, steps, s', n, s.worker.entry.task);
    hide Inv, Run, Requeued, NoneEnqueued;
  }

  // ---- what clients do to the queue ----

  /** enqueue adds the entry that validated, clear takes everything out, remove every entry of its task; nothing else a
      client does touches the queue. */
  lemma ClientEffect(s: State, i: nat, act: ClientStep, e: Entry)
    requires CanAct(s, i, act)
    ensures var before, after := s.ledger.queue, DoAct(s, i, act).ledger.queue;
      after[e] == match act
        case Enqueue => before[e] + (if s.clients[i].entry == Some(e) then 1 else 0)
        case Clear => 0
        case Remove(_) => if e.task == s.clients[i].task then 0 else before[e]
        case _ => before[e]
  {
    hide WakeUp, IsTop, Removes, Push;
    match act
    case Enqueue =>
      PushCounts(s.ledger, s.clients[i].entry, e);
      hide Enqueued;
    case Remove(rest) =>
      RemoveCounts(s.ledger.queue, s.clients[i].task, rest, e);
    case _ =>
  }

  lemma PushCounts(l: Ledger, entry: Option<Entry>, e: Entry)
    ensures Enqueued(l, entry).queue[e] == l.queue[e] + if entry == Some(e) then 1 else 0
  {
  }

  lemma RemoveCounts(queue: multiset<Entry>, task: nat, rest: multiset<Entry>, e: Entry)
    requires Removes(queue, task, rest)
    ensures rest[e] == if e.task == task then 0 else queue[e]
  {
    if e !in queue {
      assert e !in rest;
    }
  }

  // Nothing of the task is queued, and it is not running.
  ghost predicate Absent(s: State, task: nat) {
    NoneOf(s.ledger.queue, task) && (Busy(s.worker) ==> s.worker.entry.task != task)
  }

  predicate NoneOf(queue: multiset<Entry>, task: nat) {
    forall e :: e in queue ==> e.task != task
  }

  // Starts were added, none of the task.
  predicate OthersStarted(before: seq<Start>, after: seq<Start>, task: nat) {
    before <= after && forall j :: |before| <= j < |after| ==> after[j].entry.task != task
  }

  // What a worker step does to the ledger, and which entry is then busy.
  lemma WorkLedger(s: State, move: WorkerStep)
    requires CanWork(s, move)
    ensures DoWork(s, move).ledger ==
      if move.Decide? && s.worker.top.time <= s.worker.pass then Begin(s.ledger, s.worker.top, s.now)
      else if move.Store? then Answered(s.ledger, s.worker.entry.task, s.now, s.worker.wait)
      else s.ledger
    ensures var worker := DoWork(s, move).worker;
      Busy(worker) ==> if move.Decide? then worker.entry == s.worker.top && s.worker.top.time <= s.worker.pass
                       else Busy(s.worker) && worker.entry == s.worker.entry
  {
    hide IsTop, Answered, Begin;
  }

  lemma AbsentWork(s: State, move: WorkerStep, task: nat)
    requires CanWork(s, move) && PassInv(s) && Absent(s, task)
    ensures Absent(DoWork(s, move), task)
    ensures OthersStarted(s.ledger.started, DoWork(s, move).ledger.started, task)
  {
    WorkLedger(s, move);
    hide DoWork, Answered, Begin, NoneOf, OthersStarted, PassInv;
  }

  lemma AbsentAct(s: State, i: nat, act: ClientStep, task: nat)
    requires CanAct(s, i, act) && Absent(s, task)
    requires NoneEnqueued(s.ledger, DoAct(s, i, act).ledger, task)
    ensures Absent(DoAct(s, i, act), task) && DoAct(s, i, act).ledger.started == s.ledger.started
  {
    ActWorker(s, i, act);
    if act.Enqueue? {
      hide CanAct, WakeUp;
      var l := s.ledger;
      if s.clients[i].entry.Some? {
        var e := s.clients[i].entry.value;
        assert Enqueued(l, Some(e)).enqueued[e] == l.enqueued[e] + 1;
        assert e.task != task;
      }
    } else {
      ActDrops(s, i, act);
      hide DoAct, CanAct;
    }
  }

  lemma AbsentStep(s: State, step: Step, s': State, task: nat)
    requires Takes(s, step, s') && PassInv(s) && ThreadInv(s) && Absent(s, task)
    requires NoneEnqueued(s.ledger, s'.ledger, task)
    ensures Absent(s', task)
    ensures OthersStarted(s.ledger.started, s'.ledger.started, task)
  {
    hide PassInv, NoneEnqueued, DoWork, DoAct, CanWork, CanAct, NoneOf;
    match step
    case Work(move) => AbsentWork(s, move, task);
    case Act(i, act) => AbsentAct(s, i, act, task);
    case _ =>
  }

  lemma {:induction false} AbsentRun(s: State, steps: seq<Step>, s': State, task: nat, j: nat)
    requires Inv(s) && Absent(s, task) && Run(s, steps, s') && NoneEnqueued(s.ledger, s'.ledger, task)
    ensures Absent(s', task) && s.ledger.started <= s'.ledger.started
    ensures |s.ledger.started| <= j < |s'.ledger.started| ==> s'.ledger.started[j].entry.task != task
    decreases |steps|
  {
    hide LockInv, PassInv, SleepInv, ThreadInv, StopInv, OverlapInv, LedgerInv, Absent, Enabled, Apply;
    if steps == [] {
    } else {
      var s1 := Apply(s, steps[0]);
      EnqueuedStep(s, steps[0]);
      EnqueuedGrows(s1, steps[1..], s');
      AbsentStep(s, steps[0], s1, task);
      InvStep(s, steps[0]);
      hide NoneEnqueued, Inv;
      AbsentRun(s1, steps[1..], s', task, j);
    }
  }

  /** A task that was removed while it was not running, or gone with everything that was cleared, is neither queued nor
      started again in any run in which no client enqueues it. */
  lemma RemovedStaysAway(s: State, i: nat, act: ClientStep, s1: State, steps: seq<Step>, s': State, task: nat, j: nat)
    requires Reachable(s) && Takes(s, Act(i, act), s1) && Run(s1, steps, s')
    requires act.Clear? || (act.Remove? && At(s, i, Removing(task)))
    requires Busy(s.worker) ==> s.worker.entry.task != task
    requires NoneEnqueued(s1.ledger, s'.ledger, task)
    ensures forall e :: e in s'.ledger.queue ==> e.task != task
    ensures |s.ledger.started| <= j < |s'.ledger.started| ==> s'.ledger.started[j].entry.task != task
  {
    ReachableInv(s);
    InvStep(s, Act(i, act));
    hide Inv, Run, NoneEnqueued;
    forall e | e in s1.ledger.queue
      ensures e.task != task
    {
      ClientEffect(s, i, act, e);
    }
    ActWorker(s, i, act);
    ActDrops(s, i, act);
    AbsentRun(s1, steps, s', task, j);
  }
}
