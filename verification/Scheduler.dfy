/** The controller thread, its clients and start/stop as a transition system: one lock, one
    condition variable with deadline sleeps, tasks run outside the lock. A critical section of a
    client is one step, taken while the lock is free; the worker and a joining stop hold the
    lock over several steps. */
module Scheduler {
  import opened Results

  // A queued task and the time it is due, in nanoseconds.
  datatype Entry = Entry(time: int, task: nat)

  const MILLISECOND := 1_000_000

  datatype Start = Start(entry: Entry, at: int)

  // What a task asked for when it returned, and the clock reading that followed.
  datatype Answer = Answer(wait: Option<nat>, at: int)

  // The queue, and the history of what was put into it, started, and dropped from it; of what clients put into it;
  // and of what the tasks started asked for.
  datatype Ledger = Ledger(
    queue: multiset<Entry>,
    pushed: multiset<Entry>,
    started: seq<Start>,
    dropped: multiset<Entry>,
    enqueued: multiset<Entry>,
    answers: seq<Answer>)

  datatype Owner = Free | Worker | Stopper(client: nat)

  datatype Pc =
    | Unborn
    | Starting                                          // wants the lock
    | Entering                                          // holds it, about to process tasks
    | Deciding(pass: int, top: Entry)                   // holds it
    | Running(pass: int, entry: Entry)                  // runs the task outside the lock
    | Returned(pass: int, entry: Entry, wait: Option<nat>)  // wants the lock
    | Stored(pass: int)                                 // holds it, after rescheduling
    | LoopHead                                          // holds it
    | Asleep(deadline: Option<int>)                     // waits on the condition variable
    | Awake                                             // wants the lock back
    | Leaving                                           // holds it, run has returned
    | Gone

  datatype Client =
    | Enqueuing(entry: Option<Entry>)                   // None: the task does not validate
    | Clearing
    | Removing(task: nat)
    | Stopping
    | OwesNotify(stop: bool)
    | StopChecking
    | StopSleeping
    | StopJoining                                       // holds the lock
    | Stopped
    | StopTimedOut

  datatype Starter = NotCalled | StartSleeping | StartReturned | StartTimedOut

  datatype State = State(
    now: int,
    owner: Owner,
    ledger: Ledger,
    keepRunning: bool,
    threadExists: bool,
    threadStarted: bool,
    worker: Pc,
    starter: Starter,
    clients: map<nat, Client>,
    crashed: bool,              // a stop has joined through a null pointer
    // history
    joins: nat,
    overlapped: bool)           // a stop passed its check while another one slept

  datatype WorkerStep =
    | Born
    | Enter(top: Entry)
    | Decide
    | Return(wait: Option<nat>)
    | Store
    | Next(top: Entry)
    | Loop(top: Entry)
    | Timeout
    | Spurious
    | Reacquire
    | Leave

  datatype ClientStep =
    | Call(call: Client)
    | Enqueue
    | Clear
    | Remove(rest: multiset<Entry>)
    | ClearRunning
    | Notify

  datatype StopStep = CheckStop | WakeStop | Join

  datatype Step =
    | Tick(time: int)
    | CallStart
    | FinishStart
    | Work(move: WorkerStep)
    | Act(client: nat, act: ClientStep)
    | Stop(client: nat, stage: StopStep)

  predicate Init(s: State) {
    && s.owner == Free && s.ledger == Ledger(multiset{}, multiset{}, [], multiset{}, multiset{}, [])
    && !s.keepRunning && !s.threadExists && !s.threadStarted
    && s.worker == Unborn && s.starter == NotCalled && s.clients == map[] && !s.crashed
    && s.joins == 0 && !s.overlapped
  }

  // The entry a priority queue has on top: one with the least time.
  predicate IsTop(queue: multiset<Entry>, top: Entry) {
    top in queue && forall e :: e in queue ==> top.time <= e.time
  }

  lemma HasTop(queue: multiset<Entry>) returns (top: Entry)
    ensures queue != multiset{} ==> IsTop(queue, top)
    decreases |queue|
  {
    top :| queue != multiset{} ==> top in queue;
    if queue != multiset{} {
      var rest := queue - multiset{top};
      assert queue == rest + multiset{top};
      var other := HasTop(rest);
      if rest != multiset{} && other.time < top.time {
        top := other;
      }
    }
  }

  predicate At(s: State, client: nat, pc: Client) {
    client in s.clients && s.clients[client] == pc
  }

  ghost predicate CanWork(s: State, move: WorkerStep) {
    match move
    case Born => s.worker == Starting && s.owner == Free
    case Enter(top) => s.worker == Entering && (s.ledger.queue != multiset{} ==> IsTop(s.ledger.queue, top))
    case Decide => s.worker.Deciding?
    case Return(wait) => s.worker.Running?
    case Store => s.worker.Returned? && s.owner == Free
    case Next(top) => s.worker.Stored? && (s.ledger.queue != multiset{} ==> IsTop(s.ledger.queue, top))
    case Loop(top) => s.worker == LoopHead && (s.ledger.queue != multiset{} ==> IsTop(s.ledger.queue, top))
    case Timeout => s.worker.Asleep? && s.worker.deadline.Some? && s.worker.deadline.value <= s.now
    case Spurious => s.worker.Asleep?
    case Reacquire => s.worker == Awake && s.owner == Free
    case Leave => s.worker == Leaving
  }

  // Entries of the named task, all of them, leave the queue.
  ghost predicate Removes(queue: multiset<Entry>, task: nat, rest: multiset<Entry>) {
    && rest <= queue
    && forall e :: e in queue ==> rest[e] == if e.task == task then 0 else queue[e]
  }

  ghost predicate CanAct(s: State, i: nat, act: ClientStep) {
    match act
    case Call(call) =>
      && i !in s.clients
      && (call.Enqueuing? || call.Clearing? || call.Removing? || call.Stopping?)
      && (call.Stopping? ==> s.starter == StartReturned || s.starter == StartTimedOut)
    case Enqueue => i in s.clients && s.clients[i].Enqueuing? && s.owner == Free
    case Clear => At(s, i, Clearing) && s.owner == Free
    case Remove(rest) =>
      i in s.clients && s.clients[i].Removing? && s.owner == Free && Removes(s.ledger.queue, s.clients[i].task, rest)
    case ClearRunning => At(s, i, Stopping) && s.owner == Free
    case Notify => i in s.clients && s.clients[i].OwesNotify?
  }

  predicate CanStop(s: State, i: nat, stage: StopStep) {
    match stage
    case CheckStop => At(s, i, StopChecking) && s.owner == Free
    case WakeStop => At(s, i, StopSleeping) && s.owner == Free
    case Join => At(s, i, StopJoining) && s.worker == Gone
  }

  ghost predicate Enabled(s: State, step: Step) {
    && !s.crashed
    && match step
       case Tick(time) => time >= s.now
       case CallStart => s.starter == NotCalled && s.owner == Free
       case FinishStart => s.starter == StartSleeping && s.owner == Free
       case Work(move) => CanWork(s, move)
       case Act(i, act) => CanAct(s, i, act)
       case Stop(i, stage) => CanStop(s, i, stage)
  }

  function Move(s: State, client: nat, pc: Client): State {
    s.(clients := s.clients[client := pc])
  }

  function Done(s: State, client: nat): State {
    s.(clients := s.clients - {client})
  }

  function With(q: multiset<Entry>, e: Entry): multiset<Entry> { q + multiset{e} }

  function Without(q: multiset<Entry>, rest: multiset<Entry>): multiset<Entry> { q - rest }

  function Push(l: Ledger, e: Entry): Ledger {
    l.(queue := With(l.queue, e), pushed := With(l.pushed, e))
  }

  // The entry a finished task asks for: None when it is not to run again.
  function Reschedule(task: nat, now: int, wait: Option<nat>): Option<Entry> {
    match wait
    case None => None
    case Some(milliseconds) => Some(Entry(now + milliseconds * MILLISECOND, task))
  }

  function Offer(l: Ledger, entry: Option<Entry>): Ledger {
    match entry
    case None => l
    case Some(e) => Push(l, e)
  }

  function Enqueued(l: Ledger, entry: Option<Entry>): Ledger {
    match entry
    case None => l
    case Some(e) => Push(l, e).(enqueued := With(l.enqueued, e))
  }

  function Answered(l: Ledger, task: nat, now: int, wait: Option<nat>): Ledger {
    Offer(l, Reschedule(task, now, wait)).(answers := l.answers + [Answer(wait, now)])
  }

  function Drop(l: Ledger, rest: multiset<Entry>): Ledger {
    l.(queue := rest, dropped := l.dropped + Without(l.queue, rest))
  }

  function Begin(l: Ledger, top: Entry, now: int): Ledger {
    l.(queue := Without(l.queue, multiset{top}), started := l.started + [Start(top, now)])
  }

  function WakeUp(pc: Pc): Pc {
    if pc.Asleep? then Awake else pc
  }

  ghost predicate SomeoneSleeps(s: State) {
    exists j :: j in s.clients && s.clients[j] == StopSleeping
  }

  ghost function DoWork(s: State, move: WorkerStep): State
    requires CanWork(s, move)
  {
    match move
    case Born => s.(owner := Worker, threadStarted := true, worker := Entering)
    case Enter(top) => s.(worker := if s.ledger.queue == multiset{} then LoopHead else Deciding(s.now, top))
    case Decide =>
      var top := s.worker.top;
      if top.time <= s.worker.pass then
        s.(ledger := Begin(s.ledger, top, s.now), owner := Free, worker := Running(s.worker.pass, top))
      else s.(worker := LoopHead)
    case Return(wait) => s.(worker := Returned(s.worker.pass, s.worker.entry, wait))
    case Store =>
      s.(ledger := Answered(s.ledger, s.worker.entry.task, s.now, s.worker.wait),
         owner := Worker, worker := Stored(s.worker.pass))
    case Next(top) => s.(worker := if s.ledger.queue == multiset{} then LoopHead else Deciding(s.worker.pass, top))
    case Loop(top) =>
      if !s.keepRunning then s.(worker := Leaving, threadStarted := false)
      else s.(owner := Free, worker := Asleep(if s.ledger.queue == multiset{} then None else Some(top.time)))
    case Timeout => s.(worker := Awake)
    case Spurious => s.(worker := Awake)
    case Reacquire => s.(owner := Worker, worker := Entering)
    case Leave => s.(owner := Free, worker := Gone)
  }

  ghost function DoAct(s: State, i: nat, act: ClientStep): State
    requires CanAct(s, i, act)
  {
    match act
    case Call(call) => Move(s, i, call)
    case Enqueue => Move(s.(ledger := Enqueued(s.ledger, s.clients[i].entry)), i, OwesNotify(false))
    case Clear => Done(s.(ledger := Drop(s.ledger, multiset{})), i)
    case Remove(rest) => Done(s.(ledger := Drop(s.ledger, rest)), i)
    case ClearRunning => Move(s.(keepRunning := false), i, OwesNotify(true))
    case Notify =>
      var s1 := s.(worker := WakeUp(s.worker));
      if s.clients[i].stop then Move(s1, i, StopChecking) else Done(s1, i)
  }

  // The end of stop, after the notification.
  ghost function DoStop(s: State, i: nat, stage: StopStep): State
    requires CanStop(s, i, stage)
  {
    match stage
    case CheckStop =>
      if !s.threadExists then Move(s, i, Stopped)
      else Move(s, i, if s.threadStarted then StopSleeping else StopJoining).(
             owner := if s.threadStarted then Free else Stopper(i),
             overlapped := s.overlapped || SomeoneSleeps(s))
    // the wait does not look at the thread pointer again
    case WakeStop =>
      if s.threadStarted then Move(s, i, StopTimedOut)
      else if !s.threadExists then s.(crashed := true)
      else Move(s, i, StopJoining).(owner := Stopper(i))
    case Join => Move(s.(threadExists := false, owner := Free, joins := s.joins + 1), i, Stopped)
  }

  ghost function Apply(s: State, step: Step): State
    requires Enabled(s, step)
  {
    match step
    case Tick(time) => s.(now := time)
    case CallStart => s.(keepRunning := true, threadExists := true, worker := Starting, starter := StartSleeping)
    case FinishStart => s.(starter := if s.threadStarted then StartReturned else StartTimedOut)
    case Work(move) => DoWork(s, move)
    case Act(i, act) => DoAct(s, i, act)
    case Stop(i, stage) => DoStop(s, i, stage)
  }

  // The step can be taken, and leads there.
  ghost predicate Takes(s: State, step: Step, s': State) {
    Enabled(s, step) && s' == Apply(s, step)
  }

  ghost predicate Run(s: State, steps: seq<Step>, s': State)
    decreases steps
  {
    if steps == [] then s' == s
    else Enabled(s, steps[0]) && Run(Apply(s, steps[0]), steps[1..], s')
  }

  ghost predicate Reachable(s: State) {
    exists s0: State, steps: seq<Step> :: Init(s0) && Run(s0, steps, s)
  }

  // ---- what every step keeps ----

  predicate HoldsLock(pc: Pc) {
    pc == Entering || pc.Deciding? || pc.Stored? || pc == LoopHead || pc == Leaving
  }

  ghost predicate LockInv(s: State) {
    && (s.owner == Worker <==> HoldsLock(s.worker))
    && Joiner(s.owner, s.clients)
  }

  ghost predicate Joiner(owner: Owner, clients: map<nat, Client>) {
    forall i: nat :: owner == Stopper(i) <==> i in clients && clients[i] == StopJoining
  }

  // The clock reading of a pass is not in the future, and the entry it looks at is on top.
  ghost predicate PassInv(s: State) {
    && (s.worker.Deciding? ==> IsTop(s.ledger.queue, s.worker.top) && s.worker.pass <= s.now)
    && (s.worker.Running? || s.worker.Returned? || s.worker.Stored? ==> s.worker.pass <= s.now)
  }

  // Some thread changed the state and has still to notify.
  ghost predicate NotifyOwed(s: State) {
    exists i :: i in s.clients && s.clients[i].OwesNotify?
  }

  // Nothing the worker should have been woken for.
  ghost predicate RightlyAsleep(s: State, deadline: Option<int>) {
    && s.keepRunning
    && match deadline
       case None => s.ledger.queue == multiset{}
       case Some(t) => forall e :: e in s.ledger.queue ==> t <= e.time
  }

  ghost predicate SleepInv(s: State) {
    s.worker.Asleep? ==> NotifyOwed(s) || RightlyAsleep(s, s.worker.deadline)
  }

  predicate Alive(pc: Pc) {
    pc != Unborn && pc != Starting && pc != Leaving && pc != Gone
  }

  predicate ThreadInv(s: State) {
    && (s.threadStarted <==> Alive(s.worker))
    && (s.starter == NotCalled <==> s.worker == Unborn)
    && (s.starter == StartReturned ==> s.worker != Starting)
    && (s.worker == Unborn ==> !s.threadExists)
    && (s.threadExists || s.worker == Unborn || s.worker == Gone)
    && s.joins == (if s.threadExists || s.worker == Unborn then 0 else 1)
    && (s.worker == Leaving || s.worker == Gone ==> !s.keepRunning)
    && (s.starter == StartSleeping ==> s.worker != Leaving && s.worker != Gone && s.keepRunning)
  }

  predicate InStop(pc: Client) {
    pc == Stopping || pc == OwesNotify(true) || pc == StopChecking || pc == StopSleeping || pc == StopJoining
  }

  predicate StopOk(pc: Client, starter: Starter, keepRunning: bool, threadExists: bool, worker: Pc) {
    && (InStop(pc) ==> starter == StartReturned || starter == StartTimedOut)
    && (InStop(pc) && pc != Stopping ==> !keepRunning)
    && (pc == StopSleeping ==> worker != Starting && worker != Unborn)
    && (pc == StopJoining ==> threadExists && (worker == Starting || worker == Gone))
    && (pc == Stopped ==> !threadExists && worker == Gone)
  }

  predicate StopInv(s: State) {
    StopsOk(s.clients, s.starter, s.keepRunning, s.threadExists, s.worker)
  }

  predicate StopsOk(clients: map<nat, Client>, starter: Starter, keepRunning: bool, threadExists: bool, worker: Pc) {
    forall i :: i in clients ==> StopOk(clients[i], starter, keepRunning, threadExists, worker)
  }

  // Without overlapping stops, a stop that waits is alone and the thread object is there for it.
  ghost predicate OverlapInv(s: State) {
    !s.overlapped ==> !s.crashed && Alone(s.clients, s.threadExists)
  }

  ghost predicate Alone(clients: map<nat, Client>, threadExists: bool) {
    forall i :: i in clients && clients[i] == StopSleeping ==>
      threadExists && forall j :: j in clients && j != i ==> clients[j] != StopSleeping && clients[j] != StopJoining
  }

  function Entries(started: seq<Start>): multiset<Entry> {
    if started == [] then multiset{}
    else Entries(started[..|started| - 1]) + multiset{started[|started| - 1].entry}
  }

  // Nothing is lost or duplicated: what was pushed is queued, has been started, or was dropped.
  predicate Balanced(l: Ledger) {
    l.pushed == l.queue + Entries(l.started) + l.dropped
  }

  predicate NotEarly(started: seq<Start>, now: int) {
    forall i :: 0 <= i < |started| ==> started[i].entry.time <= started[i].at <= now
  }

  predicate LedgerInv(s: State) {
    Balanced(s.ledger) && NotEarly(s.ledger.started, s.now)
  }

  ghost predicate Inv(s: State) {
    LockInv(s) && PassInv(s) && SleepInv(s) && ThreadInv(s) && StopInv(s) && OverlapInv(s) && LedgerInv(s)
  }

  // ---- client steps before a stop reaches its check ----

  // Such a step leaves the lock and the thread alone, and cannot make its client a waiting stop.
  predicate Outside(pc: Client) {
    pc != StopSleeping && pc != StopJoining && pc != Stopped
  }

  lemma ActFrame(s: State, i: nat, act: ClientStep)
    requires CanAct(s, i, act)
    ensures var s' := DoAct(s, i, act);
      s' == s.(ledger := s'.ledger, keepRunning := s'.keepRunning, worker := s'.worker, clients := s'.clients)
  {
    hide IsTop, Removes, Enqueued, Drop;
  }

  lemma ActWorker(s: State, i: nat, act: ClientStep)
    requires CanAct(s, i, act)
    ensures var s' := DoAct(s, i, act); s'.worker == s.worker || (s.worker.Asleep? && s'.worker == Awake)
  {
    hide IsTop, Removes, Enqueued, Drop, At;
  }

  lemma ActQueue(s: State, i: nat, act: ClientStep)
    requires CanAct(s, i, act) && s.owner != Free
    ensures DoAct(s, i, act).ledger == s.ledger
  {
    hide IsTop, Removes, Enqueued, Drop, At, WakeUp;
  }

  lemma ActKeepRunning(s: State, i: nat, act: ClientStep)
    requires CanAct(s, i, act)
    ensures var s' := DoAct(s, i, act);
      && (s'.keepRunning ==> s.keepRunning)
      && (s'.keepRunning == s.keepRunning || (i in s.clients && InStop(s.clients[i])))
      && (i in s'.clients && InStop(s'.clients[i]) && s'.clients[i] != Stopping ==>
            !s'.keepRunning || (i in s.clients && InStop(s.clients[i]) && s.clients[i] != Stopping))
  {
    hide IsTop, Removes, Enqueued, Drop, WakeUp;
  }

  lemma ActOwn(s: State, i: nat, act: ClientStep)
    requires CanAct(s, i, act)
    ensures var s' := DoAct(s, i, act);
      && (i in s.clients ==> Outside(s.clients[i])) && (i in s'.clients ==> Outside(s'.clients[i]))
      && (i in s'.clients && InStop(s'.clients[i]) ==>
            s.starter == StartReturned || s.starter == StartTimedOut || (i in s.clients && InStop(s.clients[i])))
  {
    hide IsTop, Removes, Enqueued, Drop, WakeUp;
  }

  lemma ActOthers(s: State, i: nat, act: ClientStep)
    requires CanAct(s, i, act)
    ensures var s' := DoAct(s, i, act);
      forall j :: j != i ==>
        (j in s'.clients <==> j in s.clients) && (j in s.clients ==> s'.clients[j] == s.clients[j])
  {
    hide IsTop, Removes, Enqueued, Drop, WakeUp, At;
  }

  lemma ActClients(s: State, i: nat, act: ClientStep)
    requires CanAct(s, i, act)
    ensures var s' := DoAct(s, i, act);
      && (i in s.clients ==> Outside(s.clients[i])) && (i in s'.clients ==> Outside(s'.clients[i]))
      && (i in s'.clients && InStop(s'.clients[i]) ==>
            s.starter == StartReturned || s.starter == StartTimedOut || (i in s.clients && InStop(s.clients[i])))
      && forall j :: j != i ==>
           (j in s'.clients <==> j in s.clients) && (j in s.clients ==> s'.clients[j] == s.clients[j])
  {
    hide *;
    ActOwn(s, i, act);
    ActOthers(s, i, act);
  }

  lemma LockAct(s: State, i: nat, act: ClientStep)
    requires CanAct(s, i, act) && LockInv(s)
    ensures LockInv(DoAct(s, i, act))
  {
    ActWorker(s, i, act);
    ActFrame(s, i, act);
    ActClients(s, i, act);
    hide DoAct, CanAct;
  }

  lemma PassAct(s: State, i: nat, act: ClientStep)
    requires CanAct(s, i, act) && LockInv(s) && PassInv(s)
    ensures PassInv(DoAct(s, i, act))
  {
    if s.owner != Free {
      ActQueue(s, i, act);
    }
    ActWorker(s, i, act);
    ActFrame(s, i, act);
    hide DoAct, CanAct, IsTop;
  }

  lemma ThreadAct(s: State, i: nat, act: ClientStep)
    requires CanAct(s, i, act) && ThreadInv(s) && StopInv(s)
    ensures ThreadInv(DoAct(s, i, act))
  {
    ActKeepRunning(s, i, act);
    ActWorker(s, i, act);
    ActFrame(s, i, act);
    ActClients(s, i, act);
    hide DoAct, CanAct;
  }

  lemma StopAct(s: State, i: nat, act: ClientStep)
    requires CanAct(s, i, act) && StopInv(s)
    ensures StopInv(DoAct(s, i, act))
  {
    ActKeepRunning(s, i, act);
    ActWorker(s, i, act);
    ActFrame(s, i, act);
    ActClients(s, i, act);
    hide DoAct, CanAct;
  }

  lemma AloneFrame(before: map<nat, Client>, after: map<nat, Client>, i: nat, threadExists: bool)
    requires i in before ==> Outside(before[i])
    requires i in after ==> Outside(after[i])
    requires forall j :: j != i && j in after ==> j in before && after[j] == before[j]
    ensures Alone(before, threadExists) ==> Alone(after, threadExists)
  {
  }

  lemma OverlapAct(s: State, i: nat, act: ClientStep)
    requires CanAct(s, i, act) && OverlapInv(s)
    ensures OverlapInv(DoAct(s, i, act))
  {
    ActFrame(s, i, act);
    ActClients(s, i, act);
    hide DoAct, CanAct, Alone;
    AloneFrame(s.clients, DoAct(s, i, act).clients, i, s.threadExists);
  }

  lemma SleepAct(s: State, i: nat, act: ClientStep)
    requires CanAct(s, i, act) && SleepInv(s)
    ensures SleepInv(DoAct(s, i, act))
  {
    hide IsTop, Enqueued, Answered, Begin;
    var s' := DoAct(s, i, act);
    ActClients(s, i, act);
    if s.worker.Asleep? && NotifyOwed(s) && !act.Notify? {
      var j :| j in s.clients && s.clients[j].OwesNotify?;
      assert j in s'.clients && s'.clients[j].OwesNotify?;
    } else if act.Enqueue? || act.ClearRunning? {
      assert i in s'.clients && s'.clients[i].OwesNotify?;
    }
  }

  lemma EntriesSnoc(started: seq<Start>, x: Start)
    ensures Entries(started + [x]) == With(Entries(started), x.entry)
  {
    assert (started + [x])[..|started|] == started;
  }

  lemma Drops(l: Ledger, rest: multiset<Entry>)
    requires Balanced(l) && rest <= l.queue
    ensures Balanced(Drop(l, rest))
  {
    assert l.queue == rest + (l.queue - rest);
  }

  lemma Pushes(l: Ledger, entry: Option<Entry>)
    requires Balanced(l)
    ensures Balanced(Offer(l, entry)) && Balanced(Enqueued(l, entry))
  {
    hide Entries;
  }

  lemma Answers(l: Ledger, task: nat, now: int, wait: Option<nat>)
    requires Balanced(l)
    ensures Balanced(Answered(l, task, now, wait))
  {
    Pushes(l, Reschedule(task, now, wait));
    hide Entries, Reschedule, Offer, Enqueued;
  }

  lemma Begins(l: Ledger, top: Entry, now: int)
    requires Balanced(l) && top in l.queue
    ensures Balanced(Begin(l, top, now))
  {
    EntriesSnoc(l.started, Start(top, now));
    hide Entries;
    assert l.queue == (l.queue - multiset{top}) + multiset{top};
  }

  lemma LedgerAct(s: State, i: nat, act: ClientStep)
    requires CanAct(s, i, act) && LedgerInv(s)
    ensures LedgerInv(DoAct(s, i, act))
  {
    hide Balanced, NotEarly, With, Without;
    match act
    case Enqueue => Pushes(s.ledger, s.clients[i].entry);
    case Clear => Drops(s.ledger, multiset{});
    case Remove(rest) => Drops(s.ledger, rest);
    case _ =>
  }

  // ---- worker steps ----

  lemma LockWork(s: State, move: WorkerStep)
    requires CanWork(s, move) && LockInv(s)
    ensures LockInv(DoWork(s, move))
  {
    hide IsTop, Enqueued, Answered, Begin;
  }

  lemma PassWork(s: State, move: WorkerStep)
    requires CanWork(s, move) && PassInv(s)
    ensures PassInv(DoWork(s, move))
  {
    hide IsTop, Enqueued, Answered, Begin;
  }

  lemma SleepWork(s: State, move: WorkerStep)
    requires CanWork(s, move) && SleepInv(s)
    ensures SleepInv(DoWork(s, move))
  {
  }

  lemma ThreadWork(s: State, move: WorkerStep)
    requires CanWork(s, move) && ThreadInv(s)
    ensures ThreadInv(DoWork(s, move))
  {
    hide IsTop, Enqueued, Answered, Begin;
  }

  lemma StopWork(s: State, move: WorkerStep)
    requires CanWork(s, move) && LockInv(s) && ThreadInv(s) && StopInv(s)
    ensures StopInv(DoWork(s, move))
  {
    hide IsTop, Enqueued, Answered, Begin;
    var s' := DoWork(s, move);
    forall j | j in s'.clients
      ensures StopOk(s'.clients[j], s'.starter, s'.keepRunning, s'.threadExists, s'.worker)
    {
      assert s.owner == Stopper(j) <==> s.clients[j] == StopJoining;
    }
  }

  lemma LedgerWork(s: State, move: WorkerStep)
    requires CanWork(s, move) && PassInv(s) && LedgerInv(s)
    ensures LedgerInv(DoWork(s, move))
  {
    hide Balanced, With, Without;
    match move
    case Decide => Begins(s.ledger, s.worker.top, s.now);
    case Store => Answers(s.ledger, s.worker.entry.task, s.now, s.worker.wait);
    case _ =>
  }

  // ---- the end of stop ----

  lemma StopStage(s: State, i: nat, stage: StopStep)
    requires CanStop(s, i, stage) && LockInv(s) && ThreadInv(s) && StopInv(s)
    ensures LockInv(DoStop(s, i, stage)) && ThreadInv(DoStop(s, i, stage))
  {
    hide SomeoneSleeps;
  }

  lemma StopOkStage(s: State, i: nat, stage: StopStep)
    requires CanStop(s, i, stage) && LockInv(s) && ThreadInv(s) && StopInv(s)
    ensures StopInv(DoStop(s, i, stage))
  {
    hide SomeoneSleeps;
  }

  lemma OverlapStage(s: State, i: nat, stage: StopStep)
    requires CanStop(s, i, stage) && LockInv(s) && OverlapInv(s)
    ensures OverlapInv(DoStop(s, i, stage))
  {
  }

  lemma SleepStage(s: State, i: nat, stage: StopStep)
    requires CanStop(s, i, stage) && LockInv(s) && SleepInv(s) && PassInv(s) && LedgerInv(s)
    ensures SleepInv(DoStop(s, i, stage)) && PassInv(DoStop(s, i, stage)) && LedgerInv(DoStop(s, i, stage))
  {
    hide SomeoneSleeps, Balanced, NotEarly, IsTop;
    var s' := DoStop(s, i, stage);
    if NotifyOwed(s) {
      var j :| j in s.clients && s.clients[j].OwesNotify?;
      assert j in s'.clients && s'.clients[j].OwesNotify?;
    }
  }
}
