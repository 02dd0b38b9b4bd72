/** One pass of the controller over its queue, with nobody else taking the lock: which entries it runs and in what
    order, what the tasks it runs ask for, what it leaves in the queue, and when it ends at all. */
module ControllerThread {
  import opened Results
  import opened Scheduler

  // The entries due at the given time, and the others.
  ghost function Due(queue: multiset<Entry>, now: int): multiset<Entry>
    decreases |queue|
  {
    if queue == multiset{} then multiset{}
    else
      var e :| e in queue;
      Due(queue - multiset{e}, now) + if e.time <= now then multiset{e} else multiset{}
  }

  ghost function Later(queue: multiset<Entry>, now: int): multiset<Entry> {
    queue - Due(queue, now)
  }

  lemma {:induction false} DueCounts(queue: multiset<Entry>, now: int)
    ensures forall e :: Due(queue, now)[e] == if e.time <= now then queue[e] else 0
    ensures forall e :: Later(queue, now)[e] == if e.time <= now then 0 else queue[e]
    decreases |queue|
  {
    if queue == multiset{} {
    } else {
      var e :| e in queue && Due(queue, now) ==
        Due(queue - multiset{e}, now) + if e.time <= now then multiset{e} else multiset{};
      var rest := queue - multiset{e};
      var first := if e.time <= now then multiset{e} else multiset{};
      DueCounts(rest, now);
      hide Due;
      forall x
        ensures Due(queue, now)[x] == if x.time <= now then queue[x] else 0
      {
        assert Due(queue, now)[x] == Due(rest, now)[x] + first[x];
        assert queue[x] == rest[x] + if x == e then 1 else 0;
      }
    }
  }

  predicate Sorted(ran: seq<Entry>) {
    forall i, j :: 0 <= i < j < |ran| ==> ran[i].time <= ran[j].time
  }

  function Bag(entry: Option<Entry>): multiset<Entry> {
    match entry
    case None => multiset{}
    case Some(e) => multiset{e}
  }

  // ---- a pass ----

  // The readings of the clock, and what the tasks of a pass return: the k-th task to run leaves outcome(k), and the
  // clock is then read for the (k + 1)-th time.
  datatype World = World(clock: nat -> int, outcome: nat -> Option<nat>) {
    function Again(task: Entry, k: nat): Option<Entry> {
      Reschedule(task.task, clock(k + 1), outcome(k))
    }

    // What the k-th task to run asks for is due only after the pass began.
    predicate AgainLater(k: nat) {
      outcome(k).Some? ==> clock(k + 1) + outcome(k).value * MILLISECOND > clock(0)
    }
  }

  function After(queue: multiset<Entry>, task: Entry, again: Option<Entry>): multiset<Entry> {
    queue - multiset{task} + Bag(again)
  }

  // From `queue`, when k tasks have run, a pass runs the tasks `ran` and then has `left`.
  ghost predicate Runs(w: World, queue: multiset<Entry>, k: nat, ran: seq<Entry>, left: multiset<Entry>)
    decreases |ran|
  {
    if ran == [] then left == queue
    else
      && IsTop(queue, ran[0]) && ran[0].time <= w.clock(0)
      && Runs(w, After(queue, ran[0], w.Again(ran[0], k)), k + 1, ran[1..], left)
  }

  // The pass ends there: nothing is left, or nothing that is due.
  predicate Ended(w: World, left: multiset<Entry>) {
    left == multiset{} || exists top :: top in left && IsTop(left, top) && top.time > w.clock(0)
  }

  function Rescheduled(w: World, k: nat, ran: seq<Entry>): multiset<Entry>
    decreases |ran|
  {
    if ran == [] then multiset{} else Bag(w.Again(ran[0], k)) + Rescheduled(w, k + 1, ran[1..])
  }

  predicate AllLater(w: World, k: nat, n: nat) {
    forall i :: k <= i < k + n ==> w.AgainLater(i)
  }

  lemma AfterCounts(queue: multiset<Entry>, task: Entry, again: Option<Entry>, now: int)
    requires task in queue && task.time <= now
    ensures Due(After(queue, task, again), now) + multiset{task}
         == Due(queue, now) + if again.Some? && again.value.time <= now then Bag(again) else multiset{}
    ensures Later(After(queue, task, again), now)
         == Later(queue, now) + if again.Some? && again.value.time <= now then multiset{} else Bag(again)
  {
    hide Due, Later;
    DueCounts(queue, now);
    DueCounts(After(queue, task, again), now);
    var rest := After(queue, task, again);
    var due := if again.Some? && again.value.time <= now then Bag(again) else multiset{};
    var later := if again.Some? && again.value.time <= now then multiset{} else Bag(again);
    forall e
      ensures (Due(rest, now) + multiset{task})[e] == (Due(queue, now) + due)[e]
      ensures Later(rest, now)[e] == (Later(queue, now) + later)[e]
    {
      assert rest[e] == queue[e] - (if e == task then 1 else 0) + (if again == Some(e) then 1 else 0);
    }
  }

  lemma AgainTime(w: World, task: Entry, k: nat)
    ensures w.AgainLater(k) <==> w.Again(task, k).Some? ==> w.Again(task, k).value.time > w.clock(0)
  {
  }

  lemma AllLaterSplit(w: World, k: nat, n: nat)
    requires n > 0
    ensures AllLater(w, k, n) <==> w.AgainLater(k) && AllLater(w, k + 1, n - 1)
  {
    if w.AgainLater(k) && AllLater(w, k + 1, n - 1) {
      forall i | k <= i < k + n
        ensures w.AgainLater(i)
      {
      }
    }
  }

  // A pass that runs n tasks uses up the due entries it began with and those it made due again.
  lemma {:induction false} RunsCount(w: World, queue: multiset<Entry>, k: nat, ran: seq<Entry>, left: multiset<Entry>)
    requires Runs(w, queue, k, ran, left)
    ensures |ran| + |Due(left, w.clock(0))| >= |Due(queue, w.clock(0))|
    ensures |ran| + |Due(left, w.clock(0))| == |Due(queue, w.clock(0))| <==> AllLater(w, k, |ran|)
    decreases |ran|
  {
    hide Due, After, IsTop;
    if ran == [] {
    } else {
      var now, again := w.clock(0), w.Again(ran[0], k);
      var rest := After(queue, ran[0], again);
      TopIn(queue, ran[0]);
      AfterCounts(queue, ran[0], again, now);
      AgainTime(w, ran[0], k);
      AllLaterSplit(w, k, |ran|);
      hide AllLater;
      RunsCount(w, rest, k + 1, ran[1..], left);
      DueSizes(Due(rest, now), Due(queue, now), ran[0], again, now);
    }
  }

  lemma TopIn(queue: multiset<Entry>, task: Entry)
    requires IsTop(queue, task)
    ensures task in queue
  {
  }

  lemma DueSizes(after: multiset<Entry>, before: multiset<Entry>, task: Entry, again: Option<Entry>, now: int)
    requires after + multiset{task}
          == before + if again.Some? && again.value.time <= now then Bag(again) else multiset{}
    ensures |after| + 1 == |before| + if again.Some? && again.value.time <= now then 1 else 0
  {
    assert |after + multiset{task}| == |after| + 1;
    if again.Some? && again.value.time <= now {
      assert |before + multiset{again.value}| == |before| + 1;
    } else {
      assert before + multiset{} == before;
    }
  }

  // If nothing becomes due again, what ran are due entries of the start; the rest is as it was, or rescheduled.
  lemma {:induction false} RunsDue(w: World, queue: multiset<Entry>, k: nat, ran: seq<Entry>, left: multiset<Entry>)
    requires Runs(w, queue, k, ran, left) && AllLater(w, k, |ran|)
    ensures Due(queue, w.clock(0)) == Due(left, w.clock(0)) + multiset(ran)
    ensures Later(left, w.clock(0)) == Later(queue, w.clock(0)) + Rescheduled(w, k, ran)
    decreases |ran|
  {
    hide *;
    if ran == [] {
      RanNothing(w, queue, k, left);
    } else {
      var now, again := w.clock(0), w.Again(ran[0], k);
      var rest := After(queue, ran[0], again);
      RunsStep(w, queue, k, ran, left);
      AfterCounts(queue, ran[0], again, now);
      AgainTime(w, ran[0], k);
      AllLaterSplit(w, k, |ran|);
      RunsDue(w, rest, k + 1, ran[1..], left);
      RanCons(ran);
      Joined(Due(rest, now), multiset{ran[0]}, Due(left, now), multiset(ran[1..]));
      assert Later(queue, now) + Bag(again) + Rescheduled(w, k + 1, ran[1..])
          == Later(queue, now) + (Bag(again) + Rescheduled(w, k + 1, ran[1..]));
    }
  }

  lemma RanNothing(w: World, queue: multiset<Entry>, k: nat, left: multiset<Entry>)
    requires Runs(w, queue, k, [], left)
    ensures left == queue && Rescheduled(w, k, []) == multiset{}
    ensures Due(queue, w.clock(0)) == Due(left, w.clock(0)) + multiset{}
    ensures Later(left, w.clock(0)) == Later(queue, w.clock(0)) + multiset{}
  {
    hide Due, Later;
  }

  lemma RunsStep(w: World, queue: multiset<Entry>, k: nat, ran: seq<Entry>, left: multiset<Entry>)
    requires Runs(w, queue, k, ran, left) && ran != []
    ensures ran[0] in queue && ran[0].time <= w.clock(0)
    ensures Runs(w, After(queue, ran[0], w.Again(ran[0], k)), k + 1, ran[1..], left)
    ensures Rescheduled(w, k, ran) == Bag(w.Again(ran[0], k)) + Rescheduled(w, k + 1, ran[1..])
  {
    hide After, Bag;
  }

  lemma Joined(rest: multiset<Entry>, first: multiset<Entry>, left: multiset<Entry>, ran: multiset<Entry>)
    ensures rest == left + ran ==> rest + first == left + (first + ran)
  {
  }

  lemma RanCons(ran: seq<Entry>)
    requires ran != []
    ensures multiset(ran) == multiset{ran[0]} + multiset(ran[1..])
  {
    assert ran == [ran[0]] + ran[1..];
  }

  lemma EndedMeans(w: World, left: multiset<Entry>)
    requires Ended(w, left)
    ensures Due(left, w.clock(0)) == multiset{} && Later(left, w.clock(0)) == left
  {
    hide Due, Later;
    DueCounts(left, w.clock(0));
  }

  /** A pass that ends has run exactly the entries due at its start, each as often as it was queued, if and only if
      every task it ran that asked to run again asked for a time after the pass began; otherwise it has run more. What
      is then left are the other entries and the rescheduled ones. */
  lemma PassRunsDueIff(w: World, start: multiset<Entry>, ran: seq<Entry>, left: multiset<Entry>)
    requires Runs(w, start, 0, ran, left) && Ended(w, left)
    ensures multiset(ran) == Due(start, w.clock(0)) <==> forall k :: 0 <= k < |ran| ==> w.AgainLater(k)
    ensures |ran| >= |Due(start, w.clock(0))|
    ensures |ran| == |Due(start, w.clock(0))| <==> forall k :: 0 <= k < |ran| ==> w.AgainLater(k)
    ensures (forall k :: 0 <= k < |ran| ==> w.AgainLater(k)) ==>
      left == Later(start, w.clock(0)) + Rescheduled(w, 0, ran)
  {
    hide Runs, Due, Later, Ended, Rescheduled;
    EndedMeans(w, left);
    RunsCount(w, start, 0, ran, left);
    assert |multiset(ran)| == |ran|;
    if AllLater(w, 0, |ran|) {
      RunsDue(w, start, 0, ran, left);
    }
  }

  // What the tasks of a pass are queued for again: the same task, so many milliseconds after the clock was read.
  function Asked(w: World, k: nat, ran: seq<Entry>): multiset<Entry>
    decreases |ran|
  {
    if ran == [] then multiset{}
    else
      var wait := w.outcome(k);
      (if wait.Some? then multiset{Entry(w.clock(k + 1) + 1_000_000 * wait.value, ran[0].task)} else multiset{})
      + Asked(w, k + 1, ran[1..])
  }

  // The i-th task run asked for this entry.
  predicate AskedBy(w: World, k: nat, ran: seq<Entry>, i: nat, e: Entry) {
    && i < |ran| && w.outcome(k + i).Some?
    && e == Entry(w.clock(k + i + 1) + 1_000_000 * w.outcome(k + i).value, ran[i].task)
  }

  lemma AskedStep(w: World, k: nat, ran: seq<Entry>)
    requires ran != []
    ensures Asked(w, k, ran) == Bag(w.Again(ran[0], k)) + Asked(w, k + 1, ran[1..])
  {
  }

  /** Over every pass, whatever the tasks return: what ran and what is left is what there was and what was asked for. */
  lemma {:induction false} PassKeepsEntries(w: World, queue: multiset<Entry>, k: nat, ran: seq<Entry>,
                                            left: multiset<Entry>)
    requires Runs(w, queue, k, ran, left)
    ensures left + multiset(ran) == queue + Asked(w, k, ran)
    decreases |ran|
  {
    hide Asked, After, IsTop;
    if ran == [] {
      NothingAsked(w, k);
    } else {
      TopIn(queue, ran[0]);
      AskedStep(w, k, ran);
      var rest := After(queue, ran[0], w.Again(ran[0], k));
      PassKeepsEntries(w, rest, k + 1, ran[1..], left);
      AfterBag(queue, ran[0], w.Again(ran[0], k));
      hide *;
      RanCons(ran);
      Regrouped(left, multiset(ran[1..]), rest, Asked(w, k + 1, ran[1..]), queue, Bag(w.Again(ran[0], k)),
                multiset{ran[0]});
    }
  }

  lemma Regrouped(left: multiset<Entry>, ran: multiset<Entry>, rest: multiset<Entry>, asked: multiset<Entry>,
                  queue: multiset<Entry>, again: multiset<Entry>, first: multiset<Entry>)
    requires left + ran == rest + asked && rest + first == queue + again
    ensures left + (first + ran) == queue + (again + asked)
  {
    assert left + (first + ran) == (left + ran) + first;
    assert (rest + asked) + first == (rest + first) + asked;
    assert (queue + again) + asked == queue + (again + asked);
  }

  lemma NothingAsked(w: World, k: nat)
    ensures Asked(w, k, []) == multiset{}
  {
  }

  lemma AfterBag(queue: multiset<Entry>, task: Entry, again: Option<Entry>)
    requires task in queue
    ensures After(queue, task, again) + multiset{task} == queue + Bag(again)
  {
  }

  /** An entry is asked for exactly when some task that ran asked for it: it has that task, and the time that many
      milliseconds after the reading of the clock that followed its run. */
  lemma {:induction false} AskedIff(w: World, k: nat, ran: seq<Entry>, e: Entry)
    ensures e in Asked(w, k, ran) <==> exists i: nat :: AskedBy(w, k, ran, i, e)
    decreases |ran|
  {
    if ran == [] {
    } else {
      AskedIff(w, k + 1, ran[1..], e);
      if e in Asked(w, k + 1, ran[1..]) {
        var i: nat :| AskedBy(w, k + 1, ran[1..], i, e);
        assert AskedBy(w, k, ran, i + 1, e);
      } else if e in Asked(w, k, ran) {
        assert AskedBy(w, k, ran, 0, e);
      }
      if i: nat :| AskedBy(w, k, ran, i, e) {
        if i == 0 {
        } else {
          assert AskedBy(w, k + 1, ran[1..], i - 1, e);
        }
      }
    }
  }

  ghost predicate Mentioned(queue: multiset<Entry>, task: nat) {
    exists e :: e in queue && e.task == task
  }

  /** A pass runs, and leaves in the queue, only tasks that were queued when it began. */
  lemma {:induction false} PassKeepsTasks(w: World, queue: multiset<Entry>, k: nat, ran: seq<Entry>,
                                          left: multiset<Entry>, e: Entry)
    requires Runs(w, queue, k, ran, left) && (e in left || e in ran)
    ensures Mentioned(queue, e.task)
    decreases |ran|
  {
    hide After, IsTop;
    if ran == [] {
    } else {
      TopIn(queue, ran[0]);
      assert ran == [ran[0]] + ran[1..];
      if e == ran[0] {
      } else {
        var rest := After(queue, ran[0], w.Again(ran[0], k));
        PassKeepsTasks(w, rest, k + 1, ran[1..], left, e);
        var x :| x in rest && x.task == e.task;
        SameTasks(queue, ran[0], w, k, x);
      }
    }
  }

  lemma SameTasks(queue: multiset<Entry>, task: Entry, w: World, k: nat, x: Entry)
    requires task in queue && x in After(queue, task, w.Again(task, k))
    ensures Mentioned(queue, x.task)
  {
    assert x in queue || x.task == task.task;
  }

  // No entry is due before t.
  predicate NotBefore(t: int, queue: multiset<Entry>) {
    forall e :: e in queue ==> t <= e.time
  }

  ghost predicate Forward(w: World) {
    forall i: nat :: w.clock(0) <= w.clock(i)
  }

  lemma AfterNotBefore(w: World, queue: multiset<Entry>, task: Entry, k: nat, t: int)
    requires Forward(w) && NotBefore(t, queue) && t <= w.clock(0)
    ensures NotBefore(t, After(queue, task, w.Again(task, k)))
  {
    assert w.clock(0) <= w.clock(k + 1);
    var again := w.Again(task, k);
    forall e | e in After(queue, task, again)
      ensures t <= e.time
    {
      assert e in queue || again == Some(e);
    }
  }

  lemma {:induction false} RunsNotBefore(w: World, queue: multiset<Entry>, k: nat, ran: seq<Entry>,
                                         left: multiset<Entry>, t: int)
    requires Runs(w, queue, k, ran, left) && Forward(w) && NotBefore(t, queue) && t <= w.clock(0)
    ensures forall i :: 0 <= i < |ran| ==> t <= ran[i].time
    decreases |ran|
  {
    hide After, Forward;
    if ran == [] {
    } else {
      AfterNotBefore(w, queue, ran[0], k, t);
      TopIn(queue, ran[0]);
      hide NotBefore, IsTop;
      RunsNotBefore(w, After(queue, ran[0], w.Again(ran[0], k)), k + 1, ran[1..], left, t);
    }
  }

  /** With a clock that does not go back every pass runs its tasks in the order of their times. */
  lemma {:induction false} PassIsSorted(w: World, queue: multiset<Entry>, k: nat, ran: seq<Entry>,
                                        left: multiset<Entry>)
    requires Runs(w, queue, k, ran, left) && Forward(w)
    ensures Sorted(ran)
    decreases |ran|
  {
    hide After, Forward;
    if ran == [] {
    } else {
      var rest := After(queue, ran[0], w.Again(ran[0], k));
      AfterNotBefore(w, queue, ran[0], k, ran[0].time);
      hide NotBefore, IsTop;
      RunsNotBefore(w, rest, k + 1, ran[1..], left, ran[0].time);
      PassIsSorted(w, rest, k + 1, ran[1..], left);
      SortedCons(ran);
    }
  }

  lemma SortedCons(ran: seq<Entry>)
    requires ran != [] && Sorted(ran[1..]) && forall i :: 0 <= i < |ran[1..]| ==> ran[0].time <= ran[1..][i].time
    ensures Sorted(ran)
  {
    forall i, j | 0 <= i < j < |ran|
      ensures ran[i].time <= ran[j].time
    {
      assert ran[j] == ran[1..][j - 1];
      if i > 0 {
        assert ran[i] == ran[1..][i - 1];
      }
    }
  }

  /** As long as nothing becomes due again a pass can run no more tasks than were due at its start, and having run
      that many it ends. */
  lemma PassEnds(w: World, start: multiset<Entry>, ran: seq<Entry>, left: multiset<Entry>)
    requires Runs(w, start, 0, ran, left) && AllLater(w, 0, |ran|)
    ensures |ran| <= |Due(start, w.clock(0))|
    ensures |ran| == |Due(start, w.clock(0))| ==> Ended(w, left)
  {
    hide Runs, AllLater, Due, IsTop;
    RunsCount(w, start, 0, ran, left);
    if |ran| == |Due(start, w.clock(0))| && left != multiset{} {
      var top := HasTop(left);
      TopIn(left, top);
      NothingDue(left, w.clock(0), top);
    }
  }

  lemma NothingDue(queue: multiset<Entry>, now: int, e: Entry)
    requires |Due(queue, now)| == 0 && e in queue
    ensures e.time > now
  {
    hide Due;
    DueCounts(queue, now);
    assert Due(queue, now) == multiset{};
  }

  /** Waits of at least 1 ms, and a clock that does not go back, are enough for all of this. */
  lemma MillisecondWaits(w: World, k: nat)
    requires Forward(w) && w.outcome(k) != Some(0)
    ensures w.AgainLater(k)
  {
    assert w.clock(0) <= w.clock(k + 1);
  }

  lemma {:induction false} RunsSnoc(w: World, queue: multiset<Entry>, k: nat, ran: seq<Entry>, left: multiset<Entry>,
                                    task: Entry)
    requires Runs(w, queue, k, ran, left) && IsTop(left, task) && task.time <= w.clock(0)
    ensures Runs(w, queue, k, ran + [task], After(left, task, w.Again(task, k + |ran|)))
    decreases |ran|
  {
    hide After, IsTop;
    var longer := ran + [task];
    if ran == [] {
      assert longer[1..] == [];
    } else {
      RunsSnoc(w, After(queue, ran[0], w.Again(ran[0], k)), k + 1, ran[1..], left, task);
      assert longer[1..] == ran[1..] + [task];
    }
  }

  lemma AfterIs(queue: multiset<Entry>, task: Entry, again: Option<Entry>)
    ensures again.None? ==> After(queue, task, again) == queue - multiset{task}
    ensures again.Some? ==> After(queue, task, again) == queue - multiset{task} + multiset{again.value}
  {
  }

  class ControllerThread {
    var queue: multiset<Entry>

    constructor ()
      ensures queue == multiset{}
    {
      queue := multiset{};
    }

    method EnqueueAt(entry: Entry, valid: bool)
      modifies this
      ensures queue == if valid then old(queue) + multiset{entry} else old(queue)
    {
      if valid {
        queue := queue + multiset{entry};
      }
    }

    method Clear()
      modifies this
      ensures queue == multiset{}
    {
      queue := multiset{};
    }

    /** A pass, followed until it ends or has run `limit` tasks. It ends within any limit that allows the tasks due at
        its start, if these do not ask to run again at once. */
    method ProcessTasks(w: World, limit: nat) returns (ran: seq<Entry>, ended: bool)
      modifies this
      ensures Runs(w, old(queue), 0, ran, queue)
      ensures ended <==> Ended(w, queue)
      ensures !ended ==> |ran| == limit
      ensures AllLater(w, 0, |ran|) && limit >= |Due(old(queue), w.clock(0))| ==> ended
    {
      hide Runs, After, Due, AllLater;
      ran := [];
      RunsNothing(w, queue);
      ended := queue == multiset{};
      if !ended {
        var now := w.clock(0);
        ghost var top := HasTop(queue);
        var task :| task in queue && IsTop(queue, task);
        TopDecides(w, queue, task);
        while task.time <= now && |ran| < limit && !ended
          invariant Runs(w, old(queue), 0, ran, queue) && |ran| <= limit
          invariant ended <==> queue == multiset{}
          invariant !ended ==> IsTop(queue, task) && (Ended(w, queue) <==> task.time > now)
          decreases limit - |ran|
        {
          var again := w.Again(task, |ran|);
          RunsSnoc(w, old(queue), 0, ran, queue, task);
          AfterIs(queue, task, again);
          queue := queue - multiset{task};
          ran := ran + [task];
          if again.Some? {
            queue := queue + multiset{again.value};
          }
          ended := queue == multiset{};
          if !ended {
            top := HasTop(queue);
            task :| task in queue && IsTop(queue, task);
            TopDecides(w, queue, task);
          }
        }
        ended := ended || task.time > now;
      }
      if AllLater(w, 0, |ran|) {
        PassEnds(w, old(queue), ran, queue);
      }
    }
  }

  lemma RunsNothing(w: World, queue: multiset<Entry>)
    ensures Runs(w, queue, 0, [], queue)
  {
  }

  lemma TopDecides(w: World, queue: multiset<Entry>, task: Entry)
    requires IsTop(queue, task)
    ensures queue != multiset{} && (Ended(w, queue) <==> task.time > w.clock(0))
  {
  }
}
