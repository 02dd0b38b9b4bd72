/** The task queue: a heap in a vector, and the removal of a task that erases from it without restoring the heap. */
module TaskQueue {
  import opened Scheduler

  // The entries of other tasks, in their order.
  function Others(c: seq<Entry>, task: nat): seq<Entry> {
    if c == [] then []
    else if c[0].task == task then Others(c[1..], task)
    else [c[0]] + Others(c[1..], task)
  }

  // The order std::push_heap and std::pop_heap keep: no entry is later than its two children.
  predicate IsHeap(c: seq<Entry>) {
    forall i, k :: 0 <= i < k < |c| && i == (k - 1) / 2 ==> c[i].time <= c[k].time
  }

  class TaskQueue {
    var c: seq<Entry>

    constructor (entries: seq<Entry>)
      ensures c == entries
    {
      c := entries;
    }

    method Remove(task: nat) returns (removed: bool)
      modifies this
      ensures c == Others(old(c), task)
      ensures removed <==> Mentions(old(c), task)
    {
      hide Others, Mentions;
      removed := false;
      var i := 0;
      assert c[..0] == [] && c[0..] == c;
      while i < |c|
        invariant 0 <= i <= |c|
        invariant Others(old(c), task) == c[..i] + Others(c[i..], task)
        invariant removed || Mentions(c[i..], task) <==> Mentions(old(c), task)
        decreases |c| - i
      {
        ghost var rest := c[i..];
        OthersStep(rest, task);
        assert rest[1..] == c[i + 1..];
        if c[i].task == task {
          c := c[..i] + c[i + 1..];
          assert c[i..] == rest[1..];
          removed := true;
        } else {
          assert c[..i + 1] == c[..i] + [c[i]];
          i := i + 1;
        }
      }
      OthersNone(task);
      assert c[i..] == [] && c[..i] == c && c + [] == c;
    }
  }

  predicate Mentions(c: seq<Entry>, task: nat) {
    exists e :: e in c && e.task == task
  }

  lemma OthersNone(task: nat)
    ensures Others([], task) == [] && !Mentions([], task)
  {
  }

  lemma OthersStep(c: seq<Entry>, task: nat)
    requires c != []
    ensures Others(c, task) == (if c[0].task == task then [] else [c[0]]) + Others(c[1..], task)
    ensures Mentions(c, task) <==> c[0].task == task || Mentions(c[1..], task)
  {
    assert c == [c[0]] + c[1..];
  }

  /** Removing a task takes exactly its entries out of the queue. */
  lemma {:induction false} OthersRemoves(c: seq<Entry>, task: nat)
    ensures forall e :: multiset(Others(c, task))[e] == if e.task == task then 0 else multiset(c)[e]
    ensures Removes(multiset(c), task, multiset(Others(c, task)))
  {
    if c == [] {
    } else {
      OthersRemoves(c[1..], task);
      assert c == [c[0]] + c[1..];
    }
  }

  // ---- what a removal does to the order of the heap ----

  // Position a is position b or one of its ancestors.
  predicate Above(a: nat, b: nat) {
    a == b || (b > 0 && Above(a, (b - 1) / 2))
  }

  function Tasks(c: seq<Entry>): (tasks: seq<nat>)
    ensures |tasks| == |c| && forall i :: 0 <= i < |c| ==> tasks[i] == c[i].task
  {
    seq(|c|, i requires 0 <= i < |c| => c[i].task)
  }

  // The positions, in order, that a removal leaves in the queue.
  function Kept(tasks: seq<nat>, task: nat, from: nat): (kept: seq<nat>)
    requires from <= |tasks|
    ensures forall k :: 0 <= k < |kept| ==> from <= kept[k] < |tasks|
    decreases |tasks| - from
  {
    if from == |tasks| then []
    else (if tasks[from] == task then [] else [from]) + Kept(tasks, task, from + 1)
  }

  // Every kept position moves under a position that was above it before.
  predicate StaysNested(kept: seq<nat>) {
    forall i, k :: 0 <= i < k < |kept| && i == (k - 1) / 2 ==> Above(kept[i], kept[k])
  }

  // The first kept position was above all the others.
  predicate FirstAboveAll(kept: seq<nat>) {
    forall k :: 0 <= k < |kept| ==> Above(kept[0], kept[k])
  }

  predicate FrontIsTop(c: seq<Entry>) {
    c != [] ==> IsTop(multiset(c), c[0])
  }

  lemma {:induction false} OthersAre(c: seq<Entry>, task: nat, from: nat)
    requires from <= |c|
    ensures var kept := Kept(Tasks(c), task, from);
      && |Others(c[from..], task)| == |kept|
      && forall k :: 0 <= k < |kept| ==> Others(c[from..], task)[k] == c[kept[k]]
    decreases |c| - from
  {
    var tasks := Tasks(c);
    hide Tasks;
    if from == |c| {
      assert c[from..] == [];
    } else {
      OthersAre(c, task, from + 1);
      OthersStep(c[from..], task);
      assert c[from..][1..] == c[from + 1..];
      hide Others;
    }
  }

  lemma {:induction false} HeapOrders(c: seq<Entry>, a: nat, b: nat)
    requires IsHeap(c) && b < |c| && Above(a, b)
    ensures a <= b && c[a].time <= c[b].time
    decreases b
  {
    if a == b {
    } else {
      HeapOrders(c, a, (b - 1) / 2);
    }
  }

  // A heap that is late exactly at and under position a.
  function LateUnder(tasks: seq<nat>, a: nat): (c: seq<Entry>)
    ensures Tasks(c) == tasks
    ensures forall i :: 0 <= i < |c| ==> c[i].time == if Above(a, i) then 1 else 0
  {
    var c := seq(|tasks|, i requires 0 <= i < |tasks| => Entry(if Above(a, i) then 1 else 0, tasks[i]));
    assert Tasks(c) == tasks;
    c
  }

  lemma LateUnderIsHeap(tasks: seq<nat>, a: nat)
    ensures IsHeap(LateUnder(tasks, a))
  {
    var c := LateUnder(tasks, a);
    forall i, k | 0 <= i < k < |c| && i == (k - 1) / 2
      ensures c[i].time <= c[k].time
    {
      assert Above(a, i) ==> Above(a, k);
    }
  }

  /** A removal leaves a heap whatever the times exactly when each kept entry moves under one that was above it. */
  lemma RemoveKeepsHeapIff(tasks: seq<nat>, task: nat)
    ensures (forall c :: Tasks(c) == tasks && IsHeap(c) ==> IsHeap(Others(c, task)))
       <==> StaysNested(Kept(tasks, task, 0))
  {
    var kept := Kept(tasks, task, 0);
    if StaysNested(kept) {
      forall c | Tasks(c) == tasks && IsHeap(c)
        ensures IsHeap(Others(c, task))
      {
        NestedKeepsHeap(c, task);
      }
    } else {
      var i, k :| 0 <= i < k < |kept| && i == (k - 1) / 2 && !Above(kept[i], kept[k]);
      var c := LateUnder(tasks, kept[i]);
      LateUnderIsHeap(tasks, kept[i]);
      OthersAre(c, task, 0);
      assert c[0..] == c;
      assert Others(c, task)[i].time == 1 && Others(c, task)[k].time == 0;
      assert !IsHeap(Others(c, task));
    }
  }

  lemma NestedKeepsHeap(c: seq<Entry>, task: nat)
    requires IsHeap(c) && StaysNested(Kept(Tasks(c), task, 0))
    ensures IsHeap(Others(c, task))
  {
    var kept, rest := Kept(Tasks(c), task, 0), Others(c, task);
    OthersAre(c, task, 0);
    assert c[0..] == c;
    forall i, k | 0 <= i < k < |rest| && i == (k - 1) / 2
      ensures rest[i].time <= rest[k].time
    {
      HeapOrders(c, kept[i], kept[k]);
    }
  }

  /** A removal leaves the earliest entry in front whatever the times exactly when the first kept position was above
      all the others: so whenever the front entry is kept, but not only then. */
  lemma RemoveKeepsFrontIff(tasks: seq<nat>, task: nat)
    ensures (forall c :: Tasks(c) == tasks && IsHeap(c) ==> FrontIsTop(Others(c, task)))
       <==> FirstAboveAll(Kept(tasks, task, 0))
    ensures tasks != [] && tasks[0] != task ==> FirstAboveAll(Kept(tasks, task, 0))
  {
    hide Others, Kept, IsHeap, LateUnder;
    var kept := Kept(tasks, task, 0);
    if FirstAboveAll(kept) {
      forall c | Tasks(c) == tasks && IsHeap(c)
        ensures FrontIsTop(Others(c, task))
      {
        AboveAllKeepsFront(c, task);
      }
    } else {
      var k :| 0 <= k < |kept| && !Above(kept[0], kept[k]);
      var c := LateUnder(tasks, kept[0]);
      LateUnderIsHeap(tasks, kept[0]);
      OthersAre(c, task, 0);
      assert c[0..] == c;
      assert Others(c, task)[k] in multiset(Others(c, task));
      assert !FrontIsTop(Others(c, task));
    }
    if tasks != [] && tasks[0] != task {
      RootIsKept(tasks, task);
    }
  }

  lemma RootIsKept(tasks: seq<nat>, task: nat)
    requires tasks != [] && tasks[0] != task
    ensures FirstAboveAll(Kept(tasks, task, 0))
  {
    var kept := Kept(tasks, task, 0);
    assert kept[0] == 0;
    forall k | 0 <= k < |kept|
      ensures Above(0, kept[k])
    {
      RootAbove(kept[k]);
    }
  }

  /** In particular the entry in front is still the next to run after a removal that does not remove it ... */
  lemma RemoveKeepsTop(c: seq<Entry>, task: nat)
    requires IsHeap(c) && c != [] && c[0].task != task
    ensures Others(c, task) != [] && Others(c, task)[0] == c[0]
    ensures IsTop(multiset(Others(c, task)), Others(c, task)[0])
  {
    RootIsKept(Tasks(c), task);
    AboveAllKeepsFront(c, task);
  }

  /** ... removing it can leave a later entry in front of an earlier one ... */
  lemma RemoveCanBreakTop()
    ensures var c := [Entry(1, 0), Entry(5, 1), Entry(2, 2)];
      IsHeap(c) && !FrontIsTop(Others(c, 0))
  {
    var c := [Entry(1, 0), Entry(5, 1), Entry(2, 2)];
    assert c[1..] == [Entry(5, 1), Entry(2, 2)] && c[1..][1..] == [Entry(2, 2)];
    assert Others(c, 0) == [Entry(5, 1), Entry(2, 2)];
    assert Entry(2, 2) in multiset([Entry(5, 1), Entry(2, 2)]);
  }

  /** ... and keeping it does not keep the order behind it: here the entry for 10 comes to stand above that for 4,
      which std::pop_heap is then given. */
  lemma RemoveCanBreakHeap()
    ensures var c := [Entry(1, 0), Entry(2, 1), Entry(10, 2), Entry(20, 3), Entry(4, 4), Entry(50, 5), Entry(60, 6)];
      IsHeap(c) && FrontIsTop(Others(c, 1)) && !IsHeap(Others(c, 1))
  {
    var tail := [Entry(10, 2), Entry(20, 3), Entry(4, 4), Entry(50, 5), Entry(60, 6)];
    var c := [Entry(1, 0), Entry(2, 1), Entry(10, 2), Entry(20, 3), Entry(4, 4), Entry(50, 5), Entry(60, 6)];
    assert c == [Entry(1, 0), Entry(2, 1)] + tail;
    SevenAreHeap(c);
    hide IsHeap, FrontIsTop;
    SecondRemoved(Entry(1, 0), Entry(2, 1), tail, 1);
    RemoveKeepsTop(c, 1);
    var rest := Others(c, 1);
    assert rest[1] == tail[0] && rest[3] == tail[2];
    NotHeap(rest);
  }

  lemma NotHeap(c: seq<Entry>)
    requires |c| > 3 && c[1].time > c[3].time
    ensures !IsHeap(c)
  {
    assert 1 == (3 - 1) / 2;
  }

  lemma SevenAreHeap(c: seq<Entry>)
    requires |c| == 7 && c[0].time <= c[1].time && c[0].time <= c[2].time
    requires c[1].time <= c[3].time && c[1].time <= c[4].time && c[2].time <= c[5].time && c[2].time <= c[6].time
    ensures IsHeap(c)
  {
    forall i, k | 0 <= i < k < |c| && i == (k - 1) / 2
      ensures c[i].time <= c[k].time
    {
      assert (k == 1 && i == 0) || (k == 2 && i == 0) || (k == 3 && i == 1) || (k == 4 && i == 1)
          || (k == 5 && i == 2) || (k == 6 && i == 2);
    }
  }

  lemma SecondRemoved(first: Entry, second: Entry, tail: seq<Entry>, task: nat)
    requires first.task != task && second.task == task && forall i :: 0 <= i < |tail| ==> tail[i].task != task
    ensures Others([first, second] + tail, task) == [first] + tail
  {
    var c := [first, second] + tail;
    assert c[1..] == [second] + tail && c[1..][1..] == tail;
    NoneRemoved(tail, task);
  }

  lemma {:induction false} NoneRemoved(c: seq<Entry>, task: nat)
    requires forall i :: 0 <= i < |c| ==> c[i].task != task
    ensures Others(c, task) == c
    decreases c
  {
    if c == [] {
    } else {
      NoneRemoved(c[1..], task);
    }
  }

  lemma {:induction false} RootAbove(b: nat)
    ensures Above(0, b)
  {
    if b == 0 {
    } else {
      RootAbove((b - 1) / 2);
    }
  }

  lemma AboveAllKeepsFront(c: seq<Entry>, task: nat)
    requires IsHeap(c) && FirstAboveAll(Kept(Tasks(c), task, 0))
    ensures FrontIsTop(Others(c, task))
  {
    var kept, rest := Kept(Tasks(c), task, 0), Others(c, task);
    OthersAre(c, task, 0);
    assert c[0..] == c;
    forall e | e in multiset(rest)
      ensures rest[0].time <= e.time
    {
      var k :| 0 <= k < |rest| && rest[k] == e;
      HeapOrders(c, kept[0], kept[k]);
    }
  }
}
