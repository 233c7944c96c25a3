// kernel/scheduler.c, kernel/scheduler-rr.c, kernel/scheduler-fifo.c and the wait lists of kernel/task.c.
module Scheduler {
  import opened Seqs

  const EINVAL: int := 22

  datatype Policy = Unset | Fifo | RoundRobin

  // struct task: the fields that decide where a task is listed
  datatype Task = Task(priority: int, running: bool, policy: Policy)

  // A run queue has one list of task ids for each priority.
  type Queues = seq<seq<nat>>

  datatype State = State(
    fifo: Queues,
    rr: Queues,
    waits: seq<seq<nat>>, // the wait lists, one for each condition
    tasks: map<nat, Task>,
    current: nat,
    idle: nat,
    needResched: bool)

  datatype Option<T> = None | Some(value: T)

  // ----- one policy's run queue -----

  // The loop of pick_task: the highest non-empty priority below n, or -1.
  function Top(q: Queues, n: nat): (p: int)
    requires n <= |q|
    ensures -1 <= p < n
  {
    if n == 0 then -1 else if q[n - 1] != [] then n - 1 else Top(q, n - 1)
  }

  lemma {:induction false} TopIsHighest(q: Queues, n: nat)
    requires n <= |q|
    ensures Top(q, n) >= 0 ==> q[Top(q, n)] != []
    ensures forall p | Top(q, n) < p < n :: q[p] == []
  {
    if n > 0 && q[n - 1] == [] {
      TopIsHighest(q, n - 1);
    }
  }

  // list_rotate_anticlockwise, i times
  function Rotate(s: seq<nat>, i: nat): seq<nat>
    requires i <= |s|
  {
    s[i..] + s[..i]
  }

  function RrPick(q: Queues): (r: (Queues, Option<nat>)) {
    var p := Top(q, |q|);
    TopIsHighest(q, |q|);
    if p < 0 then (q, None) else (q[p := Rotate(q[p], 1)], Some(Rotate(q[p], 1)[0]))
  }

  function FifoPick(q: Queues): Option<nat> {
    var p := Top(q, |q|);
    TopIsHighest(q, |q|);
    if p < 0 then None else Some(q[p][0])
  }

  // The queue after k picks.
  function AfterPicks(q: Queues, k: nat): Queues {
    if k == 0 then q else RrPick(AfterPicks(q, k - 1)).0
  }

  // What the k-th pick returns, counted from zero.
  function Picked(q: Queues, k: nat): Option<nat> {
    RrPick(AfterPicks(q, k)).1
  }

  function Wrap(k: nat, n: nat): (r: nat)
    requires n > 0
    ensures r < n
  {
    if k < n then k else Wrap(k - n, n)
  }

  lemma {:induction false} WrapNext(k: nat, n: nat)
    requires n > 0
    ensures Wrap(k + 1, n) == if Wrap(k, n) + 1 == n then 0 else Wrap(k, n) + 1
    decreases k
  {
    if k >= n {
      WrapNext(k - n, n);
    } else if k + 1 == n {
      assert Wrap(0, n) == 0;
    }
  }

  lemma RotateOnce(s: seq<nat>, i: nat)
    requires i < |s|
    ensures var j := if i + 1 == |s| then 0 else i + 1; Rotate(Rotate(s, i), 1) == Rotate(s, j) && Rotate(s, j)[0] == s[j]
  {
  }

  lemma {:induction false} SameTop(q: Queues, p: nat, s: seq<nat>, n: nat)
    requires p < |q| && q[p] != [] && s != [] && n <= |q|
    ensures Top(q[p := s], n) == Top(q, n)
  {
    if n > 0 {
      SameTop(q, p, s, n - 1);
    }
  }

  // ROUND ROBIN: while the queue is left alone, pick number k returns the one at position k + 1 of the
  // highest non-empty list, counted around, and no other list is touched.
  lemma {:induction false} PicksGoRound(q: Queues, p: nat, k: nat)
    requires p < |q| && Top(q, |q|) == p && q[p] != []
    ensures AfterPicks(q, k) == q[p := Rotate(q[p], Wrap(k, |q[p]|))]
    ensures Picked(q, k) == Some(q[p][Wrap(k + 1, |q[p]|)])
  {
    hide Rotate, Top, RrPick;
    var s := q[p];
    if k == 0 {
      NoRotation(q, p);
    } else {
      PicksGoRound(q, p, k - 1);
      WrapNext(k - 1, |s|);
      PickRotated(q, p, Wrap(k - 1, |s|));
    }
    WrapNext(k, |s|);
    PickRotated(q, p, Wrap(k, |s|));
  }

  lemma NoRotation(q: Queues, p: nat)
    requires p < |q| && q[p] != []
    ensures q[p := Rotate(q[p], Wrap(0, |q[p]|))] == q
  {
    assert Rotate(q[p], 0) == q[p];
  }

  // One pick from a queue whose highest list has been rotated.
  lemma PickRotated(q: Queues, p: nat, i: nat)
    requires p < |q| && Top(q, |q|) == p && q[p] != [] && i < |q[p]|
    ensures var j := if i + 1 == |q[p]| then 0 else i + 1;
            RrPick(q[p := Rotate(q[p], i)]) == (q[p := Rotate(q[p], j)], Some(q[p][j]))
  {
    hide Top;
    var s := q[p];
    RotateOnce(s, i);
    SameTop(q, p, Rotate(s, i), |q|);
    assert q[p := Rotate(s, i)][p := Rotate(Rotate(s, i), 1)] == q[p := Rotate(Rotate(s, i), 1)];
  }

  // EVERY TASK EXACTLY ONCE: n consecutive picks of n tasks return each of them, in queue order from the
  // second on, and leave the queue as it was.
  lemma RoundIsFair(q: Queues, p: nat)
    requires p < |q| && Top(q, |q|) == p && q[p] != []
    ensures AfterPicks(q, |q[p]|) == q
    ensures forall k | 0 <= k < |q[p]| :: Picked(q, k) == Some(Rotate(q[p], 1)[k])
    ensures forall x | x in q[p] :: exists k :: 0 <= k < |q[p]| && Picked(q, k) == Some(x)
    ensures NoDup(q[p]) ==> forall j, k | 0 <= j < k < |q[p]| :: Picked(q, j) != Picked(q, k)
  {
    var s := q[p];
    var n := |s|;
    PicksGoRound(q, p, n);
    assert Wrap(n, n) == Wrap(0, n) == 0 && Rotate(s, 0) == s && q[p := s] == q;
    forall k | 0 <= k < n
      ensures Picked(q, k) == Some(Rotate(s, 1)[k])
    {
      PicksGoRound(q, p, k);
      assert Wrap(k + 1, n) == if k + 1 == n then 0 else k + 1;
    }
    forall x | x in s
      ensures exists k :: 0 <= k < n && Picked(q, k) == Some(x)
    {
      var i :| 0 <= i < n && s[i] == x;
      var k := if i == 0 then n - 1 else i - 1;
      assert Picked(q, k) == Some(Rotate(s, 1)[k]);
    }
  }

  // ----- all the lists -----

  function Put(q: Queues, p: int, x: nat): Queues {
    if 0 <= p < |q| then q[p := q[p] + [x]] else q
  }

  function Drop(q: Queues, p: int, x: nat): Queues {
    if 0 <= p < |q| then q[p := Without<nat>(q[p], x)] else q
  }

  predicate In(q: seq<seq<nat>>, x: nat) {
    exists p :: 0 <= p < |q| && x in q[p]
  }

  // A queued task is runnable and stands once, in the list of its own policy and priority.
  ghost predicate Queued(q: Queues, tasks: map<nat, Task>, policy: Policy) {
    && (forall p | 0 <= p < |q| :: NoDup<nat>(q[p]))
    && forall p, x | 0 <= p < |q| && x in q[p] :: x in tasks && tasks[x] == Task(p, true, policy)
  }

  // A waiting task is not runnable and stands once, in one wait list.
  ghost predicate Waiting(waits: seq<seq<nat>>, tasks: map<nat, Task>) {
    && (forall c | 0 <= c < |waits| :: NoDup<nat>(waits[c]))
    && (forall c, x | 0 <= c < |waits| && x in waits[c] :: x in tasks && !tasks[x].running && tasks[x].policy != Unset)
    && forall c, d, x | 0 <= c < |waits| && 0 <= d < |waits| && x in waits[c] && x in waits[d] :: c == d
  }

  ghost predicate Placed(s: State) {
    && Queued(s.fifo, s.tasks, Fifo)
    && Queued(s.rr, s.tasks, RoundRobin)
    && Waiting(s.waits, s.tasks)
    && s.current in s.tasks && s.idle in s.tasks && s.tasks[s.idle].running
    && !In(s.fifo, s.idle) && !In(s.rr, s.idle)
  }

  predicate Unlinked(s: State, x: nat) {
    !In(s.fifo, x) && !In(s.rr, x) && !In(s.waits, x)
  }

  // sched_add_to_runqueue gives a task without a policy the round-robin one.
  function PolicyOf(t: Task): Policy {
    if t.policy == Unset then RoundRobin else t.policy
  }

  predicate InRange(s: State, t: Task) {
    0 <= t.priority < if PolicyOf(t) == Fifo then |s.fifo| else |s.rr|
  }

  function AddStep(s: State, x: nat): State
    requires x in s.tasks && s.current in s.tasks
  {
    var t := Task(s.tasks[x].priority, true, PolicyOf(s.tasks[x]));
    s.(tasks := s.tasks[x := t],
       fifo := if t.policy == Fifo then Put(s.fifo, t.priority, x) else s.fifo,
       rr := if t.policy == Fifo then s.rr else Put(s.rr, t.priority, x),
       needResched := s.needResched || (InRange(s, t) && t.priority > s.tasks[s.current].priority))
  }

  // THE DEFAULT POLICY: a task that was given none joins the end of its round-robin list, and keeps to that.
  lemma DefaultIsRoundRobin(s: State, x: nat)
    requires x in s.tasks && s.current in s.tasks && s.tasks[x].policy == Unset && 0 <= s.tasks[x].priority < |s.rr|
    ensures var p := s.tasks[x].priority; AddStep(s, x).rr == s.rr[p := s.rr[p] + [x]]
    ensures AddStep(s, x).fifo == s.fifo && AddStep(s, x).tasks[x].policy == RoundRobin
  {
  }

  function RemoveStep(s: State, x: nat): State
    requires x in s.tasks
  {
    var t := s.tasks[x];
    if t.policy == Unset then s
    else
      s.(tasks := s.tasks[x := t.(running := false)],
         fifo := if t.policy == Fifo then Drop(s.fifo, t.priority, x) else s.fifo,
         rr := if t.policy == Fifo then s.rr else Drop(s.rr, t.priority, x))
  }

  // task_add_to_wait_list
  function WaitStep(s: State, x: nat, c: nat): State
    requires x in s.tasks
  {
    var s' := RemoveStep(s, x);
    s'.(waits := Put(s'.waits, c, x))
  }

  // task_remove_from_wait_list
  function WakeStep(s: State, x: nat, c: nat): State
    requires x in s.tasks && s.current in s.tasks
  {
    AddStep(s.(waits := Drop(s.waits, c, x)), x)
  }

  // ----- every step keeps the tasks in their places -----

  lemma PutMembers(q: Queues, p: int, x: nat)
    ensures |Put(q, p, x)| == |q|
    ensures forall k, y: nat | 0 <= k < |q| :: y in Put(q, p, x)[k] <==> y in q[k] || (k == p && y == x)
  {
  }

  lemma DropMembers(q: Queues, p: int, x: nat)
    requires forall k | 0 <= k < |q| :: NoDup<nat>(q[k])
    ensures |Drop(q, p, x)| == |q| && forall k | 0 <= k < |q| :: NoDup<nat>(Drop(q, p, x)[k])
    ensures forall k, y: nat | 0 <= k < |q| :: y in Drop(q, p, x)[k] <==> y in q[k] && !(k == p && y == x)
  {
    if 0 <= p < |q| {
      WithoutMembers<nat>(q[p], x);
    }
  }

  lemma PutKeepsQueued(q: Queues, tasks: map<nat, Task>, policy: Policy, x: nat, t: Task)
    requires Queued(q, tasks, policy) && !In(q, x) && t == Task(t.priority, true, policy)
    ensures Queued(Put(q, t.priority, x), tasks[x := t], policy)
  {
    var p := t.priority;
    PutMembers(q, p, x);
    if 0 <= p < |q| {
      assert x !in q[p];
      NoDupAppend<nat>(q[p], x);
    }
    forall k | 0 <= k < |q| ensures x !in q[k] {}
  }

  lemma OthersKeepQueued(q: Queues, tasks: map<nat, Task>, policy: Policy, x: nat, t: Task)
    requires Queued(q, tasks, policy) && !In(q, x)
    ensures Queued(q, tasks[x := t], policy)
  {
    forall k | 0 <= k < |q| ensures x !in q[k] {}
  }

  lemma DropKeepsQueued(q: Queues, tasks: map<nat, Task>, policy: Policy, x: nat, p: int, t: Task)
    requires Queued(q, tasks, policy) && forall k | 0 <= k < |q| && x in q[k] :: k == p
    ensures Queued(Drop(q, p, x), tasks[x := t], policy) && !In(Drop(q, p, x), x)
  {
    DropMembers(q, p, x);
  }

  lemma OthersKeepWaiting(waits: seq<seq<nat>>, tasks: map<nat, Task>, x: nat, t: Task)
    requires Waiting(waits, tasks) && !In(waits, x)
    ensures Waiting(waits, tasks[x := t])
  {
    forall k | 0 <= k < |waits| ensures x !in waits[k] {}
  }

  lemma AddKeepsPlaced(s: State, x: nat)
    requires Placed(s) && x in s.tasks && x != s.idle && Unlinked(s, x)
    ensures Placed(AddStep(s, x))
  {
    var t := Task(s.tasks[x].priority, true, PolicyOf(s.tasks[x]));
    if t.policy == Fifo {
      PutKeepsQueued(s.fifo, s.tasks, Fifo, x, t);
      OthersKeepQueued(s.rr, s.tasks, RoundRobin, x, t);
    } else {
      PutKeepsQueued(s.rr, s.tasks, RoundRobin, x, t);
      OthersKeepQueued(s.fifo, s.tasks, Fifo, x, t);
    }
    OthersKeepWaiting(s.waits, s.tasks, x, t);
    PutMembers(s.fifo, t.priority, x);
    PutMembers(s.rr, t.priority, x);
  }

  lemma RemoveKeepsPlaced(s: State, x: nat)
    requires Placed(s) && x in s.tasks && x != s.idle && !In(s.waits, x)
    ensures Placed(RemoveStep(s, x)) && Unlinked(RemoveStep(s, x), x)
  {
    var t := s.tasks[x];
    var t' := t.(running := false);
    if t.policy == Fifo {
      DropKeepsQueued(s.fifo, s.tasks, Fifo, x, t.priority, t');
      OthersKeepQueued(s.rr, s.tasks, RoundRobin, x, t');
      DropMembers(s.fifo, t.priority, x);
    } else if t.policy == RoundRobin {
      DropKeepsQueued(s.rr, s.tasks, RoundRobin, x, t.priority, t');
      OthersKeepQueued(s.fifo, s.tasks, Fifo, x, t');
      DropMembers(s.rr, t.priority, x);
    }
    OthersKeepWaiting(s.waits, s.tasks, x, t');
  }

  lemma WaitKeepsPlaced(s: State, x: nat, c: nat)
    requires Placed(s) && x in s.tasks && x != s.idle && !In(s.waits, x) && s.tasks[x].policy != Unset && c < |s.waits|
    ensures Placed(WaitStep(s, x, c)) && x in WaitStep(s, x, c).waits[c]
    ensures !In(WaitStep(s, x, c).fifo, x) && !In(WaitStep(s, x, c).rr, x)
  {
    RemoveKeepsPlaced(s, x);
    PutMembers(s.waits, c, x);
    forall k | 0 <= k < |s.waits| ensures x !in s.waits[k] {}
    NoDupAppend<nat>(s.waits[c], x);
  }

  lemma WakeKeepsPlaced(s: State, x: nat, c: nat)
    requires Placed(s) && c < |s.waits| && x in s.waits[c] && x != s.idle
    ensures x in s.tasks && Placed(WakeStep(s, x, c)) && !In(WakeStep(s, x, c).waits, x)
  {
    DropMembers(s.waits, c, x);
    var m := s.(waits := Drop(s.waits, c, x));
    assert Waiting(m.waits, m.tasks);
    AddKeepsPlaced(m, x);
  }

  // ----- schedule() -----

  function Better(s: State, best: Option<nat>, x: Option<nat>): Option<nat>
    requires best.Some? ==> best.value in s.tasks
    requires x.Some? ==> x.value in s.tasks
  {
    if x.None? then best
    else if best.None? || s.tasks[x.value].priority > s.tasks[best.value].priority then x
    else best
  }

  // The first-in-first-out policy is asked first; both queues are asked, so that the round-robin one is
  // rotated even when its task is not chosen.
  ghost function ScheduleStep(s: State): State
    requires Placed(s)
  {
    PicksAreTasks(s);
    var picked := Better(s, FifoPick(s.fifo), RrPick(s.rr).1);
    s.(rr := RrPick(s.rr).0,
       current := if picked.Some? then picked.value else s.idle,
       needResched := false)
  }

  lemma PicksAreTasks(s: State)
    requires Placed(s)
    ensures FifoPick(s.fifo).Some? <==> Top(s.fifo, |s.fifo|) >= 0
    ensures RrPick(s.rr).1.Some? <==> Top(s.rr, |s.rr|) >= 0
    ensures FifoPick(s.fifo).Some? ==> Runs(s, s.fifo, FifoPick(s.fifo).value, Fifo)
    ensures RrPick(s.rr).1.Some? ==> Runs(s, s.rr, RrPick(s.rr).1.value, RoundRobin)
  {
    TopIsHighest(s.fifo, |s.fifo|);
    TopIsHighest(s.rr, |s.rr|);
    var f, r := Top(s.fifo, |s.fifo|), Top(s.rr, |s.rr|);
    if f >= 0 {
      assert s.fifo[f][0] in s.fifo[f];
    }
    if r >= 0 {
      var x := Rotate(s.rr[r], 1)[0];
      assert x == s.rr[r][if |s.rr[r]| == 1 then 0 else 1];
      assert x in s.rr[r];
    }
  }

  // The pick of a policy has the priority of its highest non-empty list.
  ghost predicate Runs(s: State, q: Queues, x: nat, policy: Policy) {
    && Top(q, |q|) >= 0 && x in q[Top(q, |q|)]
    && x in s.tasks && s.tasks[x] == Task(Top(q, |q|), true, policy)
  }

  lemma RotationKeepsQueued(q: Queues, tasks: map<nat, Task>)
    requires Queued(q, tasks, RoundRobin)
    ensures |RrPick(q).0| == |q| && Queued(RrPick(q).0, tasks, RoundRobin)
    ensures forall p, x: nat | 0 <= p < |q| :: x in RrPick(q).0[p] <==> x in q[p]
  {
    TopIsHighest(q, |q|);
    var p := Top(q, |q|);
    if p >= 0 {
      RotationMembers(q[p]);
    }
  }

  lemma RotationMembers(s: seq<nat>)
    requires s != []
    ensures forall x: nat :: x in Rotate(s, 1) <==> x in s
    ensures NoDup<nat>(s) ==> NoDup<nat>(Rotate(s, 1))
  {
    assert s == [s[0]] + s[1..];
    if NoDup<nat>(s) {
      NoDupAppend<nat>(s[1..], s[0]);
    }
  }

  lemma ScheduleKeepsPlaced(s: State)
    requires Placed(s)
    ensures Placed(ScheduleStep(s))
  {
    RotationKeepsQueued(s.rr, s.tasks);
    PicksAreTasks(s);
    forall p | 0 <= p < |s.rr| ensures s.idle !in RrPick(s.rr).0[p] {
      assert s.idle !in s.rr[p];
    }
  }

  // MAXIMUM PRIORITY: the chosen task is queued and no queued task of either policy has a higher
  // priority; at equal priority the first-in-first-out task is chosen; the idle task is chosen exactly if
  // every run queue is empty.
  lemma ScheduleChoosesMaximum(s: State)
    requires Placed(s)
    ensures ScheduleStep(s).current == s.idle <==> forall x :: !In(s.fifo, x) && !In(s.rr, x)
    ensures var c := ScheduleStep(s).current; c in s.tasks && s.tasks[c].running
    ensures var c := ScheduleStep(s).current; c != s.idle ==> In(s.fifo, c) || In(s.rr, c)
    ensures forall x: nat :: In(s.fifo, x) ==> x in s.tasks && s.tasks[x].priority <= s.tasks[ScheduleStep(s).current].priority
    ensures forall x: nat :: In(s.rr, x) ==> x in s.tasks && s.tasks[x].priority <= s.tasks[ScheduleStep(s).current].priority
    ensures forall x: nat :: In(s.fifo, x) && s.tasks[x].priority == s.tasks[ScheduleStep(s).current].priority ==>
                               In(s.fifo, ScheduleStep(s).current)
  {
    PicksAreTasks(s);
    var f, r, c := Top(s.fifo, |s.fifo|), Top(s.rr, |s.rr|), ScheduleStep(s).current;
    HighestPriority(s, s.fifo, Fifo);
    HighestPriority(s, s.rr, RoundRobin);
    if f >= 0 {
      assert In(s.fifo, FifoPick(s.fifo).value);
    }
    if r >= 0 {
      assert In(s.rr, RrPick(s.rr).1.value);
    }
  }

  lemma AtMostTop(q: Queues, p: nat)
    requires p < |q| && q[p] != []
    ensures p <= Top(q, |q|)
  {
    TopIsHighest(q, |q|);
  }

  lemma HighestPriority(s: State, q: Queues, policy: Policy)
    requires Queued(q, s.tasks, policy)
    ensures forall x: nat :: In(q, x) ==> x in s.tasks && s.tasks[x].priority <= Top(q, |q|)
  {
    hide Top, NoDup;
    forall x: nat | In(q, x)
      ensures x in s.tasks && s.tasks[x].priority <= Top(q, |q|)
    {
      var p :| 0 <= p < |q| && x in q[p];
      AtMostTop(q, p);
    }
  }

  // A task that becomes runnable with a higher priority than all queued tasks is the next to run.
  lemma NewHighestRuns(s: State, x: nat)
    requires Placed(s) && x in s.tasks && x != s.idle && Unlinked(s, x) && InRange(s, s.tasks[x])
    requires forall y: nat :: In(s.fifo, y) || In(s.rr, y) ==> y in s.tasks && s.tasks[y].priority < s.tasks[x].priority
    ensures Placed(AddStep(s, x)) && ScheduleStep(AddStep(s, x)).current == x
  {
    AddKeepsPlaced(s, x);
    var s' := AddStep(s, x);
    ScheduleChoosesMaximum(s');
    var p := s.tasks[x].priority;
    PutMembers(s.fifo, p, x);
    PutMembers(s.rr, p, x);
    var c := s'.current;
    if PolicyOf(s.tasks[x]) == Fifo {
      assert x in s'.fifo[p];
      assert In(s'.fifo, x);
    } else {
      assert x in s'.rr[p];
      assert In(s'.rr, x);
    }
    var chosen := ScheduleStep(s').current;
    if chosen != x {
      if In(s'.fifo, chosen) {
        var k :| 0 <= k < |s'.fifo| && chosen in s'.fifo[k];
        assert chosen in s.fifo[k];
        assert In(s.fifo, chosen);
      } else {
        var k :| 0 <= k < |s'.rr| && chosen in s'.rr[k];
        assert chosen in s.rr[k];
        assert In(s.rr, chosen);
      }
    }
  }

  // The state after k calls of schedule() with no other change.
  ghost function AfterSchedules(s: State, k: nat): (s': State)
    requires Placed(s)
    ensures Placed(s')
  {
    if k == 0 then s
    else
      ScheduleKeepsPlaced(AfterSchedules(s, k - 1));
      ScheduleStep(AfterSchedules(s, k - 1))
  }

  lemma {:induction false} SchedulesOnlyRotate(s: State, k: nat)
    requires Placed(s)
    ensures AfterSchedules(s, k).rr == AfterPicks(s.rr, k) && AfterSchedules(s, k).fifo == s.fifo
    ensures AfterSchedules(s, k).tasks == s.tasks && AfterSchedules(s, k).idle == s.idle
  {
    if k > 0 {
      SchedulesOnlyRotate(s, k - 1);
    }
  }

  // FAIR TIME SLICES: when the highest list is a round-robin one, call number k of schedule() runs its
  // task number k + 1, counted around; when it is first-in-first-out, or at equal height, every call runs
  // that list's first task.
  lemma ScheduleGoesRound(s: State, k: nat)
    requires Placed(s)
    ensures var p := Top(s.rr, |s.rr|);
            p > Top(s.fifo, |s.fifo|) ==> s.rr[p] != [] && AfterSchedules(s, k + 1).current == s.rr[p][Wrap(k + 1, |s.rr[p]|)]
    ensures var p := Top(s.fifo, |s.fifo|);
            p >= Top(s.rr, |s.rr|) && p >= 0 ==> s.fifo[p] != [] && AfterSchedules(s, k + 1).current == s.fifo[p][0]
  {
    var s' := AfterSchedules(s, k);
    SchedulesOnlyRotate(s, k);
    PicksAreTasks(s');
    TopIsHighest(s.rr, |s.rr|);
    TopIsHighest(s.fifo, |s.fifo|);
    var p := Top(s.rr, |s.rr|);
    if p >= 0 {
      PicksGoRound(s.rr, p, k);
      SameTop(s.rr, p, Rotate(s.rr[p], Wrap(k, |s.rr[p]|)), |s.rr|);
    } else {
      NothingToRotate(s.rr, k);
    }
  }

  lemma {:induction false} NothingToRotate(q: Queues, k: nat)
    requires Top(q, |q|) < 0
    ensures AfterPicks(q, k) == q
  {
    if k > 0 {
      NothingToRotate(q, k - 1);
    }
  }

  // ----- waking everybody -----

  // task_cond_broadcast
  ghost function WakeAll(s: State, c: nat, list: seq<nat>): State
    requires s.current in s.tasks && forall x | x in list :: x in s.tasks
    decreases |list|
  {
    if list == [] then s
    else
      assert forall x | x in list[1..] :: x in list;
      WakeAll(WakeStep(s, list[0], c), c, list[1..])
  }

  // Those of the list that belong into the queue of this policy and priority, in the list's order.
  function Joining(list: seq<nat>, tasks: map<nat, Task>, policy: Policy, p: int): seq<nat> {
    if list == [] then []
    else
      (if list[0] in tasks && tasks[list[0]].priority == p && PolicyOf(tasks[list[0]]) == policy then [list[0]] else [])
      + Joining(list[1..], tasks, policy, p)
  }

  lemma {:induction false} JoiningSame(list: seq<nat>, tasks: map<nat, Task>, x: nat, t: Task, policy: Policy, p: int)
    requires x !in list
    ensures Joining(list, tasks[x := t], policy, p) == Joining(list, tasks, policy, p)
  {
    if list != [] {
      JoiningSame(list[1..], tasks, x, t, policy, p);
    }
  }

  lemma FirstLeaves(s: State, c: nat)
    requires Placed(s) && c < |s.waits| && s.waits[c] != []
    ensures var x := s.waits[c][0]; x in s.tasks && x != s.idle && x !in s.waits[c][1..]
    ensures Drop(s.waits, c, s.waits[c][0]) == s.waits[c := s.waits[c][1..]]
  {
    assert s.waits[c][0] in s.waits[c];
  }

  function QueueOf(s: State, policy: Policy): Queues {
    if policy == Fifo then s.fifo else s.rr
  }

  // One waiter joins the end of its queue.
  lemma OneJoins(s: State, x: nat, c: nat, policy: Policy, p: int)
    requires x in s.tasks && s.current in s.tasks && policy != Unset
    ensures |QueueOf(WakeStep(s, x, c), policy)| == |QueueOf(s, policy)|
    ensures 0 <= p < |QueueOf(s, policy)| ==>
              QueueOf(WakeStep(s, x, c), policy)[p] == QueueOf(s, policy)[p] + Joining([x], s.tasks, policy, p)
  {
    assert [x][1..] == [];
  }

  lemma JoiningFirst(list: seq<nat>, tasks: map<nat, Task>, t: Task, policy: Policy, p: int)
    requires list != [] && list[0] !in list[1..]
    ensures Joining(list, tasks, policy, p)
         == Joining([list[0]], tasks, policy, p) + Joining(list[1..], tasks[list[0] := t], policy, p)
  {
    assert [list[0]][1..] == [];
    JoiningSame(list[1..], tasks, list[0], t, policy, p);
  }

  // What is left to do after the first waiter.
  lemma WakeRest(s: State, c: nat, m: State)
    requires Placed(s) && c < |s.waits| && s.waits[c] != [] && s.waits[c][0] in s.tasks
    requires forall x | x in s.waits[c] :: x in s.tasks
    requires m == WakeStep(s, s.waits[c][0], c)
    ensures m.waits == s.waits[c := s.waits[c][1..]] && m.waits[c := []] == s.waits[c := []]
    ensures m.current in m.tasks && forall x | x in m.waits[c] :: x in m.tasks
    ensures WakeAll(s, c, s.waits[c]) == WakeAll(m, c, m.waits[c])
    ensures m.tasks == s.tasks[s.waits[c][0] := m.tasks[s.waits[c][0]]]
  {
    FirstLeaves(s, c);
    assert forall x | x in s.waits[c][1..] :: x in s.waits[c];
  }

  lemma Associates(a: seq<nat>, b: seq<nat>, c: seq<nat>)
    ensures a + b + c == a + (b + c)
  {
  }

  // BROADCAST: nobody is left waiting on the condition, and every task is in its place ...
  lemma {:induction false} BroadcastWakesAll(s: State, c: nat)
    requires Placed(s) && c < |s.waits|
    requires forall x | x in s.waits[c] :: x in s.tasks
    ensures Placed(WakeAll(s, c, s.waits[c])) && WakeAll(s, c, s.waits[c]).waits == s.waits[c := []]
    decreases |s.waits[c]|
  {
    if s.waits[c] == [] {
      assert s.waits[c := []] == s.waits;
    } else {
      var x := s.waits[c][0];
      FirstLeaves(s, c);
      WakeKeepsPlaced(s, x, c);
      WakeRest(s, c, WakeStep(s, x, c));
      hide Placed;
      BroadcastWakesAll(WakeStep(s, x, c), c);
    }
  }

  // ... and each queue gains exactly the waiters of its policy and priority, behind its own tasks and in
  // the order in which they waited.
  lemma {:induction false} BroadcastQueues(s: State, c: nat, policy: Policy, p: int)
    requires Placed(s) && c < |s.waits| && policy != Unset && 0 <= p < |QueueOf(s, policy)|
    requires forall x | x in s.waits[c] :: x in s.tasks
    ensures |QueueOf(WakeAll(s, c, s.waits[c]), policy)| == |QueueOf(s, policy)|
    ensures QueueOf(WakeAll(s, c, s.waits[c]), policy)[p]
         == QueueOf(s, policy)[p] + Joining(s.waits[c], s.tasks, policy, p)
    decreases |s.waits[c]|
  {
    var list := s.waits[c];
    if list != [] {
      hide Placed, WakeStep, Joining, Queued;
      var x := list[0];
      FirstLeaves(s, c);
      WakeKeepsPlaced(s, x, c);
      OneJoins(s, x, c, policy, p);
      var m := WakeStep(s, x, c);
      WakeRest(s, c, m);
      JoiningFirst(list, s.tasks, m.tasks[x], policy, p);
      BroadcastQueues(m, c, policy, p);
      Associates(QueueOf(s, policy)[p], Joining([x], s.tasks, policy, p), Joining(list[1..], m.tasks, policy, p));
    }
  }

  // A task that waits and is woken again is behind all others of its priority.
  lemma WaitThenWake(s: State, x: nat, c: nat)
    requires Placed(s) && x in s.tasks && x != s.idle && !In(s.waits, x) && c < |s.waits|
    requires s.tasks[x].policy == RoundRobin && InRange(s, s.tasks[x])
    ensures var s' := WakeStep(WaitStep(s, x, c), x, c); var p := s.tasks[x].priority;
            Placed(s') && s'.waits == s.waits && s'.fifo == s.fifo && s'.rr == s.rr[p := Without<nat>(s.rr[p], x) + [x]]
  {
    WaitKeepsPlaced(s, x, c);
    WakeKeepsPlaced(WaitStep(s, x, c), x, c);
    assert x !in s.waits[c] by { forall k | 0 <= k < |s.waits| ensures x !in s.waits[k] {} }
    WithoutLast(s.waits[c], x);
    assert s.waits[c := s.waits[c] + [x]][c := s.waits[c]] == s.waits;
  }

  lemma WithoutLast(s: seq<nat>, x: nat)
    requires NoDup<nat>(s) && x !in s
    ensures Without<nat>(s + [x], x) == s
  {
    NoDupAppend<nat>(s, x);
    assert (s + [x])[|s|] == x;
    WithoutAt<nat>(s + [x], |s|);
  }

  class Scheduler {
    var fifo: Queues
    var rr: Queues
    var waits: seq<seq<nat>>
    var tasks: map<nat, Task>
    var current: nat
    var idle: nat
    var needResched: bool
    var isLocked: int

    ghost function View(): State
      reads this
    {
      State(fifo, rr, waits, tasks, current, idle, needResched)
    }

    // sched_init with the idle task; n and m are the configured numbers of priorities, w of conditions.
    constructor (task: nat, priority: int, n: nat, m: nat, w: nat)
      ensures Placed(View()) && isLocked == 0 && current == task && idle == task && !needResched
      ensures |fifo| == n && |rr| == m && |waits| == w
      ensures forall x :: Unlinked(View(), x)
    {
      fifo, rr, waits := Lists(n), Lists(m), Lists(w);
      tasks := map[task := Task(priority, true, Unset)];
      current, idle, needResched, isLocked := task, task, false, 0;
    }

    // sched_rr_pick_task
    method RrPickTask() returns (task: Option<nat>)
      modifies this`rr
      ensures (rr, task) == RrPick(old(rr))
    {
      TopIsHighest(rr, |rr|);
      task := None;
      var i := |rr| - 1;
      while i >= 0
        invariant -1 <= i < |rr| && rr == old(rr) && task == None
        invariant Top(rr, |rr|) == Top(rr, i + 1)
      {
        if rr[i] != [] {
          var rotated := rr[i][1..] + rr[i][..1];
          rr := rr[i := rotated];
          return Some(rotated[0]);
        }
        i := i - 1;
      }
    }

    // sched_fifo_pick_task
    method FifoPickTask() returns (task: Option<nat>)
      ensures task == FifoPick(fifo)
    {
      TopIsHighest(fifo, |fifo|);
      task := None;
      var i := |fifo| - 1;
      while i >= 0
        invariant -1 <= i < |fifo| && task == None
        invariant Top(fifo, |fifo|) == Top(fifo, i + 1)
      {
        if fifo[i] != [] {
          return Some(fifo[i][0]);
        }
        i := i - 1;
      }
    }

    // x is last in the list of its priority, if there is one.
    ghost predicate Joined(was: Queues, now: Queues, p: int, x: nat, retval: int) {
      if 0 <= p < |was| then retval == 0 && now == was[p := was[p] + [x]] else retval == -EINVAL && now == was
    }

    // sched_add_to_runqueue
    method AddToRunqueue(x: nat) returns (retval: int)
      requires Placed(View()) && x in tasks && x != idle && Unlinked(View(), x)
      modifies this
      ensures Placed(View()) && View() == AddStep(old(View()), x)
      ensures retval == if InRange(old(View()), old(tasks)[x]) then 0 else -EINVAL
      ensures var t := old(tasks)[x];
              tasks == old(tasks)[x := Task(t.priority, true, if t.policy == Unset then RoundRobin else t.policy)]
      ensures var t := old(tasks)[x];
              t.policy == Fifo ==> rr == old(rr) && Joined(old(fifo), fifo, t.priority, x, retval)
      ensures var t := old(tasks)[x];
              t.policy != Fifo ==> fifo == old(fifo) && Joined(old(rr), rr, t.priority, x, retval)
      ensures needResched <==> old(needResched) || (retval == 0 && old(tasks)[x].priority > tasks[current].priority)
    {
      AddKeepsPlaced(View(), x);
      var t := tasks[x];
      var policy := if t.policy == Unset then RoundRobin else t.policy;
      tasks := tasks[x := Task(t.priority, true, policy)];
      var q := if policy == Fifo then fifo else rr;
      if t.priority < 0 || t.priority > |q| - 1 {
        return -EINVAL;
      }
      q := q[t.priority := q[t.priority] + [x]];
      if policy == Fifo {
        fifo := q;
      } else {
        rr := q;
      }
      if t.priority > tasks[current].priority {
        needResched := true; // sched_yield
      }
      return 0;
    }

    // sched_rm_from_runqueue: list_del takes it out of the one list it is in.
    method RmFromRunqueue(x: nat) returns (retval: int)
      requires Placed(View()) && x in tasks && x != idle && !In(waits, x)
      modifies this
      ensures Placed(View()) && View() == RemoveStep(old(View()), x)
      ensures retval == if old(tasks)[x].policy == Unset then -EINVAL else 0
      ensures Unlinked(View(), x)
    {
      RemoveKeepsPlaced(View(), x);
      var t := tasks[x];
      if t.policy == Unset {
        return -EINVAL;
      }
      tasks := tasks[x := t.(running := false)];
      if t.policy == Fifo {
        fifo := Drop(fifo, t.priority, x);
      } else {
        rr := Drop(rr, t.priority, x);
      }
      return 0;
    }

    // schedule(): the loop over the two policies
    method Schedule()
      requires Placed(View())
      modifies this
      ensures Placed(View())
      ensures View() == if isLocked != 0 then old(View()) else ScheduleStep(old(View()))
      ensures isLocked == old(isLocked)
      ensures isLocked == 0 ==> !needResched && fifo == old(fifo) && waits == old(waits) && tasks == old(tasks)
    {
      if isLocked != 0 {
        return;
      }
      ScheduleKeepsPlaced(View());
      PicksAreTasks(View());
      ghost var s := View();
      var best: Option<nat> := None;
      var i := 0;
      while i < 2
        invariant 0 <= i <= 2 && isLocked == old(isLocked)
        invariant View() == if i == 2 then s.(rr := RrPick(s.rr).0) else s
        invariant best.Some? ==> best.value in tasks
        invariant best == if i == 0 then None else if i == 1 then Better(s, None, FifoPick(s.fifo)) else Better(s, FifoPick(s.fifo), RrPick(s.rr).1)
      {
        var task;
        if i == 0 {
          task := FifoPickTask();
        } else {
          task := RrPickTask();
        }
        if task.Some? {
          if best.None? || tasks[task.value].priority > tasks[best.value].priority {
            best := task;
          }
        }
        i := i + 1;
      }
      current := if best.None? then idle else best.value;
      needResched := false;
    }

    // task_add_to_wait_list
    method AddToWaitList(x: nat, c: nat)
      requires Placed(View()) && x in tasks && x != idle && !In(waits, x) && tasks[x].policy != Unset && c < |waits|
      modifies this
      ensures Placed(View()) && View() == WaitStep(old(View()), x, c)
      ensures waits == old(waits)[c := old(waits)[c] + [x]] && !tasks[x].running
    {
      WaitKeepsPlaced(View(), x, c);
      var _ := RmFromRunqueue(x);
      waits := waits[c := waits[c] + [x]];
    }

    // task_remove_from_wait_list
    method RemoveFromWaitList(x: nat, c: nat)
      requires Placed(View()) && c < |waits| && x in waits[c] && x in tasks && x != idle
      modifies this
      ensures Placed(View()) && View() == WakeStep(old(View()), x, c)
    {
      LeaveKeepsPlaced(View(), x, c);
      waits := waits[c := Without<nat>(waits[c], x)];
      var _ := AddToRunqueue(x);
    }

    // task_cond_signal
    method CondSignal(c: nat)
      requires Placed(View()) && c < |waits| && waits[c] != [] && waits[c][0] in tasks
      modifies this
      ensures Placed(View()) && View() == WakeStep(old(View()), old(waits)[c][0], c)
      ensures waits == old(waits)[c := old(waits)[c][1..]]
    {
      FirstLeaves(View(), c);
      RemoveFromWaitList(waits[c][0], c);
    }

    // task_cond_broadcast
    method CondBroadcast(c: nat)
      requires Placed(View()) && c < |waits| && forall x | x in waits[c] :: x in tasks
      modifies this
      ensures Placed(View()) && View() == WakeAll(old(View()), c, old(waits)[c])
      ensures waits == old(waits)[c := []]
    {
      ghost var s := View();
      BroadcastWakesAll(s, c);
      while waits[c] != []
        invariant Placed(View()) && |waits| == |s.waits| && forall x | x in waits[c] :: x in tasks
        invariant WakeAll(View(), c, waits[c]) == WakeAll(s, c, s.waits[c])
        decreases |waits[c]|
      {
        ghost var m := View();
        FirstLeaves(m, c);
        CondSignal(c);
        assert forall x | x in waits[c] :: x in m.waits[c];
      }
    }
  }

  function Lists(n: nat): (q: seq<seq<nat>>)
    ensures |q| == n && forall p | 0 <= p < n :: q[p] == []
  {
    if n == 0 then [] else Lists(n - 1) + [[]]
  }

  lemma LeaveKeepsPlaced(s: State, x: nat, c: nat)
    requires Placed(s) && c < |s.waits| && x in s.waits[c]
    ensures Placed(s.(waits := Drop(s.waits, c, x))) && Unlinked(s.(waits := Drop(s.waits, c, x)), x)
  {
    DropMembers(s.waits, c, x);
    assert !s.tasks[x].running;
  }
}
