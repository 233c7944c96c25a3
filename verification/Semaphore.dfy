// lib/semaphore.c: counting semaphores, on the path that signals do not interrupt. A section with interrupts
// disabled is one step; semaphore_unlock, which has none around it, is five: the increment, the test for an
// empty wait list, the reading of the list's first entry, the list_del of the task that was read, and its
// enqueueing as runnable.
module Semaphore {
  import opened Seqs

  const WORD: nat := 0x1_0000_0000

  // Tasks and calls of semaphore_unlock are known by numbers. An unlocker is in `posted` after its increment,
  // in `looking` after it has seen a non-empty list, in `picked` after it has read the first entry (no task if
  // the list has become empty in between), and in `queueing` after its list_del. `woken` are the tasks that
  // were taken off the wait list and have not run yet; `off` those that are in no list at all, between a
  // list_del and the enqueueing. The last six fields record the history of the semaphore.
  datatype State = State(
    count: nat,
    waitList: seq<nat>,
    woken: set<nat>,
    posted: set<nat>,
    looking: set<nat>,
    picked: map<nat, seq<nat>>,
    queueing: map<nat, nat>,
    off: set<nat>,
    initial: nat,
    ups: nat,
    downs: nat,
    idleUps: nat,        // unlocks that saw an empty wait list
    blocked: seq<nat>,   // every task that was put on the wait list, in that order
    released: seq<nat>)  // every task that was taken off it

  datatype Action =
    | Enter(task: nat)   // semaphore_lock, up to the first time it blocks
    | Resume(task: nat)  // a woken task looks at the count again
    | Trylock
    | Increment(u: nat)  // semaphore_unlock: atomic_inc,
    | Check(u: nat)      // list_is_empty,
    | Read(u: nat)       // list_first_entry,
    | Remove(u: nat)     // task_remove_from_wait_list: list_del,
    | Queue(u: nat)      // sched_add_to_runqueue

  // semaphore_init
  function Init(val: nat): State {
    State(val, [], {}, {}, {}, map[], map[], {}, val, 0, 0, 0, [], [])
  }

  predicate Enabled(s: State, a: Action) {
    match a
    case Enter(t) => t !in s.waitList && t !in s.woken && t !in s.off
    case Resume(t) => t in s.woken && t !in s.off
    case Trylock => true
    case Increment(u) => u !in s.posted && u !in s.looking && u !in s.picked && u !in s.queueing
    case Check(u) => u in s.posted
    case Read(u) => u in s.looking
    case Remove(u) => u in s.picked
    case Queue(u) => u in s.queueing
  }

  // The body of the loop: take the semaphore or wait.
  function Attempt(s: State, t: nat): State {
    if s.count == 0
    then s.(waitList := s.waitList + [t], blocked := s.blocked + [t])
    else s.(count := s.count - 1, downs := s.downs + 1)
  }

  // The task that unlocker u is about to remove is still on the wait list.
  predicate StillWaiting(s: State, u: nat) {
    u in s.picked && |s.picked[u]| == 1 && s.picked[u][0] in s.waitList
  }

  function Step(s: State, a: Action): State
    requires Enabled(s, a)
  {
    match a
    case Enter(t) => Attempt(s, t)
    case Resume(t) => Attempt(s.(woken := s.woken - {t}), t)
    case Trylock => if s.count == 0 then s else s.(count := s.count - 1, downs := s.downs + 1)
    case Increment(u) => s.(count := (s.count + 1) % WORD, ups := s.ups + 1, posted := s.posted + {u})
    case Check(u) =>
      if s.waitList == [] then s.(posted := s.posted - {u}, idleUps := s.idleUps + 1)
      else s.(posted := s.posted - {u}, looking := s.looking + {u})
    case Read(u) =>
      s.(looking := s.looking - {u}, picked := s.picked[u := if s.waitList == [] then [] else s.waitList[..1]])
    case Remove(u) =>
      // A task that is not waiting any more leaves the run queue, to the end of which it returns.
      if |s.picked[u]| != 1 then s.(picked := s.picked - {u})
      else
        var t := s.picked[u][0];
        var s' := s.(picked := s.picked - {u}, queueing := s.queueing[u := t], off := s.off + {t});
        if t in s.waitList
        then s'.(waitList := Without<nat>(s.waitList, t), woken := s.woken + {t}, released := s.released + [t])
        else s'
    case Queue(u) => s.(queueing := s.queueing - {u}, off := s.off - {s.queueing[u]})
  }

  // What the source does goes wrong when list_first_entry finds no entry, because it then takes the list head
  // for a task, and when a task is enqueued that is in a list already. These lemmas are about runs in which
  // neither happens, and say when it can.
  predicate FindsTask(s: State, a: Action) {
    a.Read? ==> s.waitList != []
  }

  predicate QueuesOnce(s: State, a: Action) {
    a.Queue? ==> a.u in s.queueing && s.queueing[a.u] in s.off
  }

  // The unlocks under way, as long as they have released nobody.
  function Unlockers(s: State): nat {
    |s.posted| + |s.looking| + |s.picked|
  }

  // ----- what every interleaving keeps -----

  // A task waits at most once, and not while it is woken or off every list; what is off is about to be queued.
  ghost predicate Tasks(s: State) {
    && NoDup<nat>(s.waitList) && (forall t | t in s.waitList :: t !in s.woken && t !in s.off)
    && (forall u | u in s.picked :: |s.picked[u]| == 1)
    && (forall t | t in s.off :: exists u :: u in s.queueing && s.queueing[u] == t)
    && s.queueing.Keys !! s.posted && s.queueing.Keys !! s.looking && s.queueing.Keys !! s.picked.Keys
    && s.looking !! s.picked.Keys && s.posted !! s.looking && s.posted !! s.picked.Keys
  }

  // The count is the initial value plus ups minus completed downs, in 32 bits.
  ghost predicate Balance(s: State) {
    s.downs <= s.initial + s.ups && s.count == (s.initial + s.ups - s.downs) % WORD
  }

  ghost predicate Sound(s: State) {
    Tasks(s) && Balance(s)
  }

  lemma InitSound(val: nat)
    requires val < WORD
    ensures Sound(Init(val)) && Safe(Init(val)) && Serial(Init(val))
  {
  }

  lemma StepKeepsTasks(s: State, a: Action)
    requires Tasks(s) && Enabled(s, a) && FindsTask(s, a)
    ensures Tasks(Step(s, a))
  {
    match a
    case Enter(t) => NoDupAppend<nat>(s.waitList, t);
    case Resume(t) => NoDupAppend<nat>(s.waitList, t);
    case Remove(u) => RemoveKeepsTasks(s, u);
    case Queue(u) => QueueKeepsTasks(s, u);
    case _ =>
  }

  lemma RemoveKeepsTasks(s: State, u: nat)
    requires Tasks(s) && u in s.picked
    ensures Tasks(Step(s, Remove(u)))
  {
    var t, s' := s.picked[u][0], Step(s, Remove(u));
    if t in s.waitList {
      WithoutMembers<nat>(s.waitList, t);
    }
    forall x | x in s'.off ensures exists v :: v in s'.queueing && s'.queueing[v] == x {
      if x == t {
        assert s'.queueing[u] == t;
      } else {
        var v :| v in s.queueing && s.queueing[v] == x;
        assert v in s'.queueing;
      }
    }
  }

  lemma QueueKeepsTasks(s: State, u: nat)
    requires Tasks(s) && u in s.queueing
    ensures Tasks(Step(s, Queue(u)))
  {
    var s' := Step(s, Queue(u));
    forall x | x in s'.off ensures exists v :: v in s'.queueing && s'.queueing[v] == x {
      var v :| v in s.queueing && s.queueing[v] == x;
      assert v in s'.queueing;
    }
  }

  lemma DownKeepsBalance(b: nat, count: nat)
    requires count > 0 && count == b % WORD
    ensures b > 0 && count - 1 == (b - 1) % WORD
  {
  }

  lemma UpKeepsBalance(b: nat, count: nat)
    requires count == b % WORD
    ensures (count + 1) % WORD == (b + 1) % WORD
  {
  }

  lemma StepKeepsBalance(s: State, a: Action)
    requires Balance(s) && Enabled(s, a)
    ensures Balance(Step(s, a))
  {
    var b := s.initial + s.ups - s.downs;
    if s.count > 0 {
      DownKeepsBalance(b, s.count);
    }
    UpKeepsBalance(b, s.count);
  }

  // ----- what the unlocks owe to the waiting tasks -----

  // NO LOST WAKEUP: while tasks wait, every unit of the count is on its way to one of them.
  ghost predicate NoLostWakeup(s: State) {
    s.waitList != [] ==> s.count <= |s.woken| + Unlockers(s)
  }

  // Every unlock is under way, saw that nobody waited, or has released a waiting task.
  ghost predicate UpsReleased(s: State) {
    s.ups == s.idleUps + Unlockers(s) + |s.released|
  }

  ghost predicate Safe(s: State) {
    NoLostWakeup(s) && UpsReleased(s)
  }

  predicate Guarded(s: State, a: Action) {
    a.Remove? ==> StillWaiting(s, a.u)
  }

  lemma Sizes<T>(s: set<T>, x: T)
    ensures x in s ==> |s - {x}| == |s| - 1
    ensures x !in s ==> |s + {x}| == |s| + 1
  {
  }

  lemma PickedSizes(m: map<nat, seq<nat>>, u: nat, v: seq<nat>)
    ensures u in m ==> |m - {u}| == |m| - 1
    ensures u !in m ==> |m[u := v]| == |m| + 1
  {
    Sizes(m.Keys, u);
    assert (m - {u}).Keys == m.Keys - {u};
    assert m[u := v].Keys == m.Keys + {u};
  }

  // How the number of those on their way changes.
  lemma UnlockersAfter(s: State, a: Action)
    requires Tasks(s) && Enabled(s, a)
    ensures a.Increment? ==> Unlockers(Step(s, a)) == Unlockers(s) + 1
    ensures (a.Check? && s.waitList == []) || a.Remove? ==> Unlockers(Step(s, a)) == Unlockers(s) - 1
    ensures (a.Check? && s.waitList != []) || a.Read? ==> Unlockers(Step(s, a)) == Unlockers(s)
    ensures a.Enter? || a.Resume? || a.Trylock? || a.Queue? ==> Unlockers(Step(s, a)) == Unlockers(s)
    ensures a.Remove? && StillWaiting(s, a.u) ==> |Step(s, a).woken| == |s.woken| + 1
    ensures a.Resume? ==> |s.woken - {a.task}| == |s.woken| - 1
  {
    match a
    case Resume(t) => Sizes(s.woken, t);
    case Increment(u) => Sizes(s.posted, u);
    case Check(u) =>
      Sizes(s.posted, u);
      Sizes(s.looking, u);
    case Read(u) =>
      Sizes(s.looking, u);
      PickedSizes(s.picked, u, Step(s, a).picked[u]);
    case Remove(u) =>
      PickedSizes(s.picked, u, []);
      if StillWaiting(s, u) {
        Sizes(s.woken, s.picked[u][0]);
      }
    case _ =>
  }

  lemma StepKeepsSafe(s: State, a: Action)
    requires Tasks(s) && Safe(s) && Enabled(s, a) && Guarded(s, a)
    ensures Safe(Step(s, a))
  {
    hide NoDup, Without, Unlockers;
    UnlockersAfter(s, a);
  }

  // WHEN A REMOVAL DOES ITS DUTY: exactly when the task that was read is still waiting. Otherwise that unlock
  // has released nobody, and a wakeup is lost exactly when somebody waits and no other one is to spare.
  lemma RemoveReleases(s: State, u: nat)
    requires Tasks(s) && Safe(s) && u in s.picked
    ensures UpsReleased(Step(s, Remove(u))) <==> StillWaiting(s, u)
    ensures NoLostWakeup(Step(s, Remove(u))) <==>
              StillWaiting(s, u) || s.waitList == [] || s.count < |s.woken| + Unlockers(s)
  {
    UnlockersAfter(s, Remove(u));
  }

  // ----- unlocks one at a time -----

  // No more than one unlocker is between its look at the list and its removal, the entry it has read is the
  // first one, and tasks are released in the order in which they blocked.
  ghost predicate Serial(s: State) {
    && |s.looking| + |s.picked| <= 1
    && (s.looking != {} ==> s.waitList != [])
    && (forall u | u in s.picked :: s.waitList != [] && s.picked[u] == s.waitList[..1])
    && s.blocked == s.released + s.waitList
  }

  // An unlocker looks at the list only when no other is in the middle of its own look.
  predicate OneAtATime(s: State, a: Action) {
    a.Check? ==> s.looking == {} && s.picked == map[]
  }

  lemma AttemptKeepsSerial(s: State, t: nat)
    requires Serial(s)
    ensures Serial(Attempt(s, t))
  {
    assert s.released + (s.waitList + [t]) == s.released + s.waitList + [t];
    assert s.waitList != [] ==> (s.waitList + [t])[..1] == s.waitList[..1];
  }

  lemma StepKeepsSerial(s: State, a: Action)
    requires Tasks(s) && Serial(s) && Enabled(s, a) && OneAtATime(s, a)
    ensures Serial(Step(s, a)) && Guarded(s, a) && FindsTask(s, a)
  {
    match a
    case Enter(t) => AttemptKeepsSerial(s, t);
    case Resume(t) => AttemptKeepsSerial(s.(woken := s.woken - {t}), t);
    case Check(u) => Sizes(s.looking, u);
    case Read(u) => ReadKeepsSerial(s, u);
    case Remove(u) => RemoveKeepsSerial(s, u);
    case _ =>
  }

  lemma ReadKeepsSerial(s: State, u: nat)
    requires Serial(s) && u in s.looking
    ensures Serial(Step(s, Read(u))) && s.waitList != []
  {
    Sizes(s.looking, u);
    Nobody(s.looking - {u});
    PickedSizes(s.picked, u, s.waitList[..1]);
    Nobody(s.picked.Keys);
  }

  lemma RemoveKeepsSerial(s: State, u: nat)
    requires Serial(s) && u in s.picked
    ensures Serial(Step(s, Remove(u))) && StillWaiting(s, u)
  {
    var t := s.waitList[0];
    PickedSizes(s.picked, u, []);
    Nobody((s.picked - {u}).Keys);
    Nobody(s.looking);
    assert (s.picked - {u}).Keys == {} && Without<nat>(s.waitList, t) == s.waitList[1..];
    assert s.waitList == [t] + s.waitList[1..];
    assert s.released + s.waitList == s.released + [t] + s.waitList[1..];
  }

  lemma Nobody<T>(s: set<T>)
    ensures |s| == 0 <==> s == {}
  {
  }

  // ----- whole runs -----

  // What the unlockers have removed and not yet queued, each one a task of its own.
  ghost predicate Matched(s: State) {
    && (forall u | u in s.queueing :: s.queueing[u] in s.off)
    && (forall u, v | u in s.queueing && v in s.queueing && u != v :: s.queueing[u] != s.queueing[v])
  }

  lemma StepKeepsMatched(s: State, a: Action)
    requires Tasks(s) && Matched(s) && Enabled(s, a) && Guarded(s, a)
    ensures Matched(Step(s, a)) && QueuesOnce(s, a)
  {
  }

  // One interleaving in which no list_first_entry finds the list empty and no task is queued twice; one in
  // which every removal finds its task still waiting; and one in which unlockers look at the list one at a
  // time, as with unlocks under a lock or with interrupts disabled.
  datatype Discipline = Found | StillThere | Serialised

  predicate Allowed(s: State, a: Action, d: Discipline) {
    Enabled(s, a) &&
    match d
    case Found => FindsTask(s, a) && QueuesOnce(s, a)
    case StillThere => FindsTask(s, a) && Guarded(s, a)
    case Serialised => OneAtATime(s, a)
  }

  ghost predicate CanRun(s: State, run: seq<Action>, d: Discipline)
    decreases |run|
  {
    run == [] || (Allowed(s, run[0], d) && CanRun(Step(s, run[0]), run[1..], d))
  }

  ghost function Run(s: State, run: seq<Action>, d: Discipline): State
    requires CanRun(s, run, d)
    decreases |run|
  {
    if run == [] then s else Run(Step(s, run[0]), run[1..], d)
  }

  ghost predicate Invariant(s: State, d: Discipline) {
    Sound(s) && (d != Found ==> Safe(s) && Matched(s)) && (d == Serialised ==> Serial(s))
  }

  lemma StepKeepsSound(s: State, a: Action)
    requires Sound(s) && Enabled(s, a) && FindsTask(s, a)
    ensures Sound(Step(s, a))
  {
    hide Tasks, Balance;
    StepKeepsTasks(s, a);
    StepKeepsBalance(s, a);
  }

  // Under each discipline the source does what it should at every step.
  lemma StepKeepsInvariant(s: State, a: Action, d: Discipline)
    requires Invariant(s, d) && Allowed(s, a, d)
    ensures Invariant(Step(s, a), d) && FindsTask(s, a) && QueuesOnce(s, a) && Step(s, a).initial == s.initial
  {
    hide Step, Tasks, Balance, Serial, Safe, Matched, Guarded, OneAtATime, FindsTask, QueuesOnce, Enabled;
    if d == Serialised {
      StepKeepsSerial(s, a);
    }
    StepKeepsSound(s, a);
    InitialStays(s, a);
    if d != Found {
      StepKeepsSafe(s, a);
      StepKeepsMatched(s, a);
    }
  }

  lemma InitialStays(s: State, a: Action)
    requires Enabled(s, a)
    ensures Step(s, a).initial == s.initial
  {
  }

  lemma {:induction false} RunKeepsInvariant(s: State, run: seq<Action>, d: Discipline)
    requires Invariant(s, d) && CanRun(s, run, d)
    ensures Invariant(Run(s, run, d), d) && Run(s, run, d).initial == s.initial
    ensures CanRun(s, run, Found)
    decreases |run|
  {
    hide Invariant, Step, Enabled, FindsTask, QueuesOnce, Guarded, OneAtATime;
    if run != [] {
      StepKeepsInvariant(s, run[0], d);
      RunKeepsInvariant(Step(s, run[0]), run[1..], d);
    }
  }

  // As long as every list_first_entry finds a task and none is queued twice, the count never goes below zero:
  // no more than the initial value plus the ups are ever through; and a task waits at most once.
  lemma RunIsSound(val: nat, run: seq<Action>)
    requires val < WORD && CanRun(Init(val), run, Found)
    ensures var s := Run(Init(val), run, Found); s.downs <= val + s.ups && s.count == (val + s.ups - s.downs) % WORD
    ensures var s := Run(Init(val), run, Found); NoDup<nat>(s.waitList) && forall t | t in s.waitList :: t !in s.woken
  {
    InitSound(val);
    RunKeepsInvariant(Init(val), run, Found);
  }

  // If every removal finds its task still waiting, no task is queued twice, no wakeup is lost, and every unlock
  // that saw a waiting task has released one or is still under way.
  lemma GuardedRunIsSafe(val: nat, run: seq<Action>)
    requires val < WORD && CanRun(Init(val), run, StillThere)
    ensures CanRun(Init(val), run, Found)
    ensures var s := Run(Init(val), run, StillThere); s.waitList != [] ==> s.count <= |s.woken| + Unlockers(s)
    ensures var s := Run(Init(val), run, StillThere); s.ups == s.idleUps + Unlockers(s) + |s.released|
  {
    InitSound(val);
    RunKeepsInvariant(Init(val), run, StillThere);
  }

  // UNLOCKS ONE AT A TIME ARE SAFE: then every list_first_entry finds a task, every removal finds it waiting,
  // no wakeup is lost, and tasks are released in the order in which they blocked.
  lemma SerialisedRunIsSafe(val: nat, run: seq<Action>)
    requires val < WORD && CanRun(Init(val), run, Serialised)
    ensures CanRun(Init(val), run, Found)
    ensures var s := Run(Init(val), run, Serialised); s.waitList != [] ==> s.count <= |s.woken| + Unlockers(s)
    ensures var s := Run(Init(val), run, Serialised); s.blocked == s.released + s.waitList
    ensures var s := Run(Init(val), run, Serialised); s.looking != {} ==> s.waitList != []
    ensures var s := Run(Init(val), run, Serialised); forall u | u in s.picked :: StillWaiting(s, u)
  {
    InitSound(val);
    RunKeepsInvariant(Init(val), run, Serialised);
    var s := Run(Init(val), run, Serialised);
    forall u | u in s.picked ensures StillWaiting(s, u) {
      assert s.picked[u] == s.waitList[..1] && s.waitList[0] in s.waitList;
    }
  }

  // ----- when list_first_entry finds the list empty -----

  // The step takes the last waiting task off the list.
  predicate Empties(s: State, a: Action) {
    a.Remove? && a.u in s.picked && s.waitList != [] && s.waitList == s.picked[a.u]
  }

  // The step puts a task on it.
  predicate Fills(s: State, a: Action) {
    (a.Enter? || a.Resume?) && s.count == 0
  }

  ghost predicate NeverFilled(s: State, run: seq<Action>, d: Discipline)
    requires CanRun(s, run, d)
    decreases |run|
  {
    run == [] || (!Fills(s, run[0]) && NeverFilled(Step(s, run[0]), run[1..], d))
  }

  // At some point of the run the list was emptied, and after that it was never filled.
  ghost predicate Emptied(s: State, run: seq<Action>, d: Discipline)
    requires CanRun(s, run, d)
    decreases |run|
  {
    run != [] && var s', rest := Step(s, run[0]), run[1..];
      Emptied(s', rest, d) || (Empties(s, run[0]) && NeverFilled(s', rest, d))
  }

  lemma EmptyAfter(s: State, a: Action)
    requires Tasks(s) && Enabled(s, a)
    ensures Step(s, a).waitList == [] <==> Empties(s, a) || (s.waitList == [] && !Fills(s, a))
  {
    if a.Remove? && s.picked[a.u][0] in s.waitList {
      var t := s.picked[a.u][0];
      WithoutMembers<nat>(s.waitList, t);
      assert |Without<nat>(s.waitList, t)| == |s.waitList| - 1;
      assert |s.waitList| == 1 ==> s.waitList == [t];
    }
  }

  // WHEN AN UNLOCKER TAKES THE LIST HEAD FOR A TASK: after its look at a list that was not empty, exactly if in
  // the meantime another unlocker has removed the last waiting task and nobody has begun to wait since.
  lemma {:induction false} ListIsEmpty(s: State, run: seq<Action>, d: Discipline)
    requires Invariant(s, d) && CanRun(s, run, d)
    ensures Run(s, run, d).waitList == [] <==> Emptied(s, run, d) || (s.waitList == [] && NeverFilled(s, run, d))
    decreases |run|
  {
    if run != [] {
      StepKeepsInvariant(s, run[0], d);
      EmptyAfter(s, run[0]);
      ListIsEmpty(Step(s, run[0]), run[1..], d);
    }
  }

  lemma ReadFindsNoTask(s: State, u: nat, run: seq<Action>, d: Discipline)
    requires Invariant(s, d) && u in s.posted && s.waitList != [] && Allowed(s, Check(u), d)
    requires CanRun(Step(s, Check(u)), run, d)
    ensures var s' := Step(s, Check(u)); !FindsTask(Run(s', run, d), Read(u)) <==> Emptied(s', run, d)
    ensures d == Serialised && u in Run(Step(s, Check(u)), run, d).looking ==> !Emptied(Step(s, Check(u)), run, d)
  {
    StepKeepsInvariant(s, Check(u), d);
    ListIsEmpty(Step(s, Check(u)), run, d);
    RunKeepsInvariant(Step(s, Check(u)), run, d);
  }

  // ----- when a task is queued twice -----

  // The step takes task t off whatever list it is in.
  predicate Takes(s: State, a: Action, t: nat) {
    a.Remove? && a.u in s.picked && s.picked[a.u] == [t]
  }

  // The step queues task t.
  predicate Puts(s: State, a: Action, t: nat) {
    a.Queue? && a.u in s.queueing && s.queueing[a.u] == t
  }

  ghost predicate NeverTaken(s: State, run: seq<Action>, d: Discipline, t: nat)
    requires CanRun(s, run, d)
    decreases |run|
  {
    run == [] || (!Takes(s, run[0], t) && NeverTaken(Step(s, run[0]), run[1..], d, t))
  }

  // At some point of the run the task was queued, and after that it was never taken off a list.
  ghost predicate PutBack(s: State, run: seq<Action>, d: Discipline, t: nat)
    requires CanRun(s, run, d)
    decreases |run|
  {
    run != [] && var s', rest := Step(s, run[0]), run[1..];
      PutBack(s', rest, d, t) || (Puts(s, run[0], t) && NeverTaken(s', rest, d, t))
  }

  lemma OffAfter(s: State, a: Action, t: nat)
    requires Sound(s) && Enabled(s, a)
    ensures t !in Step(s, a).off <==> Puts(s, a, t) || (t !in s.off && !Takes(s, a, t))
  {
  }

  lemma {:induction false} TaskIsInAList(s: State, run: seq<Action>, d: Discipline, t: nat)
    requires Invariant(s, d) && CanRun(s, run, d)
    ensures t !in Run(s, run, d).off <==> PutBack(s, run, d, t) || (t !in s.off && NeverTaken(s, run, d, t))
    decreases |run|
  {
    if run != [] {
      hide Step, Sound, Enabled, FindsTask, QueuesOnce, Guarded, OneAtATime, Takes, Puts;
      StepKeepsInvariant(s, run[0], d);
      OffAfter(s, run[0], t);
      TaskIsInAList(Step(s, run[0]), run[1..], d, t);
    }
  }

  // WHEN AN UNLOCKER QUEUES A TASK TWICE: after its own list_del, exactly if in the meantime another unlocker has
  // queued the same task and nobody has taken it off a list since.
  lemma QueuesTwice(s: State, u: nat, t: nat, run: seq<Action>, d: Discipline)
    requires Invariant(s, d) && u in s.picked && s.picked[u] == [t] && Allowed(s, Remove(u), d)
    requires CanRun(Step(s, Remove(u)), run, d)
    requires u in Run(Step(s, Remove(u)), run, d).queueing && Run(Step(s, Remove(u)), run, d).queueing[u] == t
    ensures !QueuesOnce(Run(Step(s, Remove(u)), run, d), Queue(u)) <==> PutBack(Step(s, Remove(u)), run, d, t)
    ensures d != Found ==> !PutBack(Step(s, Remove(u)), run, d, t)
  {
    StepKeepsInvariant(s, Remove(u), d);
    TaskIsInAList(Step(s, Remove(u)), run, d, t);
    RunKeepsInvariant(Step(s, Remove(u)), run, d);
  }

  // ----- three runs of overlapping unlocks -----

  lemma {:induction false} RunThrough(at: seq<State>, run: seq<Action>)
    requires |at| == |run| + 1
    requires forall i: nat | i < |run| :: Allowed(at[i], run[i], Found) && Step(at[i], run[i]) == at[i + 1]
    ensures CanRun(at[0], run, Found) && Run(at[0], run, Found) == at[|run|]
    decreases |run|
  {
    hide Step, Allowed;
    if run != [] {
      RunThrough(at[1..], run[1..]);
    }
  }

  function Head(): seq<Action> {
    [Enter(1), Increment(7), Check(7), Increment(8), Check(8), Read(8), Remove(8)]
  }

  function HeadAt(i: nat): State {
    match i
    case 0 => Init(0)
    case 1 => State(0, [1], {}, {}, {}, map[], map[], {}, 0, 0, 0, 0, [1], [])
    case 2 => State(1, [1], {}, {7}, {}, map[], map[], {}, 0, 1, 0, 0, [1], [])
    case 3 => State(1, [1], {}, {}, {7}, map[], map[], {}, 0, 1, 0, 0, [1], [])
    case 4 => State(2, [1], {}, {8}, {7}, map[], map[], {}, 0, 2, 0, 0, [1], [])
    case 5 => State(2, [1], {}, {}, {7, 8}, map[], map[], {}, 0, 2, 0, 0, [1], [])
    case 6 => State(2, [1], {}, {}, {7}, map[8 := [1]], map[], {}, 0, 2, 0, 0, [1], [])
    case _ => State(2, [], {1}, {}, {7}, map[], map[8 := 1], {1}, 0, 2, 0, 0, [1], [1])
  }

  lemma HeadStep(i: nat)
    requires i < |Head()|
    ensures Allowed(HeadAt(i), Head()[i], Found) && Step(HeadAt(i), Head()[i]) == HeadAt(i + 1)
  {
    var one: seq<nat>, nobody: map<nat, seq<nat>> := [1], map[];
    match i
    case 5 => assert one[..1] == [1] && {7, 8} - {8} == {7};
    case 6 => assert Without<nat>(one, 1) == [] && map[8 := one] - {8} == nobody;
    case _ =>
  }

  // THE LIST HEAD: task 1 waits and both unlockers see it; 8 removes it; then 7 reads.
  lemma ListHeadTakenForATask()
    ensures CanRun(Init(0), Head(), Found)
    ensures var s := Run(Init(0), Head(), Found); Enabled(s, Read(7)) && !FindsTask(s, Read(7))
  {
    hide Step, HeadAt, Head, Enabled, FindsTask, QueuesOnce;
    forall i: nat | i < |Head()|
      ensures Allowed(HeadAt(i), Head()[i], Found) && Step(HeadAt(i), Head()[i]) == HeadAt(i + 1)
    {
      HeadStep(i);
    }
    HeadRun();
    HeadEnds();
  }

  lemma HeadEnds()
    ensures Enabled(HeadAt(7), Read(7)) && !FindsTask(HeadAt(7), Read(7))
  {
  }

  lemma HeadRun()
    requires forall i: nat | i < |Head()| :: Allowed(HeadAt(i), Head()[i], Found) && Step(HeadAt(i), Head()[i]) == HeadAt(i + 1)
    ensures CanRun(Init(0), Head(), Found) && Run(Init(0), Head(), Found) == HeadAt(7)
  {
    hide Step, Enabled, FindsTask, QueuesOnce;
    RunThrough(seq(8, i requires 0 <= i < 8 => HeadAt(i)), Head());
  }

  // Tasks 1 and 2 wait, and both unlockers read task 1; then 8 removes it.
  function Both(): seq<Action> {
    [Enter(1), Enter(2), Increment(7), Check(7), Read(7), Increment(8), Check(8), Read(8), Remove(8)]
  }

  function BothAt(i: nat): State {
    match i
    case 0 => Init(0)
    case 1 => State(0, [1], {}, {}, {}, map[], map[], {}, 0, 0, 0, 0, [1], [])
    case 2 => State(0, [1, 2], {}, {}, {}, map[], map[], {}, 0, 0, 0, 0, [1, 2], [])
    case 3 => State(1, [1, 2], {}, {7}, {}, map[], map[], {}, 0, 1, 0, 0, [1, 2], [])
    case 4 => State(1, [1, 2], {}, {}, {7}, map[], map[], {}, 0, 1, 0, 0, [1, 2], [])
    case 5 => State(1, [1, 2], {}, {}, {}, map[7 := [1]], map[], {}, 0, 1, 0, 0, [1, 2], [])
    case 6 => State(2, [1, 2], {}, {8}, {}, map[7 := [1]], map[], {}, 0, 2, 0, 0, [1, 2], [])
    case 7 => State(2, [1, 2], {}, {}, {8}, map[7 := [1]], map[], {}, 0, 2, 0, 0, [1, 2], [])
    case 8 => State(2, [1, 2], {}, {}, {}, map[7 := [1], 8 := [1]], map[], {}, 0, 2, 0, 0, [1, 2], [])
    case _ => State(2, [2], {1}, {}, {}, map[7 := [1]], map[8 := 1], {1}, 0, 2, 0, 0, [1, 2], [1])
  }

  lemma BothStep(i: nat)
    requires i < |Both()|
    ensures Allowed(BothAt(i), Both()[i], Found) && Step(BothAt(i), Both()[i]) == BothAt(i + 1)
  {
    var both: seq<nat> := [1, 2];
    match i
    case 4 => assert both[..1] == [1] && {7} - {7} == {};
    case 7 => assert both[..1] == [1] && {8} - {8} == {};
    case 8 => assert Without<nat>(both, 1) == [2] && map[7 := [1], 8 := [1]] - {8} == map[7 := [1]];
    case _ =>
  }

  // What may follow.
  lemma BothThen(at: seq<State>, run: seq<Action>)
    requires |at| == |run| + 1 && at[0] == BothAt(9)
    requires forall i: nat | i < |run| :: Allowed(at[i], run[i], Found) && Step(at[i], run[i]) == at[i + 1]
    ensures CanRun(Init(0), Both() + run, Found) && Run(Init(0), Both() + run, Found) == at[|run|]
  {
    hide Step, BothAt, Enabled, FindsTask, QueuesOnce;
    var all := seq(9, i requires 0 <= i < 9 => BothAt(i)) + at;
    var steps := Both() + run;
    forall i: nat | i < |steps| ensures Allowed(all[i], steps[i], Found) && Step(all[i], steps[i]) == all[i + 1] {
      if i < 9 {
        BothStep(i);
      } else {
        var k: nat := i - 9;
        assert steps[i] == run[k] && all[i] == at[k] && all[i + 1] == at[k + 1];
      }
    }
    BothBegins();
    RunThrough(all, steps);
  }

  lemma BothBegins()
    ensures BothAt(0) == Init(0)
  {
  }

  // A LOST WAKEUP: 7 removes task 1 a second time. Task 1 takes one unit, and task 2 sleeps on although the
  // other unit is free and nobody is on the way any more.
  lemma OverlappingUnlocksLoseAWakeup()
    ensures CanRun(Init(0), Both() + [Queue(8), Remove(7), Queue(7), Resume(1)], Found)
    ensures var s := Run(Init(0), Both() + [Queue(8), Remove(7), Queue(7), Resume(1)], Found);
            s.waitList == [2] && s.count == 1 && s.woken == {} && Unlockers(s) == 0 && !NoLostWakeup(s)
  {
    hide Step, Allowed, NoLostWakeup, Unlockers, BothAt;
    var s := BothAt(9);
    var s1, s2 := s.(queueing := map[], off := {}), s.(picked := map[], queueing := map[7 := 1], off := {1});
    var s3 := s.(picked := map[], queueing := map[], off := {});
    var s4 := s3.(woken := {}, count := 1, downs := 1);
    LostStep1(s, s1);
    LostStep2(s1, s2);
    LostStep3(s2, s3);
    LostStep4(s3, s4);
    BothThen([s, s1, s2, s3, s4], [Queue(8), Remove(7), Queue(7), Resume(1)]);
  }

  lemma LostStep1(s: State, s': State)
    requires s == BothAt(9) && s' == s.(queueing := map[], off := {})
    ensures Allowed(s, Queue(8), Found) && Step(s, Queue(8)) == s'
  {
    var none: map<nat, nat> := map[];
    assert map[8 := 1] - {8} == none && {1} - {1} == {};
  }

  lemma LostStep2(s: State, s': State)
    requires s == BothAt(9).(queueing := map[], off := {})
    requires s' == BothAt(9).(picked := map[], queueing := map[7 := 1], off := {1})
    ensures Allowed(s, Remove(7), Found) && Step(s, Remove(7)) == s'
  {
    var nobody: map<nat, seq<nat>> := map[];
    assert map[7 := [1]] - {7} == nobody;
  }

  lemma LostStep3(s: State, s': State)
    requires s == BothAt(9).(picked := map[], queueing := map[7 := 1], off := {1})
    requires s' == BothAt(9).(picked := map[], queueing := map[], off := {})
    ensures Allowed(s, Queue(7), Found) && Step(s, Queue(7)) == s'
  {
    var none: map<nat, nat> := map[];
    assert map[7 := 1] - {7} == none && {1} - {1} == {};
  }

  lemma LostStep4(s: State, s': State)
    requires s == BothAt(9).(picked := map[], queueing := map[], off := {}) && s' == s.(woken := {}, count := 1, downs := 1)
    ensures Allowed(s, Resume(1), Found) && Step(s, Resume(1)) == s'
    ensures s'.waitList == [2] && s'.count == 1 && s'.woken == {} && Unlockers(s') == 0 && !NoLostWakeup(s')
  {
    assert {1} - {1} == {};
  }

  // A TASK QUEUED TWICE: 7 removes task 1 before 8 has queued it, and queues it after 8 has.
  lemma OverlappingUnlocksQueueTwice()
    ensures CanRun(Init(0), Both() + [Remove(7), Queue(8)], Found)
    ensures var s := Run(Init(0), Both() + [Remove(7), Queue(8)], Found);
            Enabled(s, Queue(7)) && !QueuesOnce(s, Queue(7)) && s.queueing[7] in s.woken
  {
    var nobody: map<nat, seq<nat>> := map[];
    var s := BothAt(9);
    assert map[7 := [1]] - {7} == nobody && {1} - {1} == {} && map[8 := 1][7 := 1] - {8} == map[7 := 1];
    BothThen([s,
      s.(picked := map[], queueing := map[8 := 1, 7 := 1], off := {1}),
      s.(picked := map[], queueing := map[7 := 1], off := {})],
      [Remove(7), Queue(8)]);
  }

  // A mutex is a semaphore of initial value one. If only holders unlock, at most one task holds it.
  lemma MutualExclusion(run: seq<Action>)
    requires CanRun(Init(1), run, Found)
    ensures Run(Init(1), run, Found).downs - Run(Init(1), run, Found).ups <= 1
  {
    RunIsSound(1, run);
  }

  // The steps of those on their way: unlockers and woken tasks.
  predicate Internal(a: Action) {
    a.Resume? || a.Check? || a.Read? || a.Remove? || a.Queue?
  }

  function Measure(s: State): nat {
    5 * |s.posted| + 4 * |s.looking| + 3 * |s.picked| + |s.queueing| + |s.woken|
  }

  lemma QueueingSizes(m: map<nat, nat>, u: nat, t: nat)
    ensures u in m ==> |m - {u}| == |m| - 1
    ensures u !in m ==> |m[u := t]| == |m| + 1
  {
    Sizes(m.Keys, u);
    assert (m - {u}).Keys == m.Keys - {u};
    assert m[u := t].Keys == m.Keys + {u};
  }

  lemma InternalStepCounts(s: State, a: Action)
    requires Tasks(s) && Enabled(s, a) && Internal(a)
    ensures Measure(Step(s, a)) < Measure(s)
  {
    match a
    case Resume(t) => Sizes(s.woken, t);
    case Check(u) =>
      Sizes(s.posted, u);
      Sizes(s.looking, u);
    case Read(u) =>
      Sizes(s.looking, u);
      PickedSizes(s.picked, u, Step(s, a).picked[u]);
    case Remove(u) =>
      PickedSizes(s.picked, u, []);
      QueueingSizes(s.queueing, u, s.picked[u][0]);
      Sizes(s.woken, s.picked[u][0]);
    case Queue(u) => QueueingSizes(s.queueing, u, 0);
  }

  lemma NobodyOnTheWay(s: State)
    requires Tasks(s) && forall a | Internal(a) :: !Enabled(s, a)
    ensures s.woken == {} && Unlockers(s) == 0
  {
    forall u ensures u !in s.posted { assert Internal(Check(u)); }
    forall u ensures u !in s.looking { assert Internal(Read(u)); }
    forall u ensures u !in s.picked { assert Internal(Remove(u)); }
    forall u ensures u !in s.queueing { assert Internal(Queue(u)); }
    assert s.off == {};
    forall t ensures t !in s.woken { assert Internal(Resume(t)); }
    assert s.picked.Keys == {};
  }

  // WHO IS ON THE WAY ARRIVES: when nothing else happens, those on their way take at most Measure steps. When
  // none of them can take another and no wakeup was lost, either nobody waits or the count is zero.
  lemma {:induction false} Settles(s: State, run: seq<Action>, d: Discipline)
    requires Invariant(s, d) && CanRun(s, run, d) && forall a | a in run :: Internal(a)
    ensures |run| <= Measure(s)
    ensures d != Found && (forall a | Internal(a) :: !Enabled(Run(s, run, d), a)) ==>
              Run(s, run, d).waitList == [] || Run(s, run, d).count == 0
    decreases |run|
  {
    if run == [] {
      if forall a | Internal(a) :: !Enabled(s, a) {
        NobodyOnTheWay(s);
      }
    } else {
      var a := run[0];
      assert a in run;
      InternalStepCounts(s, a);
      StepKeepsInvariant(s, a, d);
      Settles(Step(s, a), run[1..], d);
    }
  }

  lemma EntryIsTask(s: State, u: nat)
    requires Sound(s) && u in s.picked
    ensures |s.picked[u]| == 1 && Tasks(s) && FindsTask(s, Action.Remove(u))
  {
  }

  // struct semaphore
  class Semaphore {
    var count: nat
    var waitList: seq<nat>
    ghost var woken: set<nat>
    ghost var posted: set<nat>
    ghost var looking: set<nat>
    ghost var picked: map<nat, seq<nat>>
    ghost var queueing: map<nat, nat>
    ghost var off: set<nat>
    ghost var initial: nat
    ghost var ups: nat
    ghost var downs: nat
    ghost var idleUps: nat
    ghost var blocked: seq<nat>
    ghost var released: seq<nat>

    ghost function View(): State
      reads this
    {
      State(count, waitList, woken, posted, looking, picked, queueing, off, initial, ups, downs, idleUps, blocked, released)
    }

    // semaphore_init
    constructor (val: nat)
      requires val < WORD
      ensures View() == Init(val) && Invariant(View(), Serialised)
    {
      count, waitList := val, [];
      woken, posted, looking, picked, queueing, off := {}, {}, {}, map[], map[], {};
      initial, ups, downs, idleUps, blocked, released := val, 0, 0, 0, [], [];
      new;
      InitSound(val);
    }

    // One unit is taken if there is one; otherwise the task is last in the wait list.
    ghost predicate Attempted(t: nat, acquired: bool, oldCount: nat, oldList: seq<nat>)
      reads this`count, this`waitList
    {
      && (acquired <==> oldCount > 0)
      && count == (if oldCount > 0 then oldCount - 1 else 0)
      && waitList == if oldCount > 0 then oldList else oldList + [t]
    }

    // One turn of the loop in __semaphore_down_interruptible.
    method TryDown(t: nat) returns (acquired: bool)
      modifies this
      ensures View() == Attempt(old(View()), t)
      ensures Attempted(t, acquired, old(count), old(waitList))
    {
      acquired := count > 0;
      if count <= 0 {
        waitList, blocked := waitList + [t], blocked + [t];
      } else {
        count, downs := count - 1, downs + 1;
      }
    }

    method Lock(t: nat) returns (acquired: bool)
      requires Sound(View()) && Enabled(View(), Enter(t))
      modifies this
      ensures Sound(View()) && View() == Step(old(View()), Enter(t)) && acquired == (t !in waitList)
      ensures Attempted(t, acquired, old(count), old(waitList))
    {
      StepKeepsSound(View(), Enter(t));
      acquired := TryDown(t);
    }

    // Once woken, it goes round the loop again.
    method LockAgain(t: nat) returns (acquired: bool)
      requires Sound(View()) && Enabled(View(), Resume(t))
      modifies this
      ensures Sound(View()) && View() == Step(old(View()), Resume(t)) && acquired == (t !in waitList)
      ensures Attempted(t, acquired, old(count), old(waitList))
    {
      StepKeepsSound(View(), Resume(t));
      woken := woken - {t};
      acquired := TryDown(t);
    }

    // _semaphore_trylock
    method TryLock(t: nat) returns (acquired: bool)
      requires Sound(View())
      modifies this
      ensures Sound(View()) && View() == Step(old(View()), Trylock) && (acquired <==> downs == old(downs) + 1)
      ensures (acquired <==> old(count) > 0) && waitList == old(waitList)
      ensures count == if old(count) > 0 then old(count) - 1 else 0
    {
      StepKeepsSound(View(), Trylock);
      if count <= 0 {
        return false;
      }
      acquired := TryDown(t);
    }

    // semaphore_unlock: the increment,
    method Increment(ghost u: nat)
      requires Sound(View()) && Enabled(View(), Action.Increment(u))
      modifies this
      ensures Sound(View()) && View() == Step(old(View()), Action.Increment(u))
      ensures count == (old(count) + 1) % 0x1_0000_0000 && waitList == old(waitList)
    {
      StepKeepsSound(View(), Action.Increment(u));
      count := (count + 1) % WORD;
      ups, posted := ups + 1, posted + {u};
    }

    // the test of the list,
    method Check(ghost u: nat) returns (waiting: bool)
      requires Sound(View()) && Enabled(View(), Action.Check(u))
      modifies this
      ensures Sound(View()) && View() == Step(old(View()), Action.Check(u)) && (waiting <==> waitList != [])
    {
      StepKeepsSound(View(), Action.Check(u));
      waiting := waitList != [];
      posted := posted - {u};
      if waiting {
        looking := looking + {u};
      } else {
        idleUps := idleUps + 1;
      }
    }

    // the reading of its first entry, which is no task if the list is empty by now,
    method Read(ghost u: nat) returns (entry: seq<nat>)
      requires Sound(View()) && Enabled(View(), Action.Read(u))
      modifies this
      ensures View() == Step(old(View()), Action.Read(u)) && u in picked && picked[u] == entry
      ensures waitList == old(waitList) && entry == if waitList == [] then [] else [waitList[0]]
      ensures Sound(View()) <==> old(waitList) != []
    {
      if FindsTask(View(), Action.Read(u)) {
        StepKeepsSound(View(), Action.Read(u));
      }
      entry := if waitList == [] then [] else waitList[..1];
      looking, picked := looking - {u}, picked[u := entry];
    }

    // the list_del of that entry, wherever the task is by now,
    method Remove(ghost u: nat, entry: seq<nat>)
      requires Sound(View()) && u in picked && picked[u] == entry
      modifies this
      ensures Sound(View()) && View() == Step(old(View()), Action.Remove(u))
      ensures old(Safe(View()) && StillWaiting(View(), u)) ==> Safe(View())
      ensures |entry| == 1 && waitList == Without<nat>(old(waitList), entry[0]) && count == old(count)
    {
      hide Sound, Safe, FindsTask, StillWaiting, Step;
      ghost var was := View();
      EntryIsTask(was, u);
      StepKeepsSound(was, Action.Remove(u));
      if Safe(was) && StillWaiting(was, u) {
        StepKeepsSafe(was, Action.Remove(u));
      }
      Unlink(u, entry[0]);
    }

    method Unlink(ghost u: nat, t: nat)
      requires u in picked && picked[u] == [t]
      modifies this`waitList, this`woken, this`picked, this`queueing, this`off, this`released
      ensures View() == Step(old(View()), Action.Remove(u))
      ensures waitList == Without<nat>(old(waitList), t)
    {
      hide NoDup;
      if t in waitList {
        woken, released := woken + {t}, released + [t];
        waitList := Without<nat>(waitList, t);
      }
      HandOver(u, t);
    }

    ghost method HandOver(u: nat, t: nat)
      requires u in picked
      modifies this`picked, this`queueing, this`off
      ensures picked == old(picked) - {u} && queueing == old(queueing)[u := t] && off == old(off) + {t}
    {
      picked, queueing, off := picked - {u}, queueing[u := t], off + {t};
    }

    // and its enqueueing; the run queue is the scheduler's.
    ghost method Queue(u: nat)
      requires Sound(View()) && Enabled(View(), Action.Queue(u))
      modifies this
      ensures Sound(View()) && View() == Step(old(View()), Action.Queue(u))
    {
      StepKeepsSound(View(), Action.Queue(u));
      queueing, off := queueing - {u}, off - {queueing[u]};
    }
  }
}
