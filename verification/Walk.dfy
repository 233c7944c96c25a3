// The walks of drivers/greybus/greybus-core.c over tx_fifo, with list_foreach_safe of include/phabos/list.h: the
// next entry is saved before the current one is visited, while senders add entries and failing sends remove
// them.
module Walk {
  import opened Seqs

  const HEAD: nat := 0 // the list head; entries have other numbers

  // iter and next are the variables iter and niter of the macro; gone are the entries removed so far, which
  // are sent no second time.
  datatype State = State(tx: seq<nat>, iter: nat, next: nat, gone: set<nat>)

  datatype Action = Advance | Add(x: nat) | Remove(x: nat)

  function IndexOf(tx: seq<nat>, x: nat): (i: nat)
    requires x in tx
    ensures i < |tx| && tx[i] == x
  {
    if tx[0] == x then 0 else IndexOf(tx[1..], x) + 1
  }

  // The next pointer of an entry. list_del makes an entry its own successor.
  function Successor(tx: seq<nat>, x: nat): nat {
    if x == HEAD then (if tx == [] then HEAD else tx[0])
    else if x !in tx then x
    else
      var i := IndexOf(tx, x) + 1;
      if i < |tx| then tx[i] else HEAD
  }

  function Begin(tx: seq<nat>): State {
    var first := Successor(tx, HEAD);
    State(tx, first, Successor(tx, first), {})
  }

  predicate Enabled(s: State, a: Action) {
    match a
    case Advance => s.iter != HEAD
    case Add(x) => x != HEAD && x !in s.tx && x !in s.gone
    case Remove(x) => x in s.tx
  }

  function Step(s: State, a: Action): State {
    match a
    case Advance => s.(iter := s.next, next := Successor(s.tx, s.next))
    case Add(x) => s.(tx := s.tx + [x])
    case Remove(x) => s.(tx := Without<nat>(s.tx, x), gone := s.gone + {x})
  }

  // The entry saved as the next one leaves the list while the walk goes on.
  predicate TakesNext(s: State, a: Action) {
    a == Remove(s.next) && s.iter != HEAD
  }

  ghost predicate Sound(s: State) {
    NoDup<nat>(s.tx) && HEAD !in s.tx && HEAD !in s.gone && forall x | x in s.tx :: x !in s.gone
  }

  // The walk can go on from its saved entry.
  predicate Linked(s: State) {
    s.iter == HEAD || s.next == HEAD || s.next in s.tx
  }

  // It can not, and comes to the same entry for ever.
  predicate Stuck(s: State) {
    s.iter != HEAD && s.next in s.gone
  }

  // The visits to come, if nobody adds an entry.
  function Left(s: State): nat {
    if s.iter == HEAD then 0
    else if s.next == HEAD || s.next !in s.tx then 1
    else 1 + |s.tx| - IndexOf(s.tx, s.next)
  }

  lemma {:induction false} IndexUnique(tx: seq<nat>, i: nat)
    requires NoDup<nat>(tx) && i < |tx|
    ensures IndexOf(tx, tx[i]) == i
  {
    if i > 0 {
      IndexUnique(tx[1..], i - 1);
    }
  }

  lemma {:induction false} IndexAfterAdd(tx: seq<nat>, y: nat, x: nat)
    requires y in tx
    ensures IndexOf(tx + [x], y) == IndexOf(tx, y)
  {
    if tx[0] != y {
      IndexAfterAdd(tx[1..], y, x);
      assert (tx + [x])[1..] == tx[1..] + [x];
    }
  }

  // What is removed elsewhere does not put the saved entry further from the end.
  lemma {:induction false} DistanceAfterRemove(tx: seq<nat>, y: nat, x: nat)
    requires NoDup<nat>(tx) && y in tx && x in tx && x != y
    ensures y in Without<nat>(tx, x)
    ensures |Without<nat>(tx, x)| - IndexOf(Without<nat>(tx, x), y) <= |tx| - IndexOf(tx, y)
  {
    WithoutMembers<nat>(tx, x);
    if tx[0] != x {
      assert ([tx[0]] + Without<nat>(tx[1..], x))[1..] == Without<nat>(tx[1..], x);
      if tx[0] != y {
        DistanceAfterRemove(tx[1..], y, x);
      }
    }
  }

  lemma BeginIsLinked(tx: seq<nat>)
    requires NoDup<nat>(tx) && HEAD !in tx
    ensures Sound(Begin(tx)) && Linked(Begin(tx)) && Left(Begin(tx)) == |tx|
  {
    if |tx| > 0 {
      IndexUnique(tx, 0);
    }
    if |tx| > 1 {
      IndexUnique(tx, 1);
    }
  }

  lemma StepKeepsSound(s: State, a: Action)
    requires Sound(s) && Enabled(s, a)
    ensures Sound(Step(s, a))
  {
    match a
    case Add(x) => NoDupAppend<nat>(s.tx, x);
    case Remove(x) => WithoutMembers<nat>(s.tx, x);
    case Advance =>
  }

  function Cost(a: Action): int {
    match a case Advance => 1 case Add(_) => -1 case Remove(_) => 0
  }

  // Each visit brings the end nearer, and each new entry puts it off by one visit at most.
  lemma StepKeepsLinked(s: State, a: Action)
    requires Sound(s) && Linked(s) && Enabled(s, a) && !TakesNext(s, a)
    ensures Linked(Step(s, a)) && Left(Step(s, a)) + Cost(a) <= Left(s)
  {
    match a
    case Advance =>
      if s.next != HEAD {
        var i := IndexOf(s.tx, s.next) + 1;
        if i < |s.tx| {
          IndexUnique(s.tx, i);
        }
      }
    case Add(x) =>
      if s.next in s.tx {
        IndexAfterAdd(s.tx, s.next, x);
      }
    case Remove(x) =>
      if s.iter != HEAD && s.next != HEAD {
        DistanceAfterRemove(s.tx, s.next, x);
      }
  }

  lemma StepKeepsStuck(s: State, a: Action)
    requires Sound(s) && Enabled(s, a)
    ensures Stuck(s) || TakesNext(s, a) ==> Stuck(Step(s, a))
  {
  }

  // ----- whole runs -----

  ghost predicate CanRun(s: State, run: seq<Action>)
    decreases |run|
  {
    run == [] || (Enabled(s, run[0]) && CanRun(Step(s, run[0]), run[1..]))
  }

  function Run(s: State, run: seq<Action>): State
    decreases |run|
  {
    if run == [] then s else Run(Step(s, run[0]), run[1..])
  }

  // Somewhere in the run the saved entry is taken away.
  predicate LosesNext(s: State, run: seq<Action>)
    decreases |run|
  {
    run != [] && (TakesNext(s, run[0]) || LosesNext(Step(s, run[0]), run[1..]))
  }

  // The visits in the run, less the new entries.
  function TotalCost(run: seq<Action>): int {
    if run == [] then 0 else Cost(run[0]) + TotalCost(run[1..])
  }

  lemma {:induction false} StuckForEver(s: State, run: seq<Action>)
    requires Sound(s) && CanRun(s, run) && Stuck(s)
    ensures Stuck(Run(s, run))
    decreases |run|
  {
    if run != [] {
      StepKeepsSound(s, run[0]);
      StepKeepsStuck(s, run[0]);
      StuckForEver(Step(s, run[0]), run[1..]);
    }
  }

  lemma {:induction false} RunKeepsLinked(s: State, run: seq<Action>)
    requires Sound(s) && Linked(s) && CanRun(s, run)
    ensures LosesNext(s, run) ==> Stuck(Run(s, run))
    ensures !LosesNext(s, run) ==> Linked(Run(s, run)) && Left(Run(s, run)) + TotalCost(run) <= Left(s)
    decreases |run|
  {
    if run != [] {
      hide Sound, Linked, Stuck, TakesNext, Left, Enabled, Step;
      StepKeepsSound(s, run[0]);
      StepKeepsStuck(s, run[0]);
      if TakesNext(s, run[0]) {
        StuckForEver(Step(s, run[0]), run[1..]);
      } else {
        StepKeepsLinked(s, run[0]);
        RunKeepsLinked(Step(s, run[0]), run[1..]);
      }
    }
  }

  // WHEN A WALK ENDS: given as many visits as there were entries and more for those that are added, exactly if
  // the saved next entry is never taken away.
  lemma WalkEnds(tx: seq<nat>, run: seq<Action>)
    requires NoDup<nat>(tx) && HEAD !in tx && CanRun(Begin(tx), run)
    requires Run(Begin(tx), run).iter == HEAD || TotalCost(run) >= |tx|
    ensures Run(Begin(tx), run).iter == HEAD <==> !LosesNext(Begin(tx), run)
  {
    BeginIsLinked(tx);
    RunKeepsLinked(Begin(tx), run);
  }

  function Visits(k: nat): seq<Action> {
    if k == 0 then [] else [Advance] + Visits(k - 1)
  }

  // WHERE A WALK NEVER ENDS: of two entries the second one's send fails while the first is visited.
  lemma FailureEndsNoWalk(k: nat)
    ensures CanRun(Begin([1, 2]), [Remove(2)] + Visits(k))
    ensures Run(Begin([1, 2]), [Remove(2)] + Visits(k)).iter != HEAD
  {
    var s := State([1], 1, 2, {2});
    assert Begin([1, 2]) == State([1, 2], 1, 2, {});
    assert Without<nat>([1, 2], 2) == [1];
    assert Step(Begin([1, 2]), Remove(2)) == s;
    assert ([Remove(2)] + Visits(k))[1..] == Visits(k);
    RoundAndRound(s, k);
  }

  lemma {:induction false} RoundAndRound(s: State, k: nat)
    requires s.next !in s.tx && s.next != HEAD && s.iter != HEAD
    ensures CanRun(s, Visits(k)) && Run(s, Visits(k)).iter != HEAD
    decreases k
  {
    if k > 0 {
      assert ([Advance] + Visits(k - 1))[1..] == Visits(k - 1);
      RoundAndRound(Step(s, Advance), k - 1);
    }
  }
}
