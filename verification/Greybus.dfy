// drivers/greybus/greybus-core.c: the operations of one CPort. Requests wait in tx_fifo for a response or
// a timeout; a worker takes what was received from rx_fifo; operations are reference counted.
module Greybus {
  import opened Seqs

  const IDS: nat := 65535 // request ids run from 1 to 65535

  datatype Option<T> = None | Some(value: T)

  // struct gb_operation: `id` and `isResponse` are fields of its message header, `serial` is its
  // number among the requests of the bus that need a response.
  datatype Op = Op(refs: nat, id: nat, isResponse: bool, serial: nat, response: Option<nat>)

  type Ops = map<nat, Op>

  // ----- reference counts -----

  // The operations that have x as their response.
  function Parents(ops: Ops, x: nat): set<nat> {
    set p | p in ops && ops[p].response == Some(x)
  }

  // EVERY REFERENCE COUNT IS THE NUMBER OF HOLDERS, and an operation exists exactly as long as it has one.
  // `held` has an element for each reference that is not a response link.
  ghost predicate Balanced(ops: Ops, held: multiset<nat>) {
    forall x: nat ::
      (x in ops ==> ops[x].refs == held[x] + |Parents(ops, x)| > 0)
      && (x !in ops ==> held[x] == 0 && Parents(ops, x) == {})
  }

  // gb_operation_ref
  function Ref(ops: Ops, x: nat): Ops {
    if x in ops && ops[x].refs > 0 then ops[x := ops[x].(refs := ops[x].refs + 1)] else ops
  }

  // gb_operation_unref: the last reference gives the operation back and drops its response.
  function Unref(ops: Ops, x: nat): Ops
    decreases |ops|
  {
    if x !in ops || ops[x].refs == 0 then ops
    else if ops[x].refs > 1 then ops[x := ops[x].(refs := ops[x].refs - 1)]
    else
      var rest := ops - {x};
      var r := ops[x].response;
      if r == None then rest
      else
        assert |rest.Keys| < |ops.Keys| by { assert rest.Keys == ops.Keys - {x}; }
        Unref(rest, r.value)
  }

  // What an operation is apart from its count.
  predicate SameBut(a: Op, b: Op) {
    a.(refs := 0) == b.(refs := 0)
  }

  lemma ParentsSame(ops: Ops, ops': Ops, x: nat)
    requires ops.Keys == ops'.Keys && forall y | y in ops :: ops[y].response == ops'[y].response
    ensures Parents(ops, x) == Parents(ops', x)
  {
  }

  lemma CountChange(ops: Ops, held: multiset<nat>, x: nat, r: nat, held': multiset<nat>)
    requires Balanced(ops, held) && x in ops && r > 0
    requires held'[x] + ops[x].refs == held[x] + r && forall y: nat | y != x :: held'[y] == held[y]
    ensures Balanced(ops[x := ops[x].(refs := r)], held')
  {
    hide Parents;
    var ops' := ops[x := ops[x].(refs := r)];
    forall y: nat ensures Parents(ops, y) == Parents(ops', y) {
      ParentsSame(ops, ops', y);
    }
  }

  lemma RefKeepsBalance(ops: Ops, held: multiset<nat>, x: nat)
    requires Balanced(ops, held) && x in ops
    ensures Balanced(Ref(ops, x), held + multiset{x})
  {
    CountChange(ops, held, x, ops[x].refs + 1, held + multiset{x});
  }

  lemma CreateKeepsBalance(ops: Ops, held: multiset<nat>, x: nat, op: Op)
    requires Balanced(ops, held) && x !in ops && op.refs == 1 && op.response == None
    ensures Balanced(ops[x := op], held + multiset{x})
  {
    forall y: nat ensures Parents(ops[x := op], y) == Parents(ops, y) {
    }
  }

  lemma ParentsAfterLink(ops: Ops, p: nat, r: nat, y: nat)
    requires p in ops && ops[p].response == None
    ensures Parents(ops[p := ops[p].(response := Some(r))], y) == if y == r then Parents(ops, y) + {p} else Parents(ops, y)
    ensures p !in Parents(ops, y)
  {
  }

  // A held reference becomes a response link.
  lemma LinkKeepsBalance(ops: Ops, held: multiset<nat>, p: nat, r: nat)
    requires Balanced(ops, held) && p in ops && ops[p].response == None && held[r] > 0
    ensures Balanced(ops[p := ops[p].(response := Some(r))], held - multiset{r})
  {
    hide Parents;
    var ops' := ops[p := ops[p].(response := Some(r))];
    forall y: nat
      ensures Parents(ops', y) == if y == r then Parents(ops, y) + {p} else Parents(ops, y)
    {
      ParentsAfterLink(ops, p, r, y);
    }
    ParentsAfterLink(ops, p, r, r);
    assert |Parents(ops, r) + {p}| == |Parents(ops, r)| + 1;
  }

  lemma ParentsWithout(ops: Ops, x: nat, y: nat)
    requires x in ops
    ensures Parents(ops - {x}, y) == Parents(ops, y) - {x}
    ensures x in Parents(ops, y) <==> ops[x].response == Some(y)
  {
  }

  // The last reference goes: what is left is balanced if its response link counts as held.
  lemma LastGoes(ops: Ops, held: multiset<nat>, x: nat)
    requires Balanced(ops, held) && held[x] > 0 && x in ops && ops[x].refs == 1
    ensures ops[x].response == None ==> Balanced(ops - {x}, held - multiset{x})
    ensures ops[x].response.Some? ==> Balanced(ops - {x}, held - multiset{x} + multiset{ops[x].response.value})
    ensures ops[x].response.Some? ==> ops[x].response.value in ops - {x} && ops[ops[x].response.value].refs > 0
  {
    hide Parents;
    var rest := ops - {x};
    var r := ops[x].response;
    assert |Parents(ops, x)| == 0 && Parents(ops, x) == {};
    forall y: nat
      ensures Parents(rest, y) == if r == Some(y) then Parents(ops, y) - {x} else Parents(ops, y)
      ensures x in Parents(ops, y) <==> r == Some(y)
    {
      ParentsWithout(ops, x, y);
    }
    if r.Some? {
      assert x in Parents(ops, r.value);
      assert |Parents(ops, r.value) - {x}| == |Parents(ops, r.value)| - 1;
    }
  }

  lemma {:induction false} UnrefKeepsBalance(ops: Ops, held: multiset<nat>, x: nat)
    requires Balanced(ops, held) && held[x] > 0
    ensures x in ops && Balanced(Unref(ops, x), held - multiset{x})
    decreases |ops|
  {
    if ops[x].refs > 1 {
      CountChange(ops, held, x, ops[x].refs - 1, held - multiset{x});
    } else {
      LastGoes(ops, held, x);
      var rest, r := ops - {x}, ops[x].response;
      assert rest.Keys == ops.Keys - {x};
      assert |rest.Keys| < |ops.Keys|;
      if r.Some? {
        var held' := held - multiset{x} + multiset{r.value};
        UnrefKeepsBalance(rest, held', r.value);
        assert held' - multiset{r.value} == held - multiset{x};
      }
    }
  }

  // Nothing but counts changes in those that remain.
  lemma {:induction false} UnrefFrame(ops: Ops, x: nat)
    ensures forall y | y in Unref(ops, x) :: y in ops && SameBut(ops[y], Unref(ops, x)[y])
    decreases |ops|
  {
    if x in ops && ops[x].refs == 1 {
      var rest, r := ops - {x}, ops[x].response;
      assert rest.Keys == ops.Keys - {x};
      assert |rest.Keys| < |ops.Keys|;
      if r.Some? {
        UnrefFrame(rest, r.value);
      }
    }
  }

  // ----- request ids -----

  const ID_SPACE: nat := 0x1_0000      // the header's field has 16 bits
  const COUNTER: nat := 0x1_0000_0000  // the bus counts in 32 bits

  // The counter after a request: an id of zero is skipped.
  function NextCounter(c: nat): nat {
    var d := (c + 1) % COUNTER;
    if d % ID_SPACE == 0 then (d + 1) % COUNTER else d
  }

  function CounterAfter(n: nat): nat {
    if n == 0 then 0 else NextCounter(CounterAfter(n - 1))
  }

  // The id of request number n, counted from zero.
  function IdOf(n: nat): nat {
    CounterAfter(n + 1) % ID_SPACE
  }

  lemma NextId(c: nat)
    requires c < COUNTER
    ensures NextCounter(c) < COUNTER
    ensures NextCounter(c) % ID_SPACE == if c % ID_SPACE == IDS then 1 else c % ID_SPACE + 1
  {
    LowBits(c + 1);
    LowBits((c + 1) % COUNTER + 1);
    NextLowBits(c);
    NextLowBits(c + 1);
  }

  lemma NextLowBits(c: nat)
    ensures (c + 1) % ID_SPACE == if c % ID_SPACE == IDS then 0 else c % ID_SPACE + 1
  {
  }

  lemma LowBits(c: nat)
    ensures c % COUNTER % ID_SPACE == c % ID_SPACE
  {
  }

  lemma ModStep(n: nat)
    ensures (n + 1) % IDS == if n % IDS + 1 == IDS then 0 else n % IDS + 1
  {
  }

  lemma ModDiffer(i: nat, j: nat)
    requires i < j < i + IDS
    ensures i % IDS != j % IDS
  {
    var q, r := i / IDS, j / IDS;
    assert i == q * IDS + i % IDS && j == r * IDS + j % IDS;
  }

  lemma ModPeriod(i: nat)
    ensures (i + IDS) % IDS == i % IDS
  {
  }

  lemma CounterUnfold(n: nat)
    ensures CounterAfter(0) == 0 && CounterAfter(n + 1) == NextCounter(CounterAfter(n))
  {
  }

  // Ids go round from 1 to 65535, across every wraparound of the counter.
  lemma {:induction false} IdFormula(n: nat)
    ensures CounterAfter(n + 1) < COUNTER && IdOf(n) == n % IDS + 1
  {
    hide NextCounter, CounterAfter;
    CounterUnfold(n);
    if n == 0 {
      NextId(0);
    } else {
      IdFormula(n - 1);
      ModStep(n - 1);
      NextId(CounterAfter(n));
    }
  }

  // Any 65535 consecutive ids are different and none of them is zero; the next one is a repetition.
  lemma IdsDiffer(i: nat, j: nat)
    requires i < j
    ensures 0 < IdOf(i) < ID_SPACE
    ensures j - i < IDS ==> IdOf(i) != IdOf(j)
    ensures IdOf(i + IDS) == IdOf(i)
  {
    hide IdOf, CounterAfter;
    IdFormula(i);
    IdFormula(j);
    IdFormula(i + IDS);
    ModPeriod(i);
    if j - i < IDS {
      ModDiffer(i, j);
    }
  }

  // ----- the operations of a CPort -----

  // rx_fifo holds received operations and, at most once, the marker of a timeout.
  datatype Entry = Message(op: nat) | TimeoutMark

  // Where gb_pending_message_worker is. It waits; it has come through the semaphore; it walks through
  // tx_fifo, for response r or, with None, for timeouts; it stands at operation p of that list; it has found
  // that p matches or has expired; it has taken p off the list; it has called p's callback; it is done with
  // the operation it received. A received request is handled at the end of a walk that does not begin.
  datatype Worker =
    | Idle
    | Awake
    | Walking(r: Option<nat>)
    | At(p: nat, r: Option<nat>)
    | Picked(p: nat, r: Option<nat>)
    | Unlisted(p: nat, r: Option<nat>)
    | Called(p: nat, r: Option<nat>)
    | Done(op: nat)

  // The life of an operation: made here and not sent, in tx_fifo, taken off it by the worker, answered, timed
  // out, failed to be sent; or received.
  datatype Phase = Fresh | Waiting | Taken | Answered(response: nat) | TimedOut | Failed | Received

  datatype Control = Control(
    users: multiset<nat>,  // references of the rest of the system, the creator's among them
    tx: seq<nat>,
    rx: seq<Entry>,
    sem: nat,              // the count of rx_fifo_semaphore
    worker: Worker,
    sending: set<nat>,     // operations between the list_add and the end of gb_operation_send_request
    sent: set<nat>,        // operations that were sent successfully
    issued: nat,           // requests on the bus that need a response
    phase: map<nat, Phase>,
    log: seq<nat>)         // operations whose callback was called

  datatype State = State(ops: Ops, c: Control)

  datatype Action =
    | Create(x: nat)                                // gb_operation_create
    | Hold(x: nat)                                  // gb_operation_ref by a holder
    | Release(x: nat)                               // gb_operation_unref or gb_operation_destroy by a holder
    | Prepare(x: nat)                               // gb_operation_send_request, up to unipro_send
    | SendDone(x: nat, ok: bool)                    // the rest, after unipro_send
    | OtherRequest                                  // a request on another CPort of the bus
    | Receive(x: nat, id: nat, isResponse: bool)    // greybus_rx_handler
    | Timeout                                       // gb_operation_timeout
    | Down                                          // the worker: semaphore_lock,
    | Take                                          // the list_del on rx_fifo,
    | Reach(q: nat)                                 // the walk comes to an operation,
    | Compare(yes: bool)                            // compares ids or looks at the clock,
    | Unlist                                        // list_del,
    | Call                                          // attaches the response and calls the callback,
    | Drop                                          // gb_operation_unref,
    | EndWalk                                       // the end of the walk or of the request's handler,
    | Destroy                                       // gb_operation_destroy

  function InRx(rx: seq<Entry>): multiset<nat> {
    if rx == [] then multiset{}
    else (if rx[0].Message? then multiset{rx[0].op} else multiset{}) + InRx(rx[1..])
  }

  function HoldsResponse(r: Option<nat>): multiset<nat> {
    if r.Some? then multiset{r.value} else multiset{}
  }

  // tx_fifo's reference passes to the worker with the list_del. If a picked operation is not in tx_fifo any
  // more, the worker goes on all the same as if it held that reference.
  function WorkerHeld(c: Control): multiset<nat> {
    match c.worker
    case Walking(r) => HoldsResponse(r)
    case At(p, r) => HoldsResponse(r)
    case Picked(p, r) => HoldsResponse(r) + if p in c.tx then multiset{} else multiset{p}
    case Unlisted(p, r) => HoldsResponse(r) + multiset{p}
    case Called(p, r) => HoldsResponse(r) + multiset{p}
    case Done(x) => multiset{x}
    case _ => multiset{}
  }

  // All references that are not response links.
  function Held(c: Control): multiset<nat> {
    c.users + multiset(c.tx) + InRx(c.rx) + WorkerHeld(c)
  }

  predicate WasCompleted(p: Phase) {
    p.Answered? || p.TimedOut?
  }

  // The received operation that the worker has in hand.
  function InHand(w: Worker): Option<nat> {
    match w
    case Walking(r) => r
    case At(p, r) => r
    case Picked(p, r) => r
    case Unlisted(p, r) => r
    case Called(p, r) => r
    case Done(x) => Some(x)
    case _ => None
  }

  // ----- the invariant -----

  ghost predicate TxOk(c: Control) {
    && NoDup<nat>(c.tx)
    && (forall x: nat :: x in c.tx <==> x in c.phase && c.phase[x] == Waiting)
  }

  // Every callback was called once, for an operation that is complete.
  ghost predicate LogOk(c: Control) {
    && NoDup<nat>(c.log)
    && (forall x: nat :: x in c.log <==> x in c.phase && WasCompleted(c.phase[x]))
  }

  ghost predicate RxOk(c: Control) {
    && c.sem + (if c.worker == Awake then 1 else 0) == |c.rx|
    && (forall i | 0 <= i < |c.rx| && c.rx[i].Message? :: c.rx[i].op in c.phase && c.phase[c.rx[i].op] == Received)
    && (forall i, j | 0 <= i < j < |c.rx| :: !(c.rx[i] == TimeoutMark && c.rx[j] == TimeoutMark))
  }

  ghost predicate WorkerOk(c: Control) {
    var w := c.worker;
    && (InHand(w).Some? ==> InHand(w).value in c.phase && c.phase[InHand(w).value] == Received)
    && (w.At? ==> w.p in c.phase && c.phase[w.p] != Received)
    && (w.Picked? ==> w.p in c.phase && c.phase[w.p] == Waiting)
    && (forall x: nat | x in c.phase && c.phase[x] == Taken :: w.Unlisted? && w.p == x)
    && (w.Unlisted? ==> w.p in c.phase && c.phase[w.p] == Taken)
    && (w.Called? ==> w.p in c.phase && WasCompleted(c.phase[w.p]))
    && (forall x: nat | x in c.phase && c.phase[x].Answered? ::
          c.phase[x].response in c.phase && c.phase[c.phase[x].response] == Received)
  }

  ghost predicate SendOk(c: Control) {
    && (forall x | x in c.sending :: x in c.phase && c.phase[x] != Fresh && c.phase[x] != Received)
    && (forall x | x in c.sending :: c.phase[x] != Failed && x !in c.sent)
    && (forall x | x in c.sent :: x in c.phase && (c.phase[x] == Waiting || c.phase[x] == Taken || WasCompleted(c.phase[x])))
    && (forall x | x in c.phase && (c.phase[x] == Waiting || c.phase[x] == Taken) :: x in c.sending || x in c.sent)
  }

  // An operation has its response exactly when it was answered.
  ghost predicate ResponsesOk(ops: Ops, phase: map<nat, Phase>) {
    forall x | x in ops ::
      x in phase && ops[x].response == if phase[x].Answered? then Some(phase[x].response) else None
  }

  ghost predicate IdsOk(ops: Ops, c: Control) {
    && (forall x | x in c.tx && x in ops :: ops[x].id == IdOf(ops[x].serial) && ops[x].serial < c.issued)
    && (forall x, y | x in c.tx && y in c.tx && x in ops && y in ops && x != y :: ops[x].serial != ops[y].serial)
  }

  ghost predicate ControlOk(c: Control) {
    TxOk(c) && LogOk(c) && RxOk(c) && WorkerOk(c) && SendOk(c)
  }

  ghost predicate Invariant(s: State) {
    ControlOk(s.c) && Balanced(s.ops, Held(s.c)) && ResponsesOk(s.ops, s.c.phase) && IdsOk(s.ops, s.c)
  }

  // Whether the id of request p is that of response r. What was given back may compare either way.
  predicate SameId(ops: Ops, p: nat, r: nat, yes: bool) {
    p in ops && r in ops ==> (yes <==> ops[p].id == ops[r].id)
  }

  // A walk goes on to the entry that it saved as the next one, which may have left tx_fifo since.
  predicate WasQueued(c: Control, q: nat) {
    q in c.phase && c.phase[q] != Fresh && c.phase[q] != Received
  }

  ghost predicate Enabled(s: State, a: Action) {
    var c, w := s.c, s.c.worker;
    match a
    case Create(x) => x !in c.phase
    case Hold(x) => c.users[x] > 0
    case Release(x) => c.users[x] > 0
    case Prepare(x) => x in c.phase && c.phase[x] == Fresh && c.users[x] > 0
    case SendDone(x, ok) => x in c.sending
    case OtherRequest => true
    case Receive(x, id, isResponse) => x !in c.phase
    case Timeout => true
    case Down => w == Idle && c.sem > 0
    case Take => w == Awake
    case Reach(q) => w.Walking? && WasQueued(c, q) && (w.r.Some? ==> w.r.value in s.ops && s.ops[w.r.value].isResponse)
    case Compare(yes) => w.At? && (w.r.Some? ==> SameId(s.ops, w.p, w.r.value, yes))
    case Unlist => w.Picked?
    case Call => w.Unlisted?
    case Drop => w.Called?
    case EndWalk => w.Walking?
    case Destroy => w.Done?
  }

  // After a walk for timeouts the worker is idle again; after one for a response, the response is let go.
  function AfterWalk(r: Option<nat>): Worker {
    if r.Some? then Done(r.value) else Idle
  }

  // The effect on everything but the operations themselves.
  function ControlStep(c: Control, a: Action): Control {
    var w := c.worker;
    match a
    case Create(x) => c.(users := c.users + multiset{x}, phase := c.phase[x := Fresh])
    case Hold(x) => c.(users := c.users + multiset{x})
    case Release(x) => c.(users := c.users - multiset{x})
    case Prepare(x) =>
      c.(tx := c.tx + [x], sending := c.sending + {x}, issued := c.issued + 1, phase := c.phase[x := Waiting])
    case SendDone(x, ok) =>
      var c' := c.(sending := c.sending - {x});
      if ok then c'.(sent := c.sent + {x})
      else if x in c.tx then c'.(tx := Without<nat>(c.tx, x), phase := c.phase[x := Failed])
      else c'
    case OtherRequest => c.(issued := c.issued + 1)
    case Receive(x, id, isResponse) =>
      c.(rx := c.rx + [Message(x)], sem := c.sem + 1, phase := c.phase[x := Received])
    case Timeout => if TimeoutMark in c.rx then c else c.(rx := c.rx + [TimeoutMark], sem := c.sem + 1)
    case Down => c.(sem := if c.sem > 0 then c.sem - 1 else 0, worker := Awake)
    case Take =>
      if c.rx == [] then c
      else c.(rx := c.rx[1..], worker := Walking(if c.rx[0].Message? then Some(c.rx[0].op) else None))
    case Reach(q) => if w.Walking? then c.(worker := At(q, w.r)) else c
    case Compare(yes) => if w.At? then c.(worker := if yes then Picked(w.p, w.r) else Walking(w.r)) else c
    case Unlist =>
      if w.Picked?
      then c.(tx := Without<nat>(c.tx, w.p), phase := c.phase[w.p := Taken], worker := Unlisted(w.p, w.r))
      else c
    case Call =>
      if w.Unlisted?
      then c.(phase := c.phase[w.p := if w.r.Some? then Answered(w.r.value) else TimedOut],
              log := c.log + [w.p], worker := Called(w.p, w.r))
      else c
    case Drop => if w.Called? then c.(worker := if w.r.Some? then Done(w.r.value) else Walking(None)) else c
    case EndWalk => if w.Walking? then c.(worker := AfterWalk(w.r)) else c
    case Destroy => c.(worker := Idle)
  }

  function Link(ops: Ops, p: nat, r: nat): Ops {
    if p in ops then ops[p := ops[p].(response := Some(r))] else ops
  }

  function Number(ops: Ops, x: nat, serial: nat): Ops {
    if x in ops then ops[x := ops[x].(id := IdOf(serial), serial := serial)] else ops
  }

  function OpsStep(s: State, a: Action): Ops {
    var w := s.c.worker;
    match a
    case Create(x) => s.ops[x := Op(1, 0, false, 0, None)]
    case Receive(x, id, isResponse) => s.ops[x := Op(1, id, isResponse, 0, None)]
    case Hold(x) => Ref(s.ops, x)
    case Release(x) => Unref(s.ops, x)
    case Prepare(x) => Ref(Number(s.ops, x, s.c.issued), x)
    case SendDone(x, ok) => if ok then s.ops else Unref(s.ops, x)
    case Call => if w.Unlisted? && w.r.Some? then Link(Ref(s.ops, w.r.value), w.p, w.r.value) else s.ops
    case Drop => if w.Called? then Unref(s.ops, w.p) else s.ops
    case Destroy => if w.Done? then Unref(s.ops, w.op) else s.ops
    case _ => s.ops
  }

  function Step(s: State, a: Action): State {
    State(OpsStep(s, a), ControlStep(s.c, a))
  }

  // A failing send finds its request in tx_fifo and not picked by the worker; an operation that the worker
  // picks is still in tx_fifo.
  predicate NoRace(c: Control, a: Action) {
    && (a.SendDone? && !a.ok ==> a.x in c.tx && !(c.worker.Picked? && c.worker.p == a.x))
    && (a.Compare? && a.yes && c.worker.At? ==> c.worker.p in c.tx)
  }

  // ----- the control part keeps its invariant -----

  // Steps of the rest of the system, of the receive path, and those of the worker.
  predicate ByWorker(a: Action) {
    a.Down? || a.Take? || a.Reach? || a.Compare? || a.Unlist? || a.Call? || a.Drop? || a.EndWalk? || a.Destroy?
  }

  lemma PrepareKeepsOk(c: Control, x: nat)
    requires ControlOk(c) && x in c.phase && c.phase[x] == Fresh
    ensures ControlOk(ControlStep(c, Prepare(x)))
  {
    NoDupAppend<nat>(c.tx, x);
  }

  lemma SendDoneKeepsTx(c: Control, x: nat, ok: bool)
    requires ControlOk(c) && x in c.sending && NoRace(c, SendDone(x, ok))
    ensures TxOk(ControlStep(c, SendDone(x, ok))) && LogOk(ControlStep(c, SendDone(x, ok)))
  {
    hide SendOk, RxOk, WorkerOk;
    WithoutMembers<nat>(c.tx, x);
  }

  lemma SendDoneKeepsSend(c: Control, x: nat, ok: bool)
    requires ControlOk(c) && x in c.sending && NoRace(c, SendDone(x, ok))
    ensures SendOk(ControlStep(c, SendDone(x, ok)))
  {
    hide NoDup, Without, LogOk, RxOk, WorkerOk;
  }

  lemma SendDoneKeepsRx(c: Control, x: nat, ok: bool)
    requires ControlOk(c) && x in c.sending && NoRace(c, SendDone(x, ok))
    ensures RxOk(ControlStep(c, SendDone(x, ok))) && WorkerOk(ControlStep(c, SendDone(x, ok)))
  {
    hide NoDup, Without, LogOk, SendOk;
  }

  lemma OthersKeepTx(s: State, a: Action)
    requires ControlOk(s.c) && Enabled(s, a) && !ByWorker(a) && !a.Prepare? && !a.SendDone?
    ensures TxOk(ControlStep(s.c, a)) && LogOk(ControlStep(s.c, a))
  {
    hide SendOk, RxOk, WorkerOk, NoDup, Without;
    if a.Receive? {
      NewKeepsTx(s.c, a.x, Received, ControlStep(s.c, a));
    } else if a.Create? {
      NewKeepsTx(s.c, a.x, Fresh, ControlStep(s.c, a));
    }
  }

  lemma NewKeepsTx(c: Control, x: nat, phase: Phase, c': Control)
    requires TxOk(c) && LogOk(c) && x !in c.phase && (phase == Received || phase == Fresh)
    requires c'.tx == c.tx && c'.log == c.log && c'.phase == c.phase[x := phase]
    ensures TxOk(c') && LogOk(c')
  {
    hide NoDup;
  }

  lemma OthersKeepRx(s: State, a: Action)
    requires ControlOk(s.c) && Enabled(s, a) && !ByWorker(a) && !a.Prepare? && !a.SendDone?
    ensures RxOk(ControlStep(s.c, a)) && WorkerOk(ControlStep(s.c, a))
  {
    hide TxOk, LogOk, SendOk, RxOk, WorkerOk, Without, WasQueued, ControlStep;
    match a
    case Receive(x, id, isResponse) => ReceiveKeepsRx(s, x, id, isResponse);
    case Timeout => TimeoutKeepsRx(s.c);
    case Create(x) => CreateKeepsRx(s, x);
    case _ => FewKeepRx(s, a);
  }

  lemma ReceiveKeepsRx(s: State, x: nat, id: nat, isResponse: bool)
    requires ControlOk(s.c) && x !in s.c.phase
    ensures RxOk(ControlStep(s.c, Receive(x, id, isResponse))) && WorkerOk(ControlStep(s.c, Receive(x, id, isResponse)))
  {
    hide TxOk, LogOk, SendOk;
  }

  lemma TimeoutKeepsRx(c: Control)
    requires ControlOk(c)
    ensures RxOk(ControlStep(c, Timeout)) && WorkerOk(ControlStep(c, Timeout))
  {
    hide TxOk, LogOk, SendOk;
  }

  lemma CreateKeepsRx(s: State, x: nat)
    requires ControlOk(s.c) && x !in s.c.phase
    ensures RxOk(ControlStep(s.c, Create(x))) && WorkerOk(ControlStep(s.c, Create(x)))
  {
    hide TxOk, LogOk, SendOk;
  }

  lemma FewKeepRx(s: State, a: Action)
    requires ControlOk(s.c) && Enabled(s, a) && (a.Hold? || a.Release? || a.OtherRequest?)
    ensures RxOk(ControlStep(s.c, a)) && WorkerOk(ControlStep(s.c, a))
  {
    hide TxOk, LogOk, SendOk;
  }

  lemma OthersKeepSend(s: State, a: Action)
    requires ControlOk(s.c) && Enabled(s, a) && !ByWorker(a) && !a.Prepare? && !a.SendDone?
    ensures SendOk(ControlStep(s.c, a))
  {
    hide NoDup, LogOk, RxOk;
  }

  lemma UnlistKeepsTx(c: Control)
    requires ControlOk(c) && c.worker.Picked?
    ensures TxOk(ControlStep(c, Unlist)) && LogOk(ControlStep(c, Unlist))
  {
    hide SendOk, RxOk;
    WithoutMembers<nat>(c.tx, c.worker.p);
  }

  lemma UnlistKeepsRest(c: Control)
    requires ControlOk(c) && c.worker.Picked?
    ensures RxOk(ControlStep(c, Unlist)) && WorkerOk(ControlStep(c, Unlist)) && SendOk(ControlStep(c, Unlist))
  {
    hide NoDup, Without, LogOk;
  }

  lemma CallKeepsTx(c: Control)
    requires ControlOk(c) && c.worker.Unlisted?
    ensures TxOk(ControlStep(c, Call)) && LogOk(ControlStep(c, Call))
  {
    hide SendOk, RxOk;
    NoDupAppend<nat>(c.log, c.worker.p);
  }

  lemma CallKeepsRest(c: Control)
    requires ControlOk(c) && c.worker.Unlisted?
    ensures RxOk(ControlStep(c, Call)) && WorkerOk(ControlStep(c, Call)) && SendOk(ControlStep(c, Call))
  {
    hide NoDup, LogOk;
  }

  lemma MovesKeepTx(s: State, a: Action)
    requires ControlOk(s.c) && Enabled(s, a) && NoRace(s.c, a) && ByWorker(a) && !a.Unlist? && !a.Call?
    ensures TxOk(ControlStep(s.c, a)) && LogOk(ControlStep(s.c, a))
  {
    hide SendOk, RxOk, WorkerOk;
  }

  lemma MovesKeepRx(s: State, a: Action)
    requires ControlOk(s.c) && Enabled(s, a) && NoRace(s.c, a) && ByWorker(a) && !a.Unlist? && !a.Call?
    ensures RxOk(ControlStep(s.c, a)) && WorkerOk(ControlStep(s.c, a))
  {
    hide NoDup, LogOk, SendOk;
  }

  lemma MovesKeepSend(s: State, a: Action)
    requires ControlOk(s.c) && Enabled(s, a) && NoRace(s.c, a) && ByWorker(a) && !a.Unlist? && !a.Call?
    ensures SendOk(ControlStep(s.c, a))
  {
    hide NoDup, LogOk, RxOk;
  }

  lemma ControlStepKeepsOk(s: State, a: Action)
    requires ControlOk(s.c) && Enabled(s, a) && NoRace(s.c, a)
    ensures ControlOk(ControlStep(s.c, a))
  {
    hide TxOk, LogOk, RxOk, WorkerOk, SendOk, ControlStep;
    match a
    case Prepare(x) => PrepareKeepsOk(s.c, x);
    case SendDone(x, ok) =>
      SendDoneKeepsTx(s.c, x, ok);
      SendDoneKeepsSend(s.c, x, ok);
      SendDoneKeepsRx(s.c, x, ok);
    case Unlist =>
      UnlistKeepsTx(s.c);
      UnlistKeepsRest(s.c);
    case Call =>
      CallKeepsTx(s.c);
      CallKeepsRest(s.c);
    case _ =>
      if ByWorker(a) {
        MovesKeepTx(s, a);
        MovesKeepRx(s, a);
        MovesKeepSend(s, a);
      } else {
        OthersKeepTx(s, a);
        OthersKeepRx(s, a);
        OthersKeepSend(s, a);
      }
  }

  // ----- every step keeps the references balanced -----

  lemma {:induction false} ReceivedAppend(rx: seq<Entry>, e: Entry)
    ensures InRx(rx + [e]) == InRx(rx) + if e.Message? then multiset{e.op} else multiset{}
  {
    if rx == [] {
      assert rx + [e] == [e] && [e][1..] == [];
    } else {
      assert (rx + [e])[1..] == rx[1..] + [e];
      ReceivedAppend(rx[1..], e);
    }
  }

  lemma {:induction false} TakenOut(tx: seq<nat>, x: nat)
    requires x in tx
    ensures multiset(Without<nat>(tx, x)) == multiset(tx) - multiset{x}
  {
    assert tx == [tx[0]] + tx[1..];
    if tx[0] != x {
      TakenOut(tx[1..], x);
    }
  }

  // Each action changes the held references as it should.
  ghost function HeldStep(s: State, a: Action): multiset<nat> {
    var h, w := Held(s.c), s.c.worker;
    match a
    case Create(x) => h + multiset{x}
    case Receive(x, _, _) => h + multiset{x}
    case Hold(x) => h + multiset{x}
    case Release(x) => h - multiset{x}
    case Prepare(x) => h + multiset{x}
    case SendDone(x, ok) => if ok then h else h - multiset{x}
    case Drop => if w.Called? then h - multiset{w.p} else h
    case Destroy => if w.Done? then h - multiset{w.op} else h
    case _ => h
  }

  lemma LessByUser(u: multiset<nat>, t: multiset<nat>, r: multiset<nat>, w: multiset<nat>, x: nat)
    requires u[x] > 0
    ensures u - multiset{x} + t + r + w == u + t + r + w - multiset{x}
  {
  }

  lemma LessByTx(u: multiset<nat>, t: multiset<nat>, r: multiset<nat>, w: multiset<nat>, x: nat)
    requires t[x] > 0
    ensures u + (t - multiset{x}) + r + w == u + t + r + w - multiset{x}
  {
  }

  lemma FromTxToWorker(u: multiset<nat>, t: multiset<nat>, r: multiset<nat>, w: multiset<nat>, x: nat)
    requires t[x] > 0
    ensures u + (t - multiset{x}) + r + (w + multiset{x}) == u + t + r + w
  {
  }

  lemma LessByWorker(u: multiset<nat>, t: multiset<nat>, r: multiset<nat>, w: multiset<nat>, x: nat)
    ensures u + t + r + (w + multiset{x}) - multiset{x} == u + t + r + w
  {
  }

  lemma MoreByUser(u: multiset<nat>, t: multiset<nat>, r: multiset<nat>, w: multiset<nat>, x: nat)
    ensures u + multiset{x} + t + r + w == u + t + r + w + multiset{x}
  {
  }

  lemma MoreByTx(u: multiset<nat>, t: multiset<nat>, r: multiset<nat>, w: multiset<nat>, x: nat)
    ensures u + (t + multiset{x}) + r + w == u + t + r + w + multiset{x}
  {
  }

  lemma MoreByRx(u: multiset<nat>, t: multiset<nat>, r: multiset<nat>, w: multiset<nat>, x: nat)
    ensures u + t + (r + multiset{x}) + w == u + t + r + w + multiset{x}
  {
  }

  lemma MoreByWorker(u: multiset<nat>, t: multiset<nat>, r: multiset<nat>, w: multiset<nat>, x: nat)
    ensures u + t + r + (w + multiset{x}) == u + t + r + w + multiset{x}
  {
  }

  lemma HeldSame(c: Control, c': Control)
    requires c'.users == c.users && c'.tx == c.tx && c'.rx == c.rx && WorkerHeld(c') == WorkerHeld(c)
    ensures Held(c') == Held(c)
  {
  }

  lemma WorkerHeldSame(c: Control, c': Control)
    requires c'.worker == c.worker && (c.worker.Picked? ==> (c.worker.p in c.tx <==> c.worker.p in c'.tx))
    ensures WorkerHeld(c') == WorkerHeld(c)
  {
  }

  lemma HeldAfterGain(s: State, a: Action, x: nat)
    requires a == Create(x) || a == Hold(x)
    ensures Held(ControlStep(s.c, a)) == Held(s.c) + multiset{x}
  {
    hide InRx, WorkerHeld;
    WorkerHeldSame(s.c, ControlStep(s.c, a));
    MoreByUser(s.c.users, multiset(s.c.tx), InRx(s.c.rx), WorkerHeld(s.c), x);
  }

  lemma HeldAfterPrepare(s: State, x: nat)
    requires s.c.worker.Picked? ==> s.c.worker.p in s.c.tx
    ensures Held(ControlStep(s.c, Prepare(x))) == Held(s.c) + multiset{x}
  {
    hide InRx, WorkerHeld;
    WorkerHeldSame(s.c, ControlStep(s.c, Prepare(x)));
    assert multiset(s.c.tx + [x]) == multiset(s.c.tx) + multiset{x};
    MoreByTx(s.c.users, multiset(s.c.tx), InRx(s.c.rx), WorkerHeld(s.c), x);
  }

  lemma HeldAfterReceive(s: State, a: Action, x: nat)
    requires a.Receive? && a.x == x
    ensures Held(ControlStep(s.c, a)) == Held(s.c) + multiset{x}
  {
    hide InRx, WorkerHeld;
    WorkerHeldSame(s.c, ControlStep(s.c, a));
    ReceivedAppend(s.c.rx, Message(x));
    MoreByRx(s.c.users, multiset(s.c.tx), InRx(s.c.rx), WorkerHeld(s.c), x);
  }

  lemma HeldAfterTimeout(s: State)
    ensures Held(ControlStep(s.c, Timeout)) == Held(s.c)
  {
    hide InRx, WorkerHeld;
    WorkerHeldSame(s.c, ControlStep(s.c, Timeout));
    ReceivedAppend(s.c.rx, TimeoutMark);
  }

  lemma HeldAfterRelease(s: State, x: nat)
    requires s.c.users[x] > 0
    ensures Held(ControlStep(s.c, Release(x))) == Held(s.c) - multiset{x}
  {
    hide InRx, WorkerHeld;
    WorkerHeldSame(s.c, ControlStep(s.c, Release(x)));
    LessByUser(s.c.users, multiset(s.c.tx), InRx(s.c.rx), WorkerHeld(s.c), x);
  }

  lemma HeldAfterFailure(s: State, x: nat)
    requires NoDup<nat>(s.c.tx) && x in s.c.tx
    requires s.c.worker.Picked? ==> s.c.worker.p in s.c.tx
    ensures var h := Held(ControlStep(s.c, SendDone(x, false)));
            h == if s.c.worker.Picked? && s.c.worker.p == x then Held(s.c) else Held(s.c) - multiset{x}
  {
    hide InRx, Without, WorkerHeld;
    var c, c' := s.c, ControlStep(s.c, SendDone(x, false));
    TakenOut(c.tx, x);
    WithoutMembers<nat>(c.tx, x);
    if c.worker.Picked? && c.worker.p == x {
      PickedIsCounted(c);
      PickedIsCounted(c');
      FromTxToWorker(c.users, multiset(c.tx), InRx(c.rx), WorkerHeld(c), x);
    } else {
      WorkerHeldSame(c, c');
      LessByTx(c.users, multiset(c.tx), InRx(c.rx), WorkerHeld(c), x);
    }
  }

  lemma PickedIsCounted(c: Control)
    requires c.worker.Picked?
    ensures c.worker.p in c.tx ==> WorkerHeld(c) == HoldsResponse(c.worker.r)
    ensures c.worker.p !in c.tx ==> WorkerHeld(c) == HoldsResponse(c.worker.r) + multiset{c.worker.p}
  {
  }

  lemma TakenFromRx(c: Control)
    requires c.worker == Awake && c.rx != []
    ensures var c' := ControlStep(c, Take);
            InRx(c.rx) == WorkerHeld(c') + InRx(c'.rx) && WorkerHeld(c) == multiset{} && c'.users == c.users && c'.tx == c.tx
  {
  }

  lemma HeldAfterTake(s: State)
    requires s.c.worker == Awake
    ensures Held(ControlStep(s.c, Take)) == Held(s.c)
  {
    if s.c.rx != [] {
      hide InRx, WorkerHeld, ControlStep;
      TakenFromRx(s.c);
      var c' := ControlStep(s.c, Take);
      Rearranged(s.c.users, multiset(s.c.tx), InRx(c'.rx), WorkerHeld(c'));
    }
  }

  lemma Rearranged(u: multiset<nat>, t: multiset<nat>, r: multiset<nat>, w: multiset<nat>)
    ensures u + t + (w + r) + multiset{} == u + t + r + w
  {
  }

  lemma HeldAfterUnlist(s: State)
    requires s.c.worker.Picked? && s.c.worker.p in s.c.tx
    ensures Held(ControlStep(s.c, Unlist)) == Held(s.c)
  {
    hide InRx, Without, WorkerHeld;
    var c, w := s.c, s.c.worker;
    TakenOut(c.tx, w.p);
    PickedIsCounted(c);
    InHandIsCounted(ControlStep(c, Unlist));
    FromTxToWorker(c.users, multiset(c.tx), InRx(c.rx), HoldsResponse(w.r), w.p);
  }

  lemma InHandIsCounted(c: Control)
    ensures c.worker.Unlisted? ==> WorkerHeld(c) == HoldsResponse(c.worker.r) + multiset{c.worker.p}
    ensures c.worker.Called? ==> WorkerHeld(c) == HoldsResponse(c.worker.r) + multiset{c.worker.p}
    ensures c.worker.Walking? || c.worker.At? ==> WorkerHeld(c) == HoldsResponse(c.worker.r)
    ensures c.worker == Idle || c.worker == Awake ==> WorkerHeld(c) == multiset{}
    ensures c.worker.Done? ==> WorkerHeld(c) == multiset{c.worker.op}
  {
  }

  lemma HeldAfterDrop(s: State)
    requires s.c.worker.Called?
    ensures Held(ControlStep(s.c, Drop)) == Held(s.c) - multiset{s.c.worker.p}
  {
    hide InRx, WorkerHeld;
    var c, w := s.c, s.c.worker;
    InHandIsCounted(c);
    InHandIsCounted(ControlStep(c, Drop));
    LessByWorker(c.users, multiset(c.tx), InRx(c.rx), HoldsResponse(w.r), w.p);
  }

  lemma HeldAfterDestroy(s: State)
    requires s.c.worker.Done?
    ensures Held(ControlStep(s.c, Destroy)) == Held(s.c) - multiset{s.c.worker.op}
  {
    hide InRx;
    LessByWorker(s.c.users, multiset(s.c.tx), InRx(s.c.rx), multiset{}, s.c.worker.op);
  }

  lemma PickedInTx(c: Control)
    requires ControlOk(c)
    ensures NoDup<nat>(c.tx) && (c.worker.Picked? ==> c.worker.p in c.tx)
  {
  }

  lemma HeldAfterSend(s: State, x: nat, ok: bool)
    requires NoDup<nat>(s.c.tx) && (s.c.worker.Picked? ==> s.c.worker.p in s.c.tx) && NoRace(s.c, SendDone(x, ok))
    ensures Held(ControlStep(s.c, SendDone(x, ok))) == HeldStep(s, SendDone(x, ok))
  {
    hide Held, NoDup;
    if ok {
      HeldSame(s.c, ControlStep(s.c, SendDone(x, ok)));
    } else {
      HeldAfterFailure(s, x);
    }
  }

  // Each action changes the held references as HeldStep says.
  lemma HeldAfter(s: State, a: Action)
    requires ControlOk(s.c) && Enabled(s, a) && NoRace(s.c, a)
    ensures Held(ControlStep(s.c, a)) == HeldStep(s, a)
  {
    hide Held, NoDup, LogOk, SendOk, RxOk, InRx, ControlStep, TxOk, WorkerOk;
    PickedInTx(s.c);
    match a
    case Create(x) => HeldAfterGain(s, a, x);
    case Hold(x) => HeldAfterGain(s, a, x);
    case Prepare(x) => HeldAfterPrepare(s, x);
    case Receive(x, _, _) => HeldAfterReceive(s, a, x);
    case Timeout => HeldAfterTimeout(s);
    case Release(x) => HeldAfterRelease(s, x);
    case SendDone(x, ok) => HeldAfterSend(s, x, ok);
    case Take => HeldAfterTake(s);
    case Unlist => HeldAfterUnlist(s);
    case Drop => HeldAfterDrop(s);
    case Destroy => HeldAfterDestroy(s);
    case _ => HeldAfterMove(s, a);
  }

  lemma HeldAfterMove(s: State, a: Action)
    requires Enabled(s, a) && NoRace(s.c, a)
    requires a.OtherRequest? || a.Down? || a.Reach? || a.Compare? || a.Call? || a.EndWalk?
    ensures Held(ControlStep(s.c, a)) == Held(s.c)
  {
    hide Held, WorkerHeld;
    MoveHolds(s, a);
    HeldSame(s.c, ControlStep(s.c, a));
  }

  lemma MoveHolds(s: State, a: Action)
    requires Enabled(s, a) && NoRace(s.c, a)
    requires a.OtherRequest? || a.Down? || a.Reach? || a.Compare? || a.Call? || a.EndWalk?
    ensures WorkerHeld(ControlStep(s.c, a)) == WorkerHeld(s.c)
  {
    hide WorkerHeld;
    var c' := ControlStep(s.c, a);
    InHandIsCounted(s.c);
    InHandIsCounted(c');
    match a
    case OtherRequest => WorkerHeldSame(s.c, c');
    case Compare(yes) => if yes { PickedIsCounted(c'); }
    case _ =>
  }

  lemma NumberKeepsBalance(ops: Ops, held: multiset<nat>, x: nat, serial: nat)
    requires Balanced(ops, held)
    ensures Balanced(Number(ops, x, serial), held)
  {
    forall y: nat ensures Parents(Number(ops, x, serial), y) == Parents(ops, y) {
      if x in ops {
        ParentsSame(ops, Number(ops, x, serial), y);
      }
    }
  }

  // The link to a response takes a reference of its own.
  lemma AttachKeepsBalance(ops: Ops, held: multiset<nat>, p: nat, r: nat)
    requires Balanced(ops, held) && held[r] > 0 && p != r && p in ops && ops[p].response == None
    ensures Balanced(Link(Ref(ops, r), p, r), held)
  {
    RefKeepsBalance(ops, held, r);
    var ops1, held1 := Ref(ops, r), held + multiset{r};
    LinkKeepsBalance(ops1, held1, p, r);
    assert held1 - multiset{r} == held;
  }

  lemma Alive(ops: Ops, held: multiset<nat>, x: nat)
    requires Balanced(ops, held) && held[x] > 0
    ensures x in ops && ops[x].refs > 0
  {
  }

  lemma TxAlive(s: State)
    requires Invariant(s)
    ensures forall x | x in s.c.tx :: x in s.ops && s.ops[x].refs > 0 && Held(s.c)[x] > 0
  {
    hide Balanced;
    forall x | x in s.c.tx ensures x in s.ops && s.ops[x].refs > 0 && Held(s.c)[x] > 0 {
      assert x in multiset(s.c.tx);
      Alive(s.ops, Held(s.c), x);
    }
  }

  // The worker's operations exist.
  lemma TxWasQueued(s: State, q: nat)
    requires Invariant(s) && q in s.c.tx
    ensures WasQueued(s.c, q)
  {
  }

  lemma WorkerAlive(s: State)
    requires Invariant(s)
    ensures var r := InHand(s.c.worker); r.Some? ==> r.value in s.ops && Held(s.c)[r.value] > 0
    ensures var w := s.c.worker; w.Unlisted? || w.Called? ==> w.p in s.ops && Held(s.c)[w.p] > 0
  {
    hide Balanced, TxOk, LogOk, RxOk, SendOk, IdsOk, ResponsesOk;
    var w := s.c.worker;
    if InHand(w).Some? {
      assert WorkerHeld(s.c)[InHand(w).value] > 0;
      Alive(s.ops, Held(s.c), InHand(w).value);
    }
    if w.Unlisted? || w.Called? {
      assert WorkerHeld(s.c)[w.p] > 0;
      Alive(s.ops, Held(s.c), w.p);
    }
  }

  lemma UserAlive(s: State, x: nat)
    requires Invariant(s) && s.c.users[x] > 0
    ensures x in s.ops && s.ops[x].refs > 0 && Held(s.c)[x] > 0
  {
    hide Balanced;
    Alive(s.ops, Held(s.c), x);
  }

  lemma StepKeepsBalance(s: State, a: Action)
    requires Invariant(s) && Enabled(s, a) && NoRace(s.c, a)
    ensures Balanced(OpsStep(s, a), HeldStep(s, a))
  {
    hide Balanced, Unref, Ref, Link, Held, TxOk, LogOk, RxOk, IdsOk;
    var h, w := Held(s.c), s.c.worker;
    TxAlive(s);
    WorkerAlive(s);
    match a
    case Create(x) => CreateKeepsBalance(s.ops, h, x, Op(1, 0, false, 0, None));
    case Receive(x, id, isResponse) => CreateKeepsBalance(s.ops, h, x, Op(1, id, isResponse, 0, None));
    case Hold(x) =>
      UserAlive(s, x);
      RefKeepsBalance(s.ops, h, x);
    case Release(x) =>
      UserAlive(s, x);
      UnrefKeepsBalance(s.ops, h, x);
    case Prepare(x) =>
      UserAlive(s, x);
      NumberKeepsBalance(s.ops, h, x, s.c.issued);
      RefKeepsBalance(Number(s.ops, x, s.c.issued), h, x);
    case SendDone(x, ok) => if !ok { UnrefKeepsBalance(s.ops, h, x); }
    case Call => if w.r.Some? { AttachKeepsBalance(s.ops, h, w.p, w.r.value); }
    case Drop => UnrefKeepsBalance(s.ops, h, w.p);
    case Destroy => UnrefKeepsBalance(s.ops, h, w.op);
    case _ =>
  }

  // ----- every step keeps the rest -----

  // What a step does to the operations that remain, apart from their counts.
  lemma OpsFrame(s: State, a: Action, y: nat)
    requires y in OpsStep(s, a)
    ensures a.Create? && y == a.x ==> OpsStep(s, a)[y].response == None
    ensures a.Receive? && y == a.x ==> OpsStep(s, a)[y].response == None && OpsStep(s, a)[y].id == a.id
    ensures !((a.Create? || a.Receive?) && y == a.x) ==> y in s.ops
    ensures a.Prepare? && y == a.x ==> OpsStep(s, a)[y].response == s.ops[y].response
    ensures a.Prepare? && y == a.x ==> OpsStep(s, a)[y].id == IdOf(s.c.issued) && OpsStep(s, a)[y].serial == s.c.issued
    ensures a.Call? && s.c.worker.Unlisted? && s.c.worker.r.Some? && s.c.worker.p == y ==>
              OpsStep(s, a)[y].response == s.c.worker.r
              && OpsStep(s, a)[y].id == s.ops[y].id && OpsStep(s, a)[y].serial == s.ops[y].serial
    ensures !((a.Create? || a.Receive? || a.Prepare?) && y == a.x)
            && !(a.Call? && s.c.worker.Unlisted? && s.c.worker.r.Some? && s.c.worker.p == y) ==>
              SameBut(s.ops[y], OpsStep(s, a)[y])
  {
    match a
    case Release(x) => UnrefFrame(s.ops, x);
    case SendDone(x, ok) => UnrefFrame(s.ops, x);
    case Destroy => if s.c.worker.Done? { UnrefFrame(s.ops, s.c.worker.op); }
    case Drop => if s.c.worker.Called? { UnrefFrame(s.ops, s.c.worker.p); }
    case _ =>
  }

  lemma StepKeepsResponses(s: State, a: Action)
    requires Invariant(s) && Enabled(s, a) && NoRace(s.c, a)
    ensures ResponsesOk(OpsStep(s, a), Step(s, a).c.phase)
  {
    hide Balanced, Held, OpsStep, RxOk, LogOk, SendOk, IdsOk;
    forall y: nat | y in OpsStep(s, a)
      ensures y in Step(s, a).c.phase && OpsStep(s, a)[y].response
           == if Step(s, a).c.phase[y].Answered? then Some(Step(s, a).c.phase[y].response) else None
    {
      OpsFrame(s, a, y);
    }
  }

  lemma StepKeepsIds(s: State, a: Action)
    requires Invariant(s) && Enabled(s, a) && NoRace(s.c, a)
    ensures IdsOk(OpsStep(s, a), Step(s, a).c)
  {
    hide Balanced, Held, OpsStep, RxOk, LogOk, SendOk, WorkerOk, IdOf, ResponsesOk;
    var c' := Step(s, a).c;
    forall y: nat | y in c'.tx
      ensures y in s.c.tx || a == Prepare(y)
    {
      TxGrows(s, a, y);
    }
    forall y: nat | y in OpsStep(s, a) && y in c'.tx
      ensures a == Prepare(y) ==> OpsStep(s, a)[y].id == IdOf(s.c.issued) && OpsStep(s, a)[y].serial == s.c.issued
      ensures a != Prepare(y) ==> y in s.ops && y in s.c.tx && OpsStep(s, a)[y].id == s.ops[y].id && OpsStep(s, a)[y].serial == s.ops[y].serial
    {
      OpsFrame(s, a, y);
    }
    assert c'.issued >= s.c.issued;
  }

  lemma TxGrows(s: State, a: Action, y: nat)
    requires ControlOk(s.c) && Enabled(s, a) && y in Step(s, a).c.tx
    ensures y in s.c.tx || a == Prepare(y)
    ensures y in s.c.tx && (a.Create? || a.Receive? || a.Prepare?) ==> a.x != y
  {
    hide LogOk, RxOk, SendOk;
    match a
    case SendDone(x, ok) => WithoutMembers<nat>(s.c.tx, x);
    case Unlist => WithoutMembers<nat>(s.c.tx, s.c.worker.p);
    case _ =>
  }

  lemma StepKeepsInvariant(s: State, a: Action)
    requires Invariant(s) && Enabled(s, a) && NoRace(s.c, a)
    ensures Invariant(Step(s, a))
  {
    hide ControlStep, OpsStep, Balanced, Held, ResponsesOk, IdsOk, TxOk, LogOk, RxOk, WorkerOk, SendOk, HeldStep;
    ControlStepKeepsOk(s, a);
    HeldAfter(s, a);
    StepKeepsBalance(s, a);
    StepKeepsResponses(s, a);
    StepKeepsIds(s, a);
  }

  // ----- whole runs -----

  function Init(): State {
    State(map[], Control(multiset{}, [], [], 0, Idle, {}, {}, 0, map[], []))
  }

  ghost predicate CanRun(s: State, run: seq<Action>)
    decreases |run|
  {
    run == [] || (Enabled(s, run[0]) && NoRace(s.c, run[0]) && CanRun(Step(s, run[0]), run[1..]))
  }

  function Run(s: State, run: seq<Action>): State
    decreases |run|
  {
    if run == [] then s else Run(Step(s, run[0]), run[1..])
  }

  lemma {:induction false} RunAppend(s: State, run: seq<Action>, more: seq<Action>)
    ensures Run(s, run + more) == Run(Run(s, run), more)
    ensures CanRun(s, run) && CanRun(Run(s, run), more) ==> CanRun(s, run + more)
    decreases |run|
  {
    hide Step;
    if run == [] {
      assert run + more == more;
    } else {
      assert (run + more)[1..] == run[1..] + more;
      RunAppend(Step(s, run[0]), run[1..], more);
    }
  }

  // A run given by its states.
  lemma {:induction false} RunThrough(at: seq<State>, run: seq<Action>)
    requires |at| == |run| + 1
    requires forall i | 0 <= i < |run| :: Enabled(at[i], run[i]) && NoRace(at[i].c, run[i]) && Step(at[i], run[i]) == at[i + 1]
    ensures CanRun(at[0], run) && Run(at[0], run) == at[|run|]
    decreases |run|
  {
    hide Step, Enabled, NoRace;
    if run != [] {
      RunThrough(at[1..], run[1..]);
    }
  }

  lemma {:induction false} RunKeepsInvariant(s: State, run: seq<Action>)
    requires Invariant(s) && CanRun(s, run)
    ensures Invariant(Run(s, run))
    decreases |run|
  {
    if run != [] {
      StepKeepsInvariant(s, run[0]);
      hide Invariant, Step;
      RunKeepsInvariant(Step(s, run[0]), run[1..]);
    }
  }

  // An operation that is complete stays as it is: it never comes back to tx_fifo and has no second callback.
  lemma {:induction false} CompletionIsFinal(s: State, run: seq<Action>, x: nat)
    requires Invariant(s) && CanRun(s, run) && x in s.c.log
    ensures Invariant(Run(s, run)) && x in Run(s, run).c.log && x !in Run(s, run).c.tx
    ensures x in s.c.phase && x in Run(s, run).c.phase && Run(s, run).c.phase[x] == s.c.phase[x]
    decreases |run|
  {
    if run != [] {
      OneCompletionIsFinal(s, run[0], x);
      hide Invariant, Step;
      CompletionIsFinal(Step(s, run[0]), run[1..], x);
    }
  }

  lemma OneCompletionIsFinal(s: State, a: Action, x: nat)
    requires Invariant(s) && Enabled(s, a) && NoRace(s.c, a) && x in s.c.log
    ensures Invariant(Step(s, a)) && x in Step(s, a).c.log
    ensures x in s.c.phase && x in Step(s, a).c.phase && Step(s, a).c.phase[x] == s.c.phase[x]
  {
    hide Balanced, Held, OpsStep, RxOk, SendOk, ResponsesOk, IdsOk, ControlStep, Enabled;
    StepKeepsInvariant(s, a);
    LogOnlyGrows(s, a, x);
  }

  lemma LogOnlyGrows(s: State, a: Action, x: nat)
    requires TxOk(s.c) && LogOk(s.c) && WorkerOk(s.c) && Enabled(s, a) && x in s.c.log
    ensures x in ControlStep(s.c, a).log
    ensures x in s.c.phase && x in ControlStep(s.c, a).phase && ControlStep(s.c, a).phase[x] == s.c.phase[x]
  {
    hide NoDup, Without;
    assert x !in s.c.tx;
  }

  // The worker has the request in its hands: off tx_fifo and before its callback.
  predicate InProgress(c: Control, x: nat) {
    c.worker.Unlisted? && c.worker.p == x
  }

  // AT MOST ONCE AND NEVER LOST: in every run, a request that was sent successfully is waiting in tx_fifo, or
  // the worker is just completing it, or it has had its callback: one of the three, and once.
  lemma SentIsWaitingOrComplete(run: seq<Action>, x: nat)
    requires CanRun(Init(), run) && x in Run(Init(), run).c.sent
    ensures var c := Run(Init(), run).c; x in c.tx || InProgress(c, x) || x in c.log
    ensures var c := Run(Init(), run).c; !(x in c.tx && InProgress(c, x)) && !(x in c.tx && x in c.log) && !(InProgress(c, x) && x in c.log)
    ensures var c := Run(Init(), run).c; NoDup<nat>(c.tx) && NoDup<nat>(c.log)
    ensures var s := Run(Init(), run); x in s.c.log ==> x in s.c.phase && WasCompleted(s.c.phase[x])
  {
    InitInvariant();
    RunKeepsInvariant(Init(), run);
    var s := Run(Init(), run);
    SentSomewhere(s.c, x);
  }

  lemma SentSomewhere(c: Control, x: nat)
    requires ControlOk(c) && x in c.sent
    ensures x in c.tx || InProgress(c, x) || x in c.log
    ensures !(x in c.tx && InProgress(c, x)) && !(x in c.tx && x in c.log) && !(InProgress(c, x) && x in c.log)
    ensures x in c.log ==> x in c.phase && WasCompleted(c.phase[x])
    ensures NoDup<nat>(c.tx) && NoDup<nat>(c.log)
  {
  }

  lemma InitInvariant()
    ensures Invariant(Init())
  {
    forall x: nat ensures Parents(map[], x) == {} {}
  }

  // ALIVE EXACTLY WHILE HELD: in every run, an operation exists if and only if it is held, and its count
  // is the number of its holders: the rest of the system, tx_fifo, the receive path, the worker, and the
  // operations whose response it is.
  lemma AliveWhileHeld(run: seq<Action>, x: nat)
    requires CanRun(Init(), run)
    ensures var s := Run(Init(), run); x in s.ops <==> Held(s.c)[x] + |Parents(s.ops, x)| > 0
    ensures var s := Run(Init(), run); x in s.ops ==> s.ops[x].refs == Held(s.c)[x] + |Parents(s.ops, x)|
  {
    InitInvariant();
    RunKeepsInvariant(Init(), run);
    hide ControlOk, ResponsesOk, IdsOk, Held;
  }

  // gb_operation_get_request_result reads a response if and only if the operation was answered, and the
  // response is still there.
  lemma ResponseIsThere(run: seq<Action>, x: nat)
    requires CanRun(Init(), run) && x in Run(Init(), run).ops
    ensures var s := Run(Init(), run); x in s.c.phase && (s.ops[x].response.Some? <==> s.c.phase[x].Answered?)
    ensures var s := Run(Init(), run); s.ops[x].response.Some? ==> s.ops[x].response.value in s.ops
  {
    InitInvariant();
    RunKeepsInvariant(Init(), run);
    hide ControlOk, IdsOk, Held;
    var s := Run(Init(), run);
    if s.ops[x].response.Some? {
      assert x in Parents(s.ops, s.ops[x].response.value);
    }
  }

  // The worker is woken once for each entry of rx_fifo, which holds the timeout marker at most once.
  lemma WakeupsMatchEntries(run: seq<Action>)
    requires CanRun(Init(), run)
    ensures var c := Run(Init(), run).c; c.sem + (if c.worker == Awake then 1 else 0) == |c.rx|
    ensures var c := Run(Init(), run).c;
            forall i, j | 0 <= i < |c.rx| && 0 <= j < |c.rx| && c.rx[i] == TimeoutMark && c.rx[j] == TimeoutMark :: i == j
  {
    InitInvariant();
    RunKeepsInvariant(Init(), run);
    hide TxOk, LogOk, WorkerOk, SendOk, Balanced, ResponsesOk, IdsOk;
  }

  // ----- in order of arrival -----

  // The messages in rx_fifo, without the timeout marker.
  function MessagesIn(rx: seq<Entry>): seq<nat> {
    if rx == [] then [] else (if rx[0].Message? then [rx[0].op] else []) + MessagesIn(rx[1..])
  }

  lemma {:induction false} MessagesAppend(rx: seq<Entry>, e: Entry)
    ensures MessagesIn(rx + [e]) == MessagesIn(rx) + if e.Message? then [e.op] else []
  {
    if rx == [] {
      assert rx + [e] == [e] && [e][1..] == [];
    } else {
      MessagesAppend(rx[1..], e);
      assert (rx + [e])[1..] == rx[1..] + [e];
    }
  }

  function Came(a: Action): seq<nat> {
    if a.Receive? then [a.x] else []
  }

  // The message that the worker takes in this step.
  function TakenBy(s: State, a: Action): seq<nat> {
    if a.Take? && s.c.rx != [] && s.c.rx[0].Message? then [s.c.rx[0].op] else []
  }

  function AllCame(run: seq<Action>): seq<nat> {
    if run == [] then [] else Came(run[0]) + AllCame(run[1..])
  }

  function AllTaken(s: State, run: seq<Action>): seq<nat>
    decreases |run|
  {
    if run == [] then [] else TakenBy(s, run[0]) + AllTaken(Step(s, run[0]), run[1..])
  }

  lemma StepKeepsArrivals(s: State, a: Action)
    ensures TakenBy(s, a) + MessagesIn(Step(s, a).c.rx) == MessagesIn(s.c.rx) + Came(a)
  {
    hide OpsStep, ControlStep, MessagesIn;
    RxAfter(s.c, a);
    match a
    case Receive(x, id, isResponse) => MessagesAppend(s.c.rx, Message(x));
    case Timeout => MessagesAppend(s.c.rx, TimeoutMark);
    case Take => FirstMessage(s.c.rx);
    case _ =>
  }

  lemma RxAfter(c: Control, a: Action)
    ensures var rx := ControlStep(c, a).rx;
            && (a.Receive? ==> rx == c.rx + [Message(a.x)])
            && (a.Timeout? ==> rx == c.rx || rx == c.rx + [TimeoutMark])
            && (a.Take? ==> if c.rx == [] then rx == c.rx else rx == c.rx[1..])
            && (!a.Receive? && !a.Timeout? && !a.Take? ==> rx == c.rx)
  {
    hide NoDup, Without, AfterWalk;
  }

  lemma FirstMessage(rx: seq<Entry>)
    ensures rx != [] ==> MessagesIn(rx) == (if rx[0].Message? then [rx[0].op] else []) + MessagesIn(rx[1..])
  {
  }

  // FIRST COME, FIRST SERVED: over every run the worker takes the messages in the order in which they came, and
  // those not taken yet are in rx_fifo.
  lemma {:induction false} MessagesInOrder(s: State, run: seq<Action>)
    ensures AllTaken(s, run) + MessagesIn(Run(s, run).c.rx) == MessagesIn(s.c.rx) + AllCame(run)
    decreases |run|
  {
    hide Step, MessagesIn, TakenBy, Came;
    if run != [] {
      var s' := Step(s, run[0]);
      StepKeepsArrivals(s, run[0]);
      MessagesInOrder(s', run[1..]);
      var t, t', m, m', c, c' := TakenBy(s, run[0]), AllTaken(s', run[1..]), MessagesIn(s'.c.rx), MessagesIn(Run(s, run).c.rx), Came(run[0]), AllCame(run[1..]);
      assert t + (t' + m') == (t + m) + c';
      assert (t + t') + m' == t + (t' + m') && MessagesIn(s.c.rx) + (c + c') == (MessagesIn(s.c.rx) + c) + c';
    }
  }

  // ONE MATCH: while the waiting requests are among the last 65535 of the bus, an id finds at most one.
  lemma MatchIsUnique(s: State, x: nat, y: nat)
    requires Invariant(s) && x in s.c.tx && y in s.c.tx && x in s.ops && y in s.ops
    requires forall z | z in s.c.tx && z in s.ops :: s.c.issued <= s.ops[z].serial + IDS
    requires s.ops[x].id == s.ops[y].id
    ensures x == y
  {
    hide Balanced, Held, RxOk, WorkerOk, ResponsesOk, IdOf;
    var i, j := s.ops[x].serial, s.ops[y].serial;
    if i < j {
      IdsDiffer(i, j);
    } else if j < i {
      IdsDiffer(j, i);
    }
  }

  // ----- the races of a failing send -----

  // A reference dropped without a holder giving it up unbalances the counts.
  lemma DroppedTwice(ops: Ops, held: multiset<nat>, x: nat)
    requires Balanced(ops, held) && (x in ops ==> held[x] > 0)
    ensures Balanced(Unref(ops, x), held) <==> x !in ops
  {
    var ops' := Unref(ops, x);
    if x in ops {
      if ops[x].refs > 1 {
        ParentsSame(ops, ops', x);
        assert ops'[x].refs + 1 == ops[x].refs;
      } else {
        if ops[x].response.Some? {
          var rest := ops - {x};
          UnrefFrame(rest, ops[x].response.value);
          assert ops' == Unref(rest, ops[x].response.value) && x !in rest;
        }
        assert x !in ops';
      }
    }
  }

  lemma NobodysReference(ops: Ops, held: multiset<nat>, x: nat)
    requires Balanced(ops, held)
    ensures !Balanced(ops, held + multiset{x})
  {
    assert (held + multiset{x})[x] == held[x] + 1;
  }

  // Nothing has a request as its response.
  lemma SenderIsHeld(s: State, x: nat)
    requires Invariant(s) && x in s.c.sending && x in s.ops
    ensures Held(s.c)[x] > 0
  {
    hide TxOk, LogOk, RxOk, IdsOk, Held;
    forall p ensures p !in Parents(s.ops, x) {
    }
    assert Parents(s.ops, x) == {};
  }

  // WHEN A FAILED SEND IS HARMLESS: it works on an operation that still exists, and leaves the counts right,
  // exactly when its request is in tx_fifo and the worker has not picked it. Otherwise tx_fifo's one
  // reference is dropped both here and by the worker, or what is dropped is not the request any more.
  lemma FailedSendIsSafe(s: State, x: nat)
    requires Invariant(s) && x in s.c.sending
    ensures var s' := Step(s, SendDone(x, false));
            x in s.ops && Balanced(s'.ops, Held(s'.c)) <==> x in s.c.tx && !(s.c.worker.Picked? && s.c.worker.p == x)
  {
    hide Balanced, ResponsesOk, IdsOk, LogOk, RxOk, Unref;
    TxAlive(s);
    if x in s.ops {
      SenderIsHeld(s, x);
    }
    if x !in s.c.tx {
      HeldSame(s.c, Step(s, SendDone(x, false)).c);
      DroppedTwice(s.ops, Held(s.c), x);
    } else {
      HeldAfterFailure(s, x);
      if s.c.worker.Picked? && s.c.worker.p == x {
        DroppedTwice(s.ops, Held(s.c), x);
      } else {
        UnrefKeepsBalance(s.ops, Held(s.c), x);
      }
    }
  }

  // A request that was given back while it is being sent leaves its memory to the next operation that is
  // created: the failing send then takes that one from its creator.
  lemma FailedSendTakesAnother(s: State, x: nat, next: Op)
    requires Invariant(s) && x in s.c.sending && x !in s.ops && next.refs == 1 && next.response == None
    ensures Balanced(s.ops[x := next], Held(s.c) + multiset{x})
    ensures x !in Unref(s.ops[x := next], x) && !Balanced(Unref(s.ops[x := next], x), Held(s.c) + multiset{x})
  {
    hide ControlOk, ResponsesOk, IdsOk, Held;
    CreateKeepsBalance(s.ops, Held(s.c), x, next);
    DroppedTwice(s.ops[x := next], Held(s.c) + multiset{x}, x);
  }

  lemma InvariantBalances(s: State)
    requires Invariant(s)
    ensures Balanced(s.ops, Held(s.c))
  {
  }

  // WHEN A MATCH OR AN EXPIRY IS HARMLESS: exactly when the operation that the worker stands at is still in
  // tx_fifo. A send that failed in between has dropped its reference already.
  lemma PickingIsSafe(s: State)
    requires Invariant(s) && s.c.worker.At? && Enabled(s, Compare(true))
    ensures var s' := Step(s, Compare(true)); Balanced(s'.ops, Held(s'.c)) <==> s.c.worker.p in s.c.tx
  {
    hide Balanced, Invariant, Step, InRx;
    CompareIs(s);
    InvariantBalances(s);
    var p, c' := s.c.worker.p, Step(s, Compare(true)).c;
    if p in s.c.tx {
      HeldSame(s.c, c');
    } else {
      MoreByWorker(s.c.users, multiset(s.c.tx), InRx(s.c.rx), HoldsResponse(s.c.worker.r), p);
      assert Held(c') == Held(s.c) + multiset{p};
      NobodysReference(s.ops, Held(s.c), p);
    }
  }

  // ----- such runs -----

  function Sent(worker: Worker, sem: nat, rx: seq<Entry>): Control {
    Control(multiset{0}, [0], rx, sem, worker, {0}, {}, 1, map[0 := Waiting], [])
  }

  // A request that has been sent and is in tx_fifo, with its creator's reference.
  function Request(refs: nat): Op {
    Op(refs, IdOf(0), false, 0, None)
  }

  lemma SendBegins()
    ensures CanRun(Init(), [Create(0), Prepare(0)])
    ensures Run(Init(), [Create(0), Prepare(0)]) == State(map[0 := Request(2)], Sent(Idle, 0, []))
  {
    var s := State(map[0 := Op(1, 0, false, 0, None)], Control(multiset{0}, [], [], 0, Idle, {}, {}, 0, map[0 := Fresh], []));
    var t := State(map[0 := Request(2)], Sent(Idle, 0, []));
    assert Step(Init(), Create(0)) == s;
    assert Step(s, Prepare(0)) == t;
    RunThrough([Init(), s, t], [Create(0), Prepare(0)]);
  }

  // The request times out while it is being sent; then the send fails. Its creator is left with an operation
  // that has been given back.
  lemma TimeoutThenFailure()
    ensures CanRun(Init(), [Create(0), Prepare(0)] + TimeoutRun())
    ensures var s := Run(Init(), [Create(0), Prepare(0)] + TimeoutRun());
            Enabled(s, SendDone(0, false)) && !NoRace(s.c, SendDone(0, false))
            && Step(s, SendDone(0, false)).c.users[0] == 1 && 0 !in Step(s, SendDone(0, false)).ops
  {
    hide Step, Enabled, NoRace, TimeoutAt, TimeoutRun, Run, CanRun;
    TimeoutEnds();
    var at := seq(9, i requires 0 <= i < 9 => TimeoutAt(i));
    forall i: nat | i < 8
      ensures Enabled(at[i], TimeoutRun()[i]) && NoRace(at[i].c, TimeoutRun()[i]) && Step(at[i], TimeoutRun()[i]) == at[i + 1]
    {
      TimeoutStep(i);
    }
    RunThrough(at, TimeoutRun());
    SendBegins();
    RunAppend(Init(), [Create(0), Prepare(0)], TimeoutRun());
    LastOneGoes(at[8]);
  }

  // The states that run goes through.
  function TimeoutAt(i: nat): State {
    var ops: Ops := map[0 := Request(2)];
    match i
    case 0 => State(ops, Sent(Idle, 0, []))
    case 1 => State(ops, Sent(Idle, 1, [TimeoutMark]))
    case 2 => State(ops, Sent(Awake, 0, [TimeoutMark]))
    case 3 => State(ops, Sent(Walking(None), 0, []))
    case 4 => State(ops, Sent(At(0, None), 0, []))
    case 5 => State(ops, Sent(Picked(0, None), 0, []))
    case 6 => State(ops, Sent(Unlisted(0, None), 0, []).(tx := [], phase := map[0 := Taken]))
    case 7 => State(ops, Sent(Called(0, None), 0, []).(tx := [], phase := map[0 := TimedOut], log := [0]))
    case _ => State(map[0 := Request(1)], Sent(Walking(None), 0, []).(tx := [], phase := map[0 := TimedOut], log := [0]))
  }

  lemma TimeoutEnds()
    ensures |TimeoutRun()| == 8 && TimeoutAt(0) == State(map[0 := Request(2)], Sent(Idle, 0, []))
    ensures var s := TimeoutAt(8); s.ops == map[0 := Request(1)] && s.c.users == multiset{0} && 0 in s.c.sending && 0 !in s.c.tx
  {
  }

  lemma TimeoutStep(i: nat)
    requires i < 8 && |TimeoutRun()| == 8
    ensures Enabled(TimeoutAt(i), TimeoutRun()[i]) && NoRace(TimeoutAt(i).c, TimeoutRun()[i])
    ensures Step(TimeoutAt(i), TimeoutRun()[i]) == TimeoutAt(i + 1)
  {
    hide IdOf;
    if i < 5 {
      assert TimeoutRun()[i] == [Timeout, Down, Take, Reach(0), Compare(true)][i];
    } else {
      TimeoutLastSteps(i);
    }
  }

  lemma TimeoutLastSteps(i: nat)
    requires 5 <= i < 8 && |TimeoutRun()| == 8
    ensures Enabled(TimeoutAt(i), TimeoutRun()[i]) && NoRace(TimeoutAt(i).c, TimeoutRun()[i])
    ensures Step(TimeoutAt(i), TimeoutRun()[i]) == TimeoutAt(i + 1)
  {
    hide Step, Enabled, NoRace, TimeoutAt;
    TimeoutUnlists();
    TimeoutCalls();
    TimeoutDrops();
    assert TimeoutRun()[i] == if i == 5 then Unlist else if i == 6 then Call else Drop;
  }

  lemma TimeoutUnlists()
    ensures Enabled(TimeoutAt(5), Unlist) && NoRace(TimeoutAt(5).c, Unlist) && Step(TimeoutAt(5), Unlist) == TimeoutAt(6)
  {
    hide IdOf;
  }

  lemma TimeoutCalls()
    ensures Enabled(TimeoutAt(6), Call) && NoRace(TimeoutAt(6).c, Call) && Step(TimeoutAt(6), Call) == TimeoutAt(7)
  {
    hide IdOf;
  }

  lemma TimeoutDrops()
    ensures Enabled(TimeoutAt(7), Drop) && NoRace(TimeoutAt(7).c, Drop) && Step(TimeoutAt(7), Drop) == TimeoutAt(8)
  {
    hide IdOf;
  }

  function TimeoutRun(): seq<Action> {
    [Timeout, Down, Take, Reach(0), Compare(true), Unlist, Call, Drop]
  }

  lemma LastOneGoes(s: State)
    requires s.ops == map[0 := Request(1)] && s.c.users == multiset{0} && 0 in s.c.sending && 0 !in s.c.tx
    ensures Enabled(s, SendDone(0, false)) && !NoRace(s.c, SendDone(0, false))
    ensures Step(s, SendDone(0, false)).c.users[0] == 1 && 0 !in Step(s, SendDone(0, false)).ops
  {
  }

  // The same, but its creator gives the request back as soon as it has had its callback: when the send fails
  // there is no such operation any more (see FailedSendTakesAnother).
  lemma GivenBackThenFailure()
    ensures CanRun(Init(), [Create(0), Prepare(0)] + (TimeoutRun()[..7] + [Release(0), Drop]))
    ensures var s := Run(Init(), [Create(0), Prepare(0)] + (TimeoutRun()[..7] + [Release(0), Drop]));
            Enabled(s, SendDone(0, false)) && !NoRace(s.c, SendDone(0, false)) && 0 !in s.ops
  {
    hide Step, Enabled, NoRace, TimeoutAt, TimeoutRun, Run, CanRun;
    TimeoutEnds();
    var last := TimeoutAt(7);
    var released := State(map[0 := Request(1)], last.c.(users := multiset{}));
    var dropped := State(map[], released.c.(worker := Walking(None)));
    var at := seq(8, i requires 0 <= i < 8 => TimeoutAt(i)) + [released, dropped];
    var run := TimeoutRun()[..7] + [Release(0), Drop];
    forall i: nat | i < 9 ensures Enabled(at[i], run[i]) && NoRace(at[i].c, run[i]) && Step(at[i], run[i]) == at[i + 1] {
      if i < 7 {
        TimeoutStep(i);
      } else {
        GivenBack(last, released, dropped);
      }
    }
    RunThrough(at, run);
    SendBegins();
    RunAppend(Init(), [Create(0), Prepare(0)], run);
    GivenBack(last, released, dropped);
  }

  lemma GivenBack(last: State, released: State, dropped: State)
    requires last == TimeoutAt(7) && released == State(map[0 := Request(1)], last.c.(users := multiset{}))
    requires dropped == State(map[], released.c.(worker := Walking(None)))
    ensures Enabled(last, Release(0)) && NoRace(last.c, Release(0)) && Step(last, Release(0)) == released
    ensures Enabled(released, Drop) && NoRace(released.c, Drop) && Step(released, Drop) == dropped
    ensures Enabled(dropped, SendDone(0, false)) && !NoRace(dropped.c, SendDone(0, false))
  {
    hide IdOf;
    assert multiset{0} - multiset{0} == multiset{};
    var none: Ops := map[];
    assert map[0 := Request(1)] - {0} == none;
  }

  // A response arrives and the worker has found that its id matches; then the send fails, while the request
  // is still in tx_fifo; and then the worker goes on.
  lemma MatchThenFailure()
    ensures CanRun(Init(), [Create(0), Prepare(0)] + MatchRun())
    ensures var s := Run(Init(), [Create(0), Prepare(0)] + MatchRun());
            Enabled(s, SendDone(0, false)) && 0 in s.c.tx && !NoRace(s.c, SendDone(0, false))
    ensures var s := Step(Run(Init(), [Create(0), Prepare(0)] + MatchRun()), SendDone(0, false));
            var t := Run(s, [Unlist, Call, Drop]);
            Enabled(s, Unlist) && Enabled(Step(s, Unlist), Call) && Enabled(Step(Step(s, Unlist), Call), Drop)
            && t.c.log == [0] && t.c.users[0] == 1 && 0 !in t.ops
  {
    hide Step, Enabled, NoRace, MatchAt, MatchRun;
    MatchEnds();
    var at := seq(6, i requires 0 <= i < 6 => MatchAt(i));
    forall i: nat | i < 5
      ensures Enabled(at[i], MatchRun()[i]) && NoRace(at[i].c, MatchRun()[i]) && Step(at[i], MatchRun()[i]) == at[i + 1]
    {
      MatchStep(i);
    }
    GoesOnAllTheSame(at[5]);
    RunThrough(at, MatchRun());
    SendBegins();
    RunAppend(Init(), [Create(0), Prepare(0)], MatchRun());
  }

  function MatchAt(i: nat): State {
    var ops: Ops := map[0 := Request(2), 1 := Op(1, 1, true, 0, None)];
    var c, both := Sent(Idle, 0, []), map[0 := Waiting, 1 := Received];
    match i
    case 0 => State(map[0 := Request(2)], c)
    case 1 => State(ops, c.(sem := 1, rx := [Message(1)], phase := both))
    case 2 => State(ops, c.(rx := [Message(1)], phase := both, worker := Awake))
    case 3 => State(ops, c.(phase := both, worker := Walking(Some(1))))
    case 4 => State(ops, c.(phase := both, worker := At(0, Some(1))))
    case _ => State(ops, c.(phase := both, worker := Picked(0, Some(1))))
  }

  lemma MatchStep(i: nat)
    requires i < 5 && |MatchRun()| == 5
    ensures Enabled(MatchAt(i), MatchRun()[i]) && NoRace(MatchAt(i).c, MatchRun()[i])
    ensures Step(MatchAt(i), MatchRun()[i]) == MatchAt(i + 1)
  {
    IdFormula(0);
  }

  lemma MatchEnds()
    ensures |MatchRun()| == 5 && MatchAt(0) == State(map[0 := Request(2)], Sent(Idle, 0, []))
    ensures MatchAt(5).ops == map[0 := Request(2), 1 := Op(1, 1, true, 0, None)]
    ensures MatchAt(5).c == Sent(Picked(0, Some(1)), 0, []).(phase := map[0 := Waiting, 1 := Received])
  {
  }

  function MatchRun(): seq<Action> {
    [Receive(1, 1, true), Down, Take, Reach(0), Compare(true)]
  }

  lemma GoesOnAllTheSame(s: State)
    requires s.ops == map[0 := Request(2), 1 := Op(1, 1, true, 0, None)]
    requires s.c == Sent(Picked(0, Some(1)), 0, []).(phase := map[0 := Waiting, 1 := Received])
    ensures Enabled(s, SendDone(0, false)) && 0 in s.c.tx && !NoRace(s.c, SendDone(0, false))
    ensures var f := Step(s, SendDone(0, false));
            var t := Run(f, [Unlist, Call, Drop]);
            Enabled(f, Unlist) && Enabled(Step(f, Unlist), Call) && Enabled(Step(Step(f, Unlist), Call), Drop)
            && t.c.log == [0] && t.c.users[0] == 1 && 0 !in t.ops
  {
    hide IdOf, Unref;
    FailsInFlight(s);
    var f := Step(s, SendDone(0, false));
    WorkerGoesOn(f);
    hide Step, Enabled, NoRace;
    var u := Step(f, Unlist);
    var v := Step(u, Call);
    var w := Step(v, Drop);
    assert [Unlist, Call, Drop][1..] == [Call, Drop] && [Call, Drop][1..] == [Drop] && [Drop][1..] == [];
    assert Run(w, []) == w && Run(v, [Drop]) == w && Run(u, [Call, Drop]) == w && Run(f, [Unlist, Call, Drop]) == w;
  }

  // After the failure only the creator's reference is left.
  lemma FailsInFlight(s: State)
    requires s.ops == map[0 := Request(2), 1 := Op(1, 1, true, 0, None)]
    requires s.c == Sent(Picked(0, Some(1)), 0, []).(phase := map[0 := Waiting, 1 := Received])
    ensures Enabled(s, SendDone(0, false)) && 0 in s.c.tx && !NoRace(s.c, SendDone(0, false))
    ensures var f := Step(s, SendDone(0, false));
            f.ops == map[0 := Request(1), 1 := Op(1, 1, true, 0, None)] && f.c.users == multiset{0}
            && f.c.tx == [] && f.c.log == [] && f.c.worker == Picked(0, Some(1))
  {
    hide IdOf;
  }

  lemma WorkerGoesOn(f: State)
    requires f.ops == map[0 := Request(1), 1 := Op(1, 1, true, 0, None)] && f.c.users == multiset{0}
    requires f.c.tx == [] && f.c.log == [] && f.c.worker == Picked(0, Some(1))
    ensures Enabled(f, Unlist) && Enabled(Step(f, Unlist), Call) && Enabled(Step(Step(f, Unlist), Call), Drop)
    ensures var w := Step(Step(Step(f, Unlist), Call), Drop); w.c.log == [0] && w.c.users[0] == 1 && 0 !in w.ops
  {
    hide IdOf, Unref;
    var u := Step(f, Unlist);
    assert u.ops == f.ops && u.c.worker == Unlisted(0, Some(1));
    var v := Step(u, Call);
    assert v.ops == map[0 := Request(1).(response := Some(1)), 1 := Op(2, 1, true, 0, None)];
    RequestGoes(v.ops);
  }

  lemma RequestGoes(ops: Ops)
    requires ops == map[0 := Request(1).(response := Some(1)), 1 := Op(2, 1, true, 0, None)]
    ensures 0 !in Unref(ops, 0)
  {
    var rest := ops - {0};
    UnrefFrame(rest, 1);
    assert Unref(ops, 0) == Unref(rest, 1) && 0 !in rest;
  }

  // The worker stands at the request and has not compared yet when the send fails, which is harmless by
  // itself; but then it compares.
  lemma FailureThenMatch(s: State)
    requires Invariant(s) && s.c.worker == At(0, None) && 0 in s.c.tx && 0 in s.c.sending
    ensures NoRace(s.c, SendDone(0, false)) && Invariant(Step(s, SendDone(0, false)))
    ensures var t := Step(s, SendDone(0, false)); Enabled(t, Compare(true)) && !NoRace(t.c, Compare(true))
    ensures var t := Step(Step(s, SendDone(0, false)), Compare(true)); !Balanced(t.ops, Held(t.c))
  {
    hide Balanced, Held, OpsStep, LogOk, RxOk, WorkerOk, SendOk, ResponsesOk, IdsOk, ControlStep;
    StepKeepsInvariant(s, SendDone(0, false));
    GoneFromTx(s.c, 0);
    PickingIsSafe(Step(s, SendDone(0, false)));
  }

  lemma GoneFromTx(c: Control, x: nat)
    requires TxOk(c) && x in c.tx
    ensures x !in ControlStep(c, SendDone(x, false)).tx && ControlStep(c, SendDone(x, false)).worker == c.worker
  {
    WithoutMembers<nat>(c.tx, x);
  }

  // ----- the driver -----

  // The search of gb_process_response.
  function FindId(ops: Ops, tx: seq<nat>, id: nat): (r: Option<nat>)
    ensures r.Some? ==> r.value in tx && r.value in ops && ops[r.value].id == id
    ensures r == None ==> forall x | x in tx && x in ops :: ops[x].id != id
  {
    if tx == [] then None
    else if tx[0] in ops && ops[tx[0]].id == id then Some(tx[0])
    else FindId(ops, tx[1..], id)
  }

  // Entry i is the first of the list with this id.
  ghost predicate FirstWithId(ops: Ops, tx: seq<nat>, id: nat, i: nat) {
    i < |tx| && tx[i] in ops && ops[tx[i]].id == id && forall j: nat | j < i && tx[j] in ops :: ops[tx[j]].id != id
  }

  lemma {:induction false} FoundIsFirst(ops: Ops, tx: seq<nat>, id: nat)
    ensures FindId(ops, tx, id).Some? ==> exists i: nat :: FirstWithId(ops, tx, id, i) && tx[i] == FindId(ops, tx, id).value
    ensures FindId(ops, tx, id) == None ==> forall i: nat :: !FirstWithId(ops, tx, id, i)
  {
    if tx != [] {
      FoundIsFirst(ops, tx[1..], id);
      if tx[0] in ops && ops[tx[0]].id == id {
        assert FirstWithId(ops, tx, id, 0);
      } else if FindId(ops, tx[1..], id).Some? {
        var i: nat :| FirstWithId(ops, tx[1..], id, i) && tx[1..][i] == FindId(ops, tx[1..], id).value;
        assert forall j: nat | 0 < j <= i :: tx[j] == tx[1..][j - 1];
        assert FirstWithId(ops, tx, id, i + 1);
      }
    }
  }

  // What becomes of tx_fifo, of the callbacks and of the phases.
  datatype Effects = Effects(tx: seq<nat>, log: seq<nat>, phase: map<nat, Phase>)

  // Waiting request i has had its callback, with response x.
  predicate Completes(was: Effects, i: nat, x: nat, now: Effects) {
    && i < |was.tx| && now.tx == was.tx[..i] + was.tx[i + 1..]
    && now.log == was.log + [was.tx[i]] && now.phase == was.phase[was.tx[i] := Answered(x)]
  }

  // WHAT A MESSAGE DOES: a response takes the first waiting request with its id out of tx_fifo and completes it;
  // any other message, and a response without a request, leaves the requests alone.
  ghost predicate Handled(ops: Ops, x: nat, was: Effects, now: Effects) {
    x in ops &&
    if ops[x].isResponse && exists i: nat :: FirstWithId(ops, was.tx, ops[x].id, i)
    then exists i: nat :: FirstWithId(ops, was.tx, ops[x].id, i) && Completes(was, i, x, now)
    else now == was
  }

  lemma ResponseHandled(ops: Ops, x: nat, was: Effects, now: Effects)
    requires x in ops && ops[x].isResponse && NoDup<nat>(was.tx)
    requires var found := FindId(ops, was.tx, ops[x].id);
             if found.Some?
             then now == Effects(Without<nat>(was.tx, found.value), was.log + [found.value], was.phase[found.value := Answered(x)])
             else now == was
    ensures Handled(ops, x, was, now)
  {
    hide FindId, Without;
    FoundIsFirst(ops, was.tx, ops[x].id);
    if FindId(ops, was.tx, ops[x].id).Some? {
      var i: nat :| FirstWithId(ops, was.tx, ops[x].id, i) && was.tx[i] == FindId(ops, was.tx, ops[x].id).value;
      WithoutAt<nat>(was.tx, i);
      assert Completes(was, i, x, now);
    }
  }

  lemma OtherHandled(ops: Ops, x: nat, was: Effects)
    requires x in ops && !ops[x].isResponse
    ensures Handled(ops, x, was, was)
  {
  }

  lemma FindStep(ops: Ops, tx: seq<nat>, i: nat, id: nat)
    requires i < |tx| && tx[i] in ops
    ensures FindId(ops, tx[i..], id) == if ops[tx[i]].id == id then Some(tx[i]) else FindId(ops, tx[i + 1..], id)
  {
    assert tx[i..][1..] == tx[i + 1..];
  }

  lemma FindNothing(ops: Ops, tx: seq<nat>, id: nat)
    requires tx == []
    ensures FindId(ops, tx, id) == None
  {
  }

  lemma RefKeepsId(ops: Ops, x: nat)
    requires x in ops
    ensures x in Ref(ops, x) && Ref(ops, x)[x].id == ops[x].id
  {
  }

  lemma PrepareIs(s: State, x: nat)
    requires Enabled(s, Prepare(x)) && x in s.ops
    ensures NoRace(s.c, Prepare(x))
    ensures Step(s, Prepare(x))
         == State(Ref(s.ops[x := s.ops[x].(id := IdOf(s.c.issued), serial := s.c.issued)], x),
                  s.c.(tx := s.c.tx + [x], sending := s.c.sending + {x}, issued := s.c.issued + 1, phase := s.c.phase[x := Waiting]))
  {
  }

  lemma TakeIs(s: State)
    requires s.c.worker == Awake && s.c.rx != []
    ensures Enabled(s, Take) && NoRace(s.c, Take)
    ensures Step(s, Take)
         == State(s.ops, s.c.(rx := s.c.rx[1..], worker := Walking(if s.c.rx[0].Message? then Some(s.c.rx[0].op) else None)))
  {
  }

  lemma CompareIs(s: State)
    requires s.c.worker.At?
    ensures Step(s, Compare(true)) == State(s.ops, s.c.(worker := Picked(s.c.worker.p, s.c.worker.r)))
  {
  }

  lemma SemCountsEntries(s: State)
    requires Invariant(s)
    ensures s.c.sem + (if s.c.worker == Awake then 1 else 0) == |s.c.rx|
  {
    hide TxOk, LogOk, WorkerOk, SendOk, Balanced, ResponsesOk, IdsOk;
  }

  lemma NoDupTx(s: State)
    requires Invariant(s)
    ensures NoDup<nat>(s.c.tx)
  {
    hide LogOk, RxOk, WorkerOk, SendOk, Balanced, ResponsesOk, IdsOk;
  }

  // struct gb_cport with the operations; a list holds operations by name.
  class CPort {
    var ops: Ops
    var tx: seq<nat>
    var rx: seq<Entry>
    var sem: nat
    var requestId: nat // of the bus
    ghost var users: multiset<nat>
    ghost var worker: Worker
    ghost var sending: set<nat>
    ghost var sent: set<nat>
    var issued: nat // not in the source, which only has requestId
    ghost var phase: map<nat, Phase>
    ghost var log: seq<nat>

    ghost function View(): State
      reads this
    {
      State(ops, Control(users, tx, rx, sem, worker, sending, sent, issued, phase, log))
    }

    ghost function Shown(): Effects
      reads this`tx, this`log, this`phase
    {
      Effects(tx, log, phase)
    }

    ghost predicate Valid()
      reads this
    {
      Invariant(View()) && requestId == CounterAfter(issued)
    }

    // gb_init_cport, on a new bus
    constructor ()
      ensures Valid() && View() == Init()
    {
      ops, tx, rx, sem, requestId := map[], [], [], 0, 0;
      users, worker, sending, sent, issued, phase, log := multiset{}, Idle, {}, {}, 0, map[], [];
      new;
      InitInvariant();
    }

    // gb_operation_ref
    method OperationRef(x: nat)
      modifies this`ops
      ensures ops == Ref(old(ops), x)
    {
      if x in ops && ops[x].refs > 0 {
        ops := ops[x := ops[x].(refs := ops[x].refs + 1)];
      }
    }

    // gb_operation_unref
    method OperationUnref(x: nat)
      modifies this`ops
      ensures ops == Unref(old(ops), x)
      decreases |ops|
    {
      if x !in ops || ops[x].refs == 0 {
        return;
      }
      var refCount := ops[x].refs - 1;
      if refCount != 0 {
        ops := ops[x := ops[x].(refs := refCount)];
        return;
      }
      var response := ops[x].response;
      ghost var was := ops;
      ops := ops - {x}; // mcache_free
      assert ops.Keys == was.Keys - {x};
      assert |ops.Keys| < |was.Keys|;
      if response.Some? {
        OperationUnref(response.value);
      }
    }

    // gb_operation_create
    method OperationCreate(x: nat)
      requires Valid() && x !in phase
      modifies this
      ensures Valid() && View() == Step(old(View()), Create(x))
    {
      hide Invariant;
      StepKeepsInvariant(View(), Create(x));
      ops := ops[x := Op(1, 0, false, 0, None)];
      users, phase := users + multiset{x}, phase[x := Fresh];
    }

    // A new id: zero is for requests that need no response.
    method NextRequestId() returns (id: nat)
      modifies this`requestId
      ensures requestId == NextCounter(old(requestId)) && id == requestId % ID_SPACE
    {
      requestId := (requestId + 1) % COUNTER;
      id := requestId % ID_SPACE;
      if id == 0 {
        requestId := (requestId + 1) % COUNTER;
        id := requestId % ID_SPACE;
      }
    }

    // A request on another CPort takes an id.
    method OtherRequest()
      requires Valid()
      modifies this`requestId, this`issued
      ensures Valid() && View() == Step(old(View()), Action.OtherRequest)
    {
      hide Invariant;
      StepKeepsInvariant(View(), Action.OtherRequest);
      var _ := NextRequestId();
      issued := issued + 1;
    }

    // gb_operation_send_request, up to unipro_send
    method SendRequest(x: nat)
      requires Valid() && Enabled(View(), Prepare(x)) && x in ops
      modifies this
      ensures Valid() && View() == Step(old(View()), Prepare(x))
      ensures x in ops && ops[x].id > 0 && tx == old(tx) + [x]
    {
      hide Invariant, NextCounter, Unref, Step, NoRace, Ref, Enabled, Held;
      PrepareIs(View(), x);
      StepKeepsInvariant(View(), Prepare(x));
      IdsDiffer(issued, issued + 1);
      var id := NextRequestId();
      Enlist(x, id);
    }

    method Enlist(x: nat, id: nat)
      requires x in ops
      modifies this`ops, this`tx, this`sending, this`issued, this`phase
      ensures ops == Ref(old(ops)[x := old(ops)[x].(id := id, serial := old(issued))], x)
      ensures tx == old(tx) + [x] && sending == old(sending) + {x} && issued == old(issued) + 1
      ensures phase == old(phase)[x := Waiting]
      ensures x in ops && ops[x].id == id
    {
      hide Ref;
      ops := ops[x := ops[x].(id := id, serial := issued)];
      RefKeepsId(ops, x);
      OperationRef(x);
      tx := tx + [x];
      sending, issued, phase := sending + {x}, issued + 1, phase[x := Waiting];
    }

    // The rest of it, for the result of unipro_send. list_del does nothing to a request that is in no list.
    method SendFinish(x: nat, sendResult: int) returns (retval: int)
      requires Valid() && x in sending
      modifies this
      ensures View() == Step(old(View()), SendDone(x, sendResult >= 0))
      ensures sendResult >= 0 || (x in old(tx) && !(old(worker).Picked? && old(worker).p == x)) ==> Valid()
      ensures retval == if sendResult < 0 then sendResult else 0
      ensures tx == if sendResult < 0 then Without<nat>(old(tx), x) else old(tx)
    {
      hide Invariant, Unref;
      var ok := sendResult >= 0;
      if NoRace(View().c, SendDone(x, ok)) {
        StepKeepsInvariant(View(), SendDone(x, ok));
      }
      retval := 0;
      sending := sending - {x};
      if !ok {
        if x in tx {
          phase := phase[x := Failed];
        }
        tx := Without<nat>(tx, x);
        OperationUnref(x);
        retval := sendResult;
      } else {
        sent := sent + {x};
      }
    }

    // greybus_rx_handler. x is the operation that gb_operation_create gives, if it can.
    method RxHandler(x: nat, size: nat, hdrSize: nat, id: nat, isResponse: bool, hasHandlers: bool, isFast: bool, memory: bool)
      requires Valid() && x !in phase
      modifies this
      ensures Valid()
      ensures View() == if hasHandlers && 8 <= hdrSize <= size && !isFast && memory
                        then Step(old(View()), Receive(x, id, isResponse)) else old(View())
      ensures hasHandlers && 8 <= hdrSize <= size && !isFast && memory ==>
                rx == old(rx) + [Message(x)] && sem == old(sem) + 1 && ops == old(ops)[x := Op(1, id, isResponse, 0, None)]
    {
      if !hasHandlers || 8 > size || hdrSize > size || 8 > hdrSize || isFast || !memory {
        return;
      }
      hide Step;
      Deliver(x, id, isResponse);
    }

    method Deliver(x: nat, id: nat, isResponse: bool)
      requires Valid() && x !in phase
      modifies this
      ensures Valid() && View() == Step(old(View()), Receive(x, id, isResponse))
      ensures rx == old(rx) + [Message(x)] && sem == old(sem) + 1 && ops == old(ops)[x := Op(1, id, isResponse, 0, None)]
    {
      hide Invariant, Unref, Ref;
      StepKeepsInvariant(View(), Receive(x, id, isResponse));
      ops := ops[x := Op(1, id, isResponse, 0, None)];
      rx := rx + [Message(x)];
      sem := sem + 1;
      phase := phase[x := Received];
    }

    // gb_operation_timeout
    method OnTimeout()
      requires Valid()
      modifies this
      ensures Valid() && View() == Step(old(View()), Timeout)
      ensures if TimeoutMark in old(rx) then rx == old(rx) && sem == old(sem)
              else rx == old(rx) + [TimeoutMark] && sem == old(sem) + 1
    {
      hide Invariant;
      StepKeepsInvariant(View(), Timeout);
      if TimeoutMark in rx {
        return;
      }
      rx := rx + [TimeoutMark];
      sem := sem + 1;
    }

    // The worker's own steps.
    method Awaken()
      requires Valid() && worker == Idle && sem > 0
      modifies this`sem, this`worker
      ensures Valid() && View() == Step(old(View()), Down)
      ensures worker == Awake && sem == old(sem) - 1
    {
      hide Invariant;
      StepKeepsInvariant(View(), Down);
      sem := sem - 1; // semaphore_lock
      worker := Awake;
    }

    method TakeEntry() returns (head: Entry)
      requires Valid() && worker == Awake
      modifies this`rx, this`worker
      ensures Valid() && View() == Step(old(View()), Take)
      ensures |old(rx)| > 0 && head == old(rx)[0] && rx == old(rx)[1..]
      ensures worker == Walking(if head.Message? then Some(head.op) else None)
    {
      hide Invariant, Step, InRx, NoRace;
      SemCountsEntries(View());
      TakeIs(View());
      StepKeepsInvariant(View(), Take);
      head := rx[0];
      rx := rx[1..];
      worker := Walking(if head.Message? then Some(head.op) else None);
    }

    // The walk comes to an operation, and goes on from it or picks it.
    method LookAt(q: nat, ghost yes: bool)
      requires Valid() && worker.Walking? && q in tx
      requires worker.r.Some? ==> worker.r.value in ops && ops[worker.r.value].isResponse
      requires worker.r.Some? ==> SameId(ops, q, worker.r.value, yes)
      modifies this`worker
      ensures Valid() && worker == if yes then Picked(q, old(worker).r) else old(worker)
      ensures View() == Step(Step(old(View()), Reach(q)), Compare(yes))
    {
      hide Invariant, WasQueued;
      TxWasQueued(View(), q);
      StepKeepsInvariant(View(), Reach(q));
      worker := At(q, worker.r);
      StepKeepsInvariant(View(), Compare(yes));
      worker := if yes then Picked(q, worker.r) else Walking(worker.r);
    }

    // What follows for an operation that was picked: list_del,
    method TakeOff(p: nat, ghost r: Option<nat>)
      requires Valid() && worker == Picked(p, r)
      modifies this`tx, this`worker, this`phase
      ensures Valid() && View() == Step(old(View()), Unlist)
      ensures worker == Unlisted(p, r) && tx == Without<nat>(old(tx), p) && phase == old(phase)[p := Taken]
    {
      hide Invariant;
      StepKeepsInvariant(View(), Unlist);
      tx := Without<nat>(tx, p);
      phase, worker := phase[p := Taken], Unlisted(p, r);
    }

    // the response and the callback,
    method CallBack(p: nat, r: Option<nat>)
      requires Valid() && worker == Unlisted(p, r) && p in ops && (r.Some? ==> r.value in ops)
      modifies this`ops, this`worker, this`phase, this`log
      ensures Valid() && View() == Step(old(View()), Call)
      ensures worker == Called(p, r) && log == old(log) + [p]
      ensures phase == old(phase)[p := if r.Some? then Answered(r.value) else TimedOut]
      ensures ops == if r.Some? then Link(Ref(old(ops), r.value), p, r.value) else old(ops)
    {
      hide Invariant, Unref, InRx;
      StepKeepsInvariant(View(), Call);
      if r.Some? {
        OperationRef(r.value);
        ops := ops[p := ops[p].(response := r)];
      }
      phase := phase[p := if r.Some? then Answered(r.value) else TimedOut];
      log, worker := log + [p], Called(p, r); // the callback
    }

    // and gb_operation_unref.
    method DropRequest(p: nat)
      requires Valid() && worker.Called? && worker.p == p
      modifies this`ops, this`worker
      ensures Valid() && View() == Step(old(View()), Drop) && ops == Unref(old(ops), p)
      ensures worker == if old(worker).r.Some? then Done(old(worker).r.value) else Walking(None)
    {
      hide Invariant, Unref;
      StepKeepsInvariant(View(), Drop);
      OperationUnref(p);
      worker := if worker.r.Some? then Done(worker.r.value) else Walking(None);
    }

    method FinishWalk()
      requires Valid() && worker.Walking?
      modifies this`worker
      ensures Valid() && View() == Step(old(View()), EndWalk) && worker == AfterWalk(old(worker).r)
    {
      hide Invariant;
      StepKeepsInvariant(View(), EndWalk);
      worker := AfterWalk(worker.r);
    }

    // An unlisted operation: its callback, then the unref.
    method Finish(p: nat, r: Option<nat>)
      requires Valid() && worker == Unlisted(p, r) && (r.Some? ==> r.value in ops) && p in ops
      modifies this`ops, this`worker, this`phase, this`log
      ensures Valid() && View() == Step(Step(old(View()), Call), Drop)
      ensures worker == if r.Some? then Done(r.value) else Walking(None)
      ensures log == old(log) + [p]
      ensures phase == old(phase)[p := if r.Some? then Answered(r.value) else TimedOut]
      ensures ops == Unref(if r.Some? then Link(Ref(old(ops), r.value), p, r.value) else old(ops), p)
    {
      hide Invariant, Enabled, Step, Unref, Ref, Link;
      CallBack(p, r);
      DropRequest(p);
    }

    // A picked operation, from the list_del to the unref.
    method Complete(p: nat, r: Option<nat>)
      requires Valid() && worker == Picked(p, r)
      modifies this`ops, this`tx, this`worker, this`phase, this`log
      ensures Valid() && View() == Step(Step(Step(old(View()), Unlist), Call), Drop)
      ensures worker == if r.Some? then Done(r.value) else Walking(None)
      ensures tx == Without<nat>(old(tx), p) && log == old(log) + [p]
      ensures phase == old(phase)[p := if r.Some? then Answered(r.value) else TimedOut]
      ensures ops == Unref(if r.Some? then Link(Ref(old(ops), r.value), p, r.value) else old(ops), p)
    {
      hide Invariant, Enabled, Step, Unref, Ref, Link, Held, NoDup, Without;
      TakeOff(p, r);
      WorkerAlive(View());
      Finish(p, r);
    }

    // The search of gb_process_response, each comparison a step of its own.
    method FindRequest(x: nat) returns (found: Option<nat>)
      requires Valid() && worker == Walking(Some(x)) && x in ops && ops[x].isResponse
      modifies this`worker
      ensures Valid() && found == FindId(ops, tx, ops[x].id)
      ensures worker == if found.Some? then Picked(found.value, Some(x)) else old(worker)
    {
      hide Invariant, Enabled, Step, FindId;
      TxAlive(View());
      var i := 0;
      while i < |tx|
        invariant 0 <= i <= |tx| && Valid() && worker == Walking(Some(x))
        invariant FindId(ops, tx, ops[x].id) == FindId(ops, tx[i..], ops[x].id)
      {
        FindStep(ops, tx, i, ops[x].id);
        var same := ops[tx[i]].id == ops[x].id;
        LookAt(tx[i], same);
        if same {
          return Some(tx[i]);
        }
        i := i + 1;
      }
      FindNothing(ops, tx[i..], ops[x].id);
      return None;
    }

    // gb_process_response: the first request with the id is completed, if there is one.
    method ProcessResponse(x: nat)
      requires Valid() && worker == Walking(Some(x)) && x in ops && ops[x].isResponse
      modifies this`ops, this`tx, this`worker, this`phase, this`log
      ensures Valid() && worker == Done(x)
      ensures var found := old(FindId(ops, tx, ops[x].id));
              found == None ==> ops == old(ops) && tx == old(tx) && log == old(log) && phase == old(phase)
      ensures var found := old(FindId(ops, tx, ops[x].id));
              found.Some? ==> tx == Without<nat>(old(tx), found.value) && log == old(log) + [found.value]
      ensures var found := old(FindId(ops, tx, ops[x].id));
              found.Some? ==> phase == old(phase)[found.value := Answered(x)]
      ensures var found := old(FindId(ops, tx, ops[x].id));
              found.Some? ==> ops == Unref(Link(Ref(old(ops), x), found.value, x), found.value)
    {
      hide Invariant, Step, Unref, Ref, Link, FindId;
      var found := FindRequest(x);
      if found.Some? {
        Complete(found.value, Some(x));
      } else {
        FinishWalk();
      }
    }

    // One turn of the loop.
    method VisitTimedout(iter: seq<nat>, i: nat, expired: set<nat>)
      requires Valid() && worker == Walking(None) && i < |iter| && NoDup<nat>(iter)
      requires tx == Kept(iter[..i], expired) + iter[i..]
      modifies this`ops, this`tx, this`worker, this`phase, this`log
      ensures Valid() && worker == Walking(None)
      ensures tx == Kept(iter[..i + 1], expired) + iter[i + 1..]
      ensures log == old(log) + if iter[i] in expired then [iter[i]] else []
      ensures phase == if iter[i] in expired then old(phase)[iter[i] := TimedOut] else old(phase)
    {
      hide Invariant, Enabled, Step, Kept, Expired, NoDup, Unref, Link, Ref, Without;
      NextOfList(iter, i, expired, tx);
      LookAt(iter[i], iter[i] in expired);
      if iter[i] in expired {
        Complete(iter[i], None);
      }
    }

    // gb_clean_timedout_operation; `expired` are the operations that gb_operation_has_timedout reports.
    method CleanTimedout(expired: set<nat>)
      requires Valid() && worker == Walking(None)
      modifies this`ops, this`tx, this`worker, this`phase, this`log
      ensures Valid() && worker == Idle
      ensures tx == Kept(old(tx), expired) && log == old(log) + Expired(old(tx), expired)
      ensures phase == TimedOutAll(old(phase), Expired(old(tx), expired))
    {
      hide Invariant, Enabled, Step, Kept, Expired, NoDup, Unref, TimedOutAll;
      NoDupTx(View());
      StartOfList(tx, expired);
      NoneTimedOut(phase);
      var iter, i := tx, 0;
      while i < |iter|
        invariant 0 <= i <= |iter| && Valid() && worker == Walking(None)
        invariant tx == Kept(iter[..i], expired) + iter[i..]
        invariant log == old(log) + Expired(iter[..i], expired)
        invariant phase == TimedOutAll(old(phase), Expired(iter[..i], expired))
      {
        ExpiredNext(iter, i, expired);
        TimedOutNext(old(phase), Expired(iter[..i], expired), iter[i]);
        VisitTimedout(iter, i, expired);
        i := i + 1;
      }
      assert iter[..i] == iter && Kept(iter, expired) + iter[i..] == Kept(iter, expired);
      FinishWalk();
    }

    // One turn of gb_pending_message_worker.
    method WorkerTurn(expired: set<nat>)
      requires Valid() && worker == Idle && sem > 0
      modifies this
      ensures Valid() && worker == Idle && sem == old(sem) - 1
      ensures |old(rx)| > 0 && rx == old(rx)[1..]
      ensures old(rx)[0] == TimeoutMark ==> tx == Kept(old(tx), expired) && log == old(log) + Expired(old(tx), expired)
      ensures old(rx)[0] == TimeoutMark ==> phase == TimedOutAll(old(phase), Expired(old(tx), expired))
      ensures old(rx)[0].Message? ==> Handled(old(ops), old(rx)[0].op, old(Shown()), Shown())
    {
      hide Invariant, Step, Kept, Expired, Handled, TimedOutAll;
      Awaken();
      var head := TakeEntry();
      if head == TimeoutMark {
        CleanTimedout(expired);
      } else {
        HandleMessage(head.op);
      }
    }

    method HandleMessage(x: nat)
      requires Valid() && worker == Walking(Some(x))
      modifies this`ops, this`tx, this`worker, this`phase, this`log
      ensures Valid() && worker == Idle
      ensures Handled(old(ops), x, old(Shown()), Shown())
    {
      hide Invariant, Step, Unref, Ref, Link, Held, FindId, Handled, NoDup;
      WorkerAlive(View());
      NoDupTx(View());
      ghost var ops0, was := ops, Shown();
      if ops[x].isResponse {
        ProcessResponse(x);
        ResponseHandled(ops0, x, was, Shown());
      } else {
        FinishWalk(); // gb_process_request
        OtherHandled(ops0, x, was);
      }
      Discard(x);
    }

    // gb_operation_destroy by the worker
    method Discard(x: nat)
      requires Valid() && worker == Done(x)
      modifies this`ops, this`worker
      ensures Valid() && View() == Step(old(View()), Destroy) && worker == Idle
    {
      hide Invariant, Unref;
      StepKeepsInvariant(View(), Destroy);
      OperationUnref(x);
      worker := Idle;
    }
  }

  // The operations of a list that have expired, and the others, in order.
  function Expired(list: seq<nat>, expired: set<nat>): seq<nat> {
    if list == [] then []
    else Expired(list[..|list| - 1], expired) + if list[|list| - 1] in expired then [list[|list| - 1]] else []
  }

  function Kept(list: seq<nat>, expired: set<nat>): seq<nat> {
    if list == [] then []
    else Kept(list[..|list| - 1], expired) + if list[|list| - 1] in expired then [] else [list[|list| - 1]]
  }

  // Those that have expired stay in order ...
  lemma {:induction false} ExpiredSplits(a: seq<nat>, b: seq<nat>, expired: set<nat>)
    ensures Expired(a + b, expired) == Expired(a, expired) + Expired(b, expired)
  {
    if b == [] {
      assert a + b == a;
    } else {
      var n := |b| - 1;
      ExpiredSplits(a, b[..n], expired);
      assert (a + b)[..|a + b| - 1] == a + b[..n];
    }
  }

  // ... and so do the others.
  lemma {:induction false} KeptSplits(a: seq<nat>, b: seq<nat>, expired: set<nat>)
    ensures Kept(a + b, expired) == Kept(a, expired) + Kept(b, expired)
  {
    if b == [] {
      assert a + b == a;
    } else {
      var n := |b| - 1;
      KeptSplits(a, b[..n], expired);
      assert (a + b)[..|a + b| - 1] == a + b[..n];
    }
  }

  lemma ExpiredOne(p: nat, expired: set<nat>)
    ensures p in expired ==> Expired([p], expired) == [p] && Kept([p], expired) == []
    ensures p !in expired ==> Expired([p], expired) == [] && Kept([p], expired) == [p]
  {
  }

  // Each of them is TimedOut, and no other operation changes its phase.
  function TimedOutAll(phase: map<nat, Phase>, list: seq<nat>): (r: map<nat, Phase>)
    ensures forall p | p in list :: p in r && r[p] == TimedOut
    ensures forall p | p !in list :: (p in r <==> p in phase) && (p in phase ==> r[p] == phase[p])
  {
    if list == [] then phase
    else
      assert forall p :: p in list <==> p == list[|list| - 1] || p in list[..|list| - 1];
      TimedOutAll(phase, list[..|list| - 1])[list[|list| - 1] := TimedOut]
  }

  lemma TimedOutNext(phase: map<nat, Phase>, list: seq<nat>, p: nat)
    ensures TimedOutAll(phase, list + [p]) == TimedOutAll(phase, list)[p := TimedOut]
    ensures TimedOutAll(phase, list + []) == TimedOutAll(phase, list)
  {
    assert (list + [p])[..|list|] == list && list + [] == list;
  }

  lemma NoneTimedOut(phase: map<nat, Phase>)
    ensures TimedOutAll(phase, []) == phase
  {
  }

  lemma {:induction false} KeptMembers(list: seq<nat>, expired: set<nat>)
    ensures forall x :: x in Kept(list, expired) <==> x in list && x !in expired
  {
    if list != [] {
      KeptMembers(list[..|list| - 1], expired);
      assert list == list[..|list| - 1] + [list[|list| - 1]];
    }
  }

  lemma StartOfList(list: seq<nat>, expired: set<nat>)
    ensures Kept(list[..0], expired) + list[0..] == list && Expired(list[..0], expired) == []
  {
  }

  lemma ExpiredNext(list: seq<nat>, i: nat, expired: set<nat>)
    requires i < |list|
    ensures Expired(list[..i + 1], expired) == Expired(list[..i], expired) + if list[i] in expired then [list[i]] else []
  {
    assert list[..i + 1][..i] == list[..i];
  }

  lemma KeptNext(list: seq<nat>, i: nat, expired: set<nat>)
    requires i < |list|
    ensures Kept(list[..i + 1], expired) == Kept(list[..i], expired) + if list[i] in expired then [] else [list[i]]
  {
    assert list[..i + 1][..i] == list[..i];
  }

  lemma NextOfList(list: seq<nat>, i: nat, expired: set<nat>, tx: seq<nat>)
    requires i < |list| && NoDup<nat>(list)
    requires tx == Kept(list[..i], expired) + list[i..]
    ensures list[i] in tx
    ensures list[i] in expired ==> Without<nat>(tx, list[i]) == Kept(list[..i + 1], expired) + list[i + 1..]
    ensures list[i] !in expired ==> tx == Kept(list[..i + 1], expired) + list[i + 1..]
  {
    hide Without, Kept, Expired;
    var k := Kept(list[..i], expired);
    assert list[i..] == [list[i]] + list[i + 1..];
    assert tx[|k|] == list[i];
    KeptMembers(list[..i], expired);
    KeptNext(list, i, expired);
    WithoutMiddle(k, list[i], list[i + 1..]);
  }

  lemma {:induction false} WithoutMiddle(a: seq<nat>, x: nat, b: seq<nat>)
    requires x !in a
    ensures Without<nat>(a + ([x] + b), x) == a + b
  {
    if a == [] {
      assert a + ([x] + b) == [x] + b && a + b == b;
    } else {
      WithoutMiddle(a[1..], x, b);
      assert (a + ([x] + b))[1..] == a[1..] + ([x] + b);
      assert [a[0]] + (a[1..] + b) == a + b;
    }
  }
}
