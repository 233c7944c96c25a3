// drivers/unipro/unipro-tsb-es2.c: asynchronous transmission. Senders queue a buffer on a CPort and then
// post a semaphore; one worker takes a wakeup and goes round all CPorts until a pass leaves no buffer
// half sent. Each step below is a section with interrupts disabled, or touches what only the worker uses.
module UniPro {
  const EPIPE: int := 32
  const EBUSY: int := 16
  const ENOMEM: int := 12

  // struct tsb_unipro_buffer. `started` is history: the start of the message has been sent with the flag.
  datatype Buffer = Buffer(id: nat, data: seq<int>, sent: nat, som: bool, started: bool)

  datatype Message = Message(id: nat, data: seq<int>)

  // One call of a completion callback, with the bytes that had been sent by then.
  datatype Completion = Completion(id: nat, status: int, bytes: seq<int>, started: bool)

  // What the CPort's TX buffer receives. Data written to its first address starts a message.
  datatype Item = Byte(value: int, start: bool) | EndOfMessage

  // `accepted`, `done` and `stream` are the history of the CPort.
  datatype CPort = CPort(fifo: seq<Buffer>, accepted: seq<Message>, done: seq<Completion>, stream: seq<Item>)

  // The bytes of one or more writes, of which only the first may be to the first address.
  function Items(bytes: seq<int>, start: bool): (r: seq<Item>)
    ensures |r| == |bytes| && forall i | 0 <= i < |bytes| :: r[i] == Byte(bytes[i], start && i == 0)
  {
    if bytes == [] then []
    else Items(bytes[..|bytes| - 1], start) + [Byte(bytes[|bytes| - 1], start && |bytes| == 1)]
  }

  lemma ItemsAppend(a: seq<int>, b: seq<int>, start: bool)
    ensures a != [] ==> Items(a + b, start) == Items(a, start) + Items(b, false)
    ensures a == [] ==> Items(a + b, start) == Items(a, false) + Items(b, start)
    ensures Items(a + b, false) == Items(a, false) + Items(b, false)
  {
  }

  // The stream that the completed buffers leave behind: whole messages are closed, dropped ones are not.
  function Delivered(done: seq<Completion>): seq<Item> {
    if done == [] then []
    else
      var last := done[|done| - 1];
      Delivered(done[..|done| - 1]) + Items(last.bytes, last.started) + (if last.status == 0 then [EndOfMessage] else [])
  }

  // ----- one CPort -----

  // The list_add of tsb_unipro_send_async.
  function Enqueue(c: CPort, m: Message): CPort {
    c.(fifo := c.fifo + [Buffer(m.id, m.data, 0, true, false)], accepted := c.accepted + [m])
  }

  function Min(a: nat, b: nat): nat {
    if a < b then a else b
  }

  // unipro_dequeue_tx_buffer; a whole message has been closed before (unipro_set_eom_flag).
  function Dequeue(c: CPort, status: int): CPort
    requires c.fifo != [] && c.fifo[0].sent <= |c.fifo[0].data|
  {
    var b := c.fifo[0];
    c.(fifo := c.fifo[1..], done := c.done + [Completion(b.id, status, b.data[..b.sent], b.started)],
       stream := if status == 0 then c.stream + [EndOfMessage] else c.stream)
  }

  // The buffer after a visit that finds this space.
  function Advance(b: Buffer, space: nat): Buffer
    requires b.sent <= |b.data|
  {
    var n := Min(space, |b.data| - b.sent);
    b.(som := false, sent := b.sent + n, started := b.started || (b.som && n > 0))
  }

  // _tsb_unipro_send puts as much of the first buffer as fits into the TX buffer.
  function Send(c: CPort, space: nat): CPort
    requires c.fifo != [] && c.fifo[0].sent <= |c.fifo[0].data|
  {
    var b := c.fifo[0];
    var b' := Advance(b, space);
    c.(fifo := [b'] + c.fifo[1..], stream := c.stream + Items(b.data[b.sent..b'.sent], b.som))
  }

  // tsb_unipro_send_tx_buffer, for the free space in the CPort's TX buffer.
  function Visit(c: CPort, space: nat, connected: bool): (CPort, int)
    requires InOrder(c)
  {
    if c.fifo == [] then (c, 0)
    else if !connected then (Dequeue(c, -EPIPE), -EPIPE)
    else
      var c' := Send(c, space);
      if c'.fifo[0].sent >= |c'.fifo[0].data| then (Dequeue(c', 0), 0) else (c', -EBUSY)
  }

  // Every accepted message is completed once, in order, or still queued; the stream is what the completed
  // ones sent followed by the sent part of the first queued one.
  ghost predicate InOrder(c: CPort) {
    && |c.accepted| == |c.done| + |c.fifo|
    && (forall k | 0 <= k < |c.fifo| :: c.fifo[k].id == c.accepted[|c.done| + k].id && c.fifo[k].data == c.accepted[|c.done| + k].data)
    && (forall k | 0 <= k < |c.fifo| :: c.fifo[k].sent <= |c.fifo[k].data| && (k > 0 ==> c.fifo[k].sent == 0 && c.fifo[k].som))
  }

  ghost predicate Completed(c: CPort) {
    && |c.done| <= |c.accepted|
    && forall k | 0 <= k < |c.done| ::
      c.done[k].id == c.accepted[k].id && c.done[k].bytes <= c.accepted[k].data
      && (c.done[k].status == 0 ==> c.done[k].bytes == c.accepted[k].data)
  }

  // A buffer with its flag has sent nothing; one that has sent nothing has not started its message.
  predicate FlagOk(b: Buffer) {
    (b.som ==> b.sent == 0) && (b.started ==> b.sent > 0)
  }

  ghost predicate Streamed(c: CPort) {
    && (c.fifo != [] ==> c.fifo[0].sent <= |c.fifo[0].data|)
    && (forall k | 0 <= k < |c.fifo| :: FlagOk(c.fifo[k]))
    && c.stream == Delivered(c.done)
                   + (if c.fifo == [] then [] else Items(c.fifo[0].data[..c.fifo[0].sent], c.fifo[0].started))
  }

  ghost predicate CPortInvariant(c: CPort) {
    InOrder(c) && Completed(c) && Streamed(c)
  }

  lemma EnqueueKeepsInvariant(c: CPort, m: Message)
    requires CPortInvariant(c)
    ensures CPortInvariant(Enqueue(c, m))
  {
  }

  lemma DequeueKeepsOrder(c: CPort, status: int)
    requires InOrder(c) && Completed(c) && c.fifo != []
    requires status == 0 ==> c.fifo[0].sent == |c.fifo[0].data|
    ensures InOrder(Dequeue(c, status)) && Completed(Dequeue(c, status))
  {
    var b := c.fifo[0];
    assert b.id == c.accepted[|c.done| + 0].id;
    assert b.data[..b.sent] <= b.data;
  }

  lemma SendKeepsOrder(c: CPort, space: nat)
    requires InOrder(c) && Completed(c) && c.fifo != []
    ensures InOrder(Send(c, space)) && Completed(Send(c, space))
  {
  }

  lemma DequeueKeepsStream(c: CPort, status: int)
    requires Streamed(c) && c.fifo != []
    requires |c.fifo| > 1 ==> c.fifo[1].sent == 0
    ensures Streamed(Dequeue(c, status))
  {
    hide Items, Delivered;
    var b := c.fifo[0];
    var d := Completion(b.id, status, b.data[..b.sent], b.started);
    DeliveredOneMore(c.done, d);
    assert forall k | 0 <= k < |c.fifo| - 1 :: c.fifo[1..][k] == c.fifo[k + 1];
    NoItems();
  }

  lemma DeliveredOneMore(done: seq<Completion>, d: Completion)
    ensures Delivered(done + [d])
         == Delivered(done) + Items(d.bytes, d.started) + (if d.status == 0 then [EndOfMessage] else [])
  {
    assert (done + [d])[..|done|] == done;
  }

  lemma SendKeepsStream(c: CPort, space: nat)
    requires Streamed(c) && c.fifo != []
    ensures Streamed(Send(c, space))
  {
    hide Delivered, Items;
    var b := c.fifo[0];
    var b' := Advance(b, space);
    var x, y := b.data[..b.sent], b.data[b.sent..b'.sent];
    assert x + y == b.data[..b'.sent];
    SendItems(b, space);
    Associates(Delivered(c.done), Items(x, b.started), Items(y, b.som));
  }

  // What is sent in one visit continues what was sent before it.
  lemma SendItems(b: Buffer, space: nat)
    requires b.sent <= |b.data| && FlagOk(b)
    ensures FlagOk(Advance(b, space))
    ensures var b' := Advance(b, space);
            Items(b.data[..b.sent], b.started) + Items(b.data[b.sent..b'.sent], b.som) == Items(b.data[..b'.sent], b'.started)
  {
    hide Items;
    var b' := Advance(b, space);
    var x, y := b.data[..b.sent], b.data[b.sent..b'.sent];
    assert x + y == b.data[..b'.sent];
    ItemsAppend(x, y, b'.started);
    if y == [] {
      NoItems();
    }
  }

  lemma NoItems()
    ensures Items([], true) == Items([], false) == []
  {
  }

  lemma Associates<T>(a: seq<T>, b: seq<T>, c: seq<T>)
    ensures a + b + c == a + (b + c)
  {
  }

  lemma VisitKeepsInvariant(c: CPort, space: nat, connected: bool)
    requires CPortInvariant(c)
    ensures CPortInvariant(Visit(c, space, connected).0)
  {
    if c.fifo != [] {
      if !connected {
        DequeueKeepsOrder(c, -EPIPE);
        DequeueKeepsStream(c, -EPIPE);
      } else {
        SendKeepsOrder(c, space);
        SendKeepsStream(c, space);
        var c' := Send(c, space);
        if c'.fifo[0].sent == |c'.fifo[0].data| {
          DequeueKeepsOrder(c', 0);
          DequeueKeepsStream(c', 0);
        }
      }
    }
  }

  // A visit sends a buffer on, or completes it, or finds nothing to do.
  lemma VisitResult(c: CPort, space: nat, connected: bool)
    requires InOrder(c)
    ensures Visit(c, space, connected).1 == -EBUSY <==> |Visit(c, space, connected).0.fifo| == |c.fifo| > 0
    ensures Visit(c, space, connected).1 != -EBUSY && c.fifo != [] ==> |Visit(c, space, connected).0.fifo| == |c.fifo| - 1
    ensures c.fifo == [] ==> Visit(c, space, connected) == (c, 0)
  {
  }

  // A buffer on a CPort that is not connected is dropped, with that status and without a byte.
  lemma DisconnectedDrops(c: CPort, space: nat)
    requires InOrder(c) && c.fifo != []
    ensures var v, b := Visit(c, space, false), c.fifo[0];
            && v.1 == -32 && v.0.fifo == c.fifo[1..] && v.0.stream == c.stream
            && v.0.done == c.done + [Completion(b.id, -32, b.data[..b.sent], b.started)]
  {
  }

  // A buffer whose last byte is sent ends its message and is reported with status 0; any other stays, further on.
  lemma ConnectedSends(c: CPort, space: nat)
    requires InOrder(c) && c.fifo != []
    ensures var v, b := Visit(c, space, true), c.fifo[0];
            var left := |b.data| - b.sent;
            if space >= left
            then v.1 == 0 && v.0.fifo == c.fifo[1..] && |v.0.done| == |c.done| + 1
                 && v.0.done[|c.done|].id == b.id && v.0.done[|c.done|].status == 0 && v.0.done[|c.done|].bytes == b.data
                 && v.0.stream != [] && v.0.stream[|v.0.stream| - 1] == EndOfMessage
            else v.1 == -16 && v.0.done == c.done && v.0.fifo[0].data == b.data && v.0.fifo[0].sent == b.sent + space
                 && |v.0.stream| == |c.stream| + space
  {
  }

  // ----- senders and worker -----

  datatype Phase = Blocked | Pass(i: nat, busy: bool)

  // `pending` is the count of the semaphore, `posting` the number of senders between their list_add and
  // their semaphore_up; `owed` holds from the time the worker takes a wakeup until a buffer leaves.
  datatype State = State(cports: seq<CPort>, pending: nat, posting: nat, phase: Phase, owed: bool)

  datatype Action =
    | Queue(cport: nat, m: Message)
    | Post
    | Down
    | Serve(space: nat, connected: bool) // the worker visits its next CPort
    | EndPass

  ghost predicate Enabled(s: State, a: Action) {
    match a
    case Queue(c, m) => c < |s.cports|
    case Post => s.posting > 0
    case Down => s.phase == Blocked && s.pending > 0
    case Serve(space, connected) => s.phase.Pass? && s.phase.i < |s.cports| && InOrder(s.cports[s.phase.i])
    case EndPass => s.phase.Pass? && s.phase.i == |s.cports|
  }

  ghost function Step(s: State, a: Action): State
    requires Enabled(s, a)
  {
    match a
    case Queue(c, m) => s.(cports := s.cports[c := Enqueue(s.cports[c], m)], posting := s.posting + 1)
    case Post => s.(posting := s.posting - 1, pending := s.pending + 1)
    case Down => s.(pending := s.pending - 1, phase := Pass(0, false), owed := true)
    case Serve(space, connected) =>
      var i := s.phase.i;
      var (c, retval) := Visit(s.cports[i], space, connected);
      s.(cports := s.cports[i := c], phase := Pass(i + 1, s.phase.busy || retval == -EBUSY),
         owed := s.owed && |c.fifo| == |s.cports[i].fifo|)
    case EndPass => s.(phase := if s.phase.busy then Pass(0, false) else Blocked)
  }

  // The number of buffers queued on the first n CPorts.
  function Total(cports: seq<CPort>, n: nat): nat
    requires n <= |cports|
  {
    if n == 0 then 0 else Total(cports, n - 1) + |cports[n - 1].fifo|
  }

  lemma {:induction false} TotalUpdate(cports: seq<CPort>, n: nat, i: nat, c: CPort)
    requires n <= |cports| && i < |cports|
    ensures Total(cports[i := c], n) == Total(cports, n) + (if i < n then |c.fifo| - |cports[i].fifo| else 0)
  {
    if n > 0 {
      TotalUpdate(cports, n - 1, i, c);
    }
  }

  lemma {:induction false} TotalZero(cports: seq<CPort>, n: nat)
    requires n <= |cports|
    ensures Total(cports, n) == 0 <==> forall i | 0 <= i < n :: cports[i].fifo == []
  {
    if n > 0 {
      TotalZero(cports, n - 1);
    }
  }

  // NO STRANDED BUFFER: what is queued never exceeds the wakeups that are pending or about to be posted,
  // plus the one that the worker has taken and not yet used. While it has not used it, and has not met a
  // half-sent buffer in this pass, the CPorts behind it hold no more than the wakeups to come.
  ghost predicate Covered(s: State) {
    match s.phase
    case Blocked => Total(s.cports, |s.cports|) <= s.pending + s.posting
    case Pass(i, busy) =>
      && i <= |s.cports|
      && Total(s.cports, |s.cports|) <= s.pending + s.posting + (if s.owed then 1 else 0)
      && (s.owed && !busy ==> Total(s.cports, i) <= s.pending + s.posting)
  }

  ghost predicate Invariant(s: State) {
    Covered(s) && forall i | 0 <= i < |s.cports| :: CPortInvariant(s.cports[i])
  }

  function Idle(n: nat): (r: seq<CPort>)
    ensures |r| == n && forall i | 0 <= i < n :: r[i] == CPort([], [], [], [])
  {
    if n == 0 then [] else Idle(n - 1) + [CPort([], [], [], [])]
  }

  function Init(n: nat): State {
    State(Idle(n), 0, 0, Blocked, false)
  }

  lemma InitInvariant(n: nat)
    ensures Invariant(Init(n))
  {
    TotalZero(Idle(n), n);
  }

  lemma StepKeepsCovered(s: State, a: Action)
    requires Covered(s) && Enabled(s, a)
    ensures Covered(Step(s, a))
  {
    var n := |s.cports|;
    match a
    case Queue(c, m) =>
      TotalUpdate(s.cports, n, c, Enqueue(s.cports[c], m));
      if s.phase.Pass? {
        TotalUpdate(s.cports, s.phase.i, c, Enqueue(s.cports[c], m));
      }
    case Serve(space, connected) =>
      var i := s.phase.i;
      var c := Visit(s.cports[i], space, connected).0;
      VisitResult(s.cports[i], space, connected);
      TotalUpdate(s.cports, n, i, c);
      TotalUpdate(s.cports, i, i, c);
      TotalUpdate(s.cports, i + 1, i, c);
    case _ =>
  }

  lemma StepKeepsCPorts(s: State, a: Action)
    requires Enabled(s, a) && forall i | 0 <= i < |s.cports| :: CPortInvariant(s.cports[i])
    ensures |Step(s, a).cports| == |s.cports|
    ensures forall i | 0 <= i < |s.cports| :: CPortInvariant(Step(s, a).cports[i])
  {
    match a
    case Queue(c, m) => EnqueueKeepsInvariant(s.cports[c], m);
    case Serve(space, connected) =>
      VisitKeepsInvariant(s.cports[s.phase.i], space, connected);
    case _ =>
  }

  lemma StepKeepsInvariant(s: State, a: Action)
    requires Invariant(s) && Enabled(s, a)
    ensures Invariant(Step(s, a)) && |Step(s, a).cports| == |s.cports|
  {
    StepKeepsCovered(s, a);
    StepKeepsCPorts(s, a);
  }

  lemma AllInOrder(s: State)
    requires Invariant(s)
    ensures forall i | 0 <= i < |s.cports| :: InOrder(s.cports[i])
  {
    assert forall i | 0 <= i < |s.cports| :: CPortInvariant(s.cports[i]);
  }

  lemma BlockedIsCovered(s: State)
    requires Invariant(s)
    ensures s.phase == Blocked ==> Total(s.cports, |s.cports|) <= s.pending + s.posting
  {
  }

  lemma ServeKeepsInvariant(s: State, space: nat, connected: bool)
    requires Invariant(s) && s.phase.Pass? && s.phase.i < |s.cports|
    ensures InOrder(s.cports[s.phase.i]) && Invariant(Step(s, Serve(space, connected)))
  {
    AllInOrder(s);
    StepKeepsInvariant(s, Serve(space, connected));
  }

  ghost predicate CanRun(s: State, run: seq<Action>)
    decreases |run|
  {
    run == [] || (Enabled(s, run[0]) && CanRun(Step(s, run[0]), run[1..]))
  }

  ghost function Run(s: State, run: seq<Action>): State
    requires CanRun(s, run)
    decreases |run|
  {
    if run == [] then s else Run(Step(s, run[0]), run[1..])
  }

  lemma {:induction false} RunKeepsInvariant(s: State, run: seq<Action>)
    requires Invariant(s) && CanRun(s, run)
    ensures Invariant(Run(s, run)) && |Run(s, run).cports| == |s.cports|
    decreases |run|
  {
    if run != [] {
      StepKeepsInvariant(s, run[0]);
      RunKeepsInvariant(Step(s, run[0]), run[1..]);
    }
  }

  // In every reachable state in which the worker is blocked and no wakeup is under way, every FIFO is
  // empty: each accepted message has had its callback, exactly once and in order.
  lemma QuiescentIsEmpty(n: nat, run: seq<Action>, i: nat)
    requires CanRun(Init(n), run) && i < n
    requires var s := Run(Init(n), run); s.phase == Blocked && s.pending == 0 && s.posting == 0
    ensures |Run(Init(n), run).cports| == n
    ensures var c := Run(Init(n), run).cports[i];
            c.fifo == [] && |c.done| == |c.accepted| && c.stream == Delivered(c.done)
    ensures var c := Run(Init(n), run).cports[i];
            forall k | 0 <= k < |c.done| :: c.done[k].id == c.accepted[k].id && (c.done[k].status == 0 ==> c.done[k].bytes == c.accepted[k].data)
  {
    InitInvariant(n);
    RunKeepsInvariant(Init(n), run);
    var s := Run(Init(n), run);
    TotalZero(s.cports, n);
    assert CPortInvariant(s.cports[i]);
  }

  // ----- the worker drains the FIFOs -----

  // Bytes still to be sent, and one for each buffer.
  function Work(fifo: seq<Buffer>): int {
    if fifo == [] then 0 else |fifo[0].data| - fifo[0].sent + 1 + Work(fifo[1..])
  }

  function TotalWork(cports: seq<CPort>, n: nat): int
    requires n <= |cports|
  {
    if n == 0 then 0 else TotalWork(cports, n - 1) + Work(cports[n - 1].fifo)
  }

  lemma {:induction false} WorkUpdate(cports: seq<CPort>, n: nat, i: nat, c: CPort)
    requires n <= |cports| && i < |cports|
    ensures TotalWork(cports[i := c], n) == TotalWork(cports, n) + (if i < n then Work(c.fifo) - Work(cports[i].fifo) else 0)
  {
    if n > 0 {
      WorkUpdate(cports, n - 1, i, c);
    }
  }

  lemma {:induction false} WorkIsPositive(fifo: seq<Buffer>)
    requires forall k | 0 <= k < |fifo| :: fifo[k].sent <= |fifo[k].data|
    ensures Work(fifo) >= 0
  {
    if fifo != [] {
      WorkIsPositive(fifo[1..]);
    }
  }

  lemma {:induction false} TotalWorkIsPositive(cports: seq<CPort>, n: nat)
    requires n <= |cports| && forall i | 0 <= i < |cports| :: InOrder(cports[i])
    ensures TotalWork(cports, n) >= 0
  {
    if n > 0 {
      TotalWorkIsPositive(cports, n - 1);
      WorkIsPositive(cports[n - 1].fifo);
    }
  }

  predicate Useful(space: nat, connected: bool) {
    space > 0 || !connected
  }

  // A visit that can send or drop something leaves less work, unless there was none.
  lemma VisitWorks(c: CPort, space: nat, connected: bool)
    requires InOrder(c) && Useful(space, connected)
    ensures var v := Visit(c, space, connected); Work(v.0.fifo) + (if v.1 == -EBUSY then 1 else 0) <= Work(c.fifo)
  {
    if c.fifo != [] {
      assert Send(c, space).fifo[1..] == c.fifo[1..];
    }
  }

  function Rounds(s: State): int {
    s.pending + TotalWork(s.cports, |s.cports|) + (if s.phase.Pass? && s.phase.busy then 1 else 0)
  }

  function StepsLeft(s: State): int {
    if s.phase.Pass? then |s.cports| + 1 - s.phase.i else 0
  }

  function Times(k: int, n: nat): int {
    if k <= 0 then 0 else Times(k - 1, n) + n
  }

  lemma {:induction false} TimesMonotone(j: int, k: int, n: nat)
    requires j <= k
    ensures Times(j, n) <= Times(k, n)
    ensures 0 <= j < k ==> Times(j, n) + n <= Times(k, n)
    decreases k - j
  {
    if j < k {
      TimesMonotone(j, k - 1, n);
    }
  }

  // A bound on the number of steps that the worker still takes.
  function Bound(s: State): int {
    Times(Rounds(s), |s.cports| + 2) + StepsLeft(s)
  }

  predicate ByWorker(a: Action) {
    a.Down? || a.EndPass? || (a.Serve? && Useful(a.space, a.connected))
  }

  lemma RoundsShrink(s: State, a: Action)
    requires Invariant(s) && Enabled(s, a) && ByWorker(a)
    ensures Rounds(s) >= 0 && Rounds(Step(s, a)) + (if a.Down? || (a.EndPass? && s.phase.busy) then 1 else 0) <= Rounds(s)
  {
    TotalWorkIsPositive(s.cports, |s.cports|);
    if a.Serve? {
      var i := s.phase.i;
      var v := Visit(s.cports[i], a.space, a.connected);
      VisitWorks(s.cports[i], a.space, a.connected);
      WorkUpdate(s.cports, |s.cports|, i, v.0);
    }
  }

  lemma WorkerStepCounts(s: State, a: Action)
    requires Invariant(s) && Enabled(s, a) && ByWorker(a)
    ensures Bound(Step(s, a)) < Bound(s) && Step(s, a).posting == s.posting
  {
    hide Rounds, Invariant, InOrder, Visit;
    var s' := Step(s, a);
    RoundsShrink(s, a);
    StepKeepsInvariant(s, a);
    StillPositive(s, a);
    TimesMonotone(Rounds(s'), Rounds(s), |s.cports| + 2);
  }

  lemma StillPositive(s: State, a: Action)
    requires Invariant(s) && Enabled(s, a)
    ensures Rounds(Step(s, a)) >= 0
  {
    StepKeepsInvariant(s, a);
    TotalWorkIsPositive(Step(s, a).cports, |s.cports|);
  }

  lemma NothingLeftToDo(s: State)
    requires Invariant(s)
    ensures 0 <= Bound(s)
    ensures (forall a | ByWorker(a) :: !Enabled(s, a)) ==> s.phase == Blocked && s.pending == 0
    ensures (forall a | ByWorker(a) :: !Enabled(s, a)) && s.posting == 0 ==> forall i | 0 <= i < |s.cports| :: s.cports[i].fifo == []
  {
    hide CPortInvariant, InOrder;
    NonNegative(s);
    AllInOrder(s);
    assert ByWorker(Down) && ByWorker(EndPass) && ByWorker(Serve(1, true));
    TotalZero(s.cports, |s.cports|);
  }

  lemma NonNegative(s: State)
    requires Invariant(s)
    ensures 0 <= Bound(s)
  {
    AllInOrder(s);
    TotalWorkIsPositive(s.cports, |s.cports|);
    TimesMonotone(0, Rounds(s), |s.cports| + 2);
  }

  // THE WORKER DRAINS: while the CPorts have space or are disconnected and nobody sends, the worker takes
  // a bounded number of steps, and when it cannot take another it is blocked on a count of zero; with no
  // sender half way, every FIFO is then empty.
  lemma {:induction false} WorkerDrains(s: State, run: seq<Action>)
    requires Invariant(s) && CanRun(s, run) && forall a | a in run :: ByWorker(a)
    ensures |run| <= Bound(s)
    ensures (forall a | ByWorker(a) :: !Enabled(Run(s, run), a)) ==> Run(s, run).phase == Blocked && Run(s, run).pending == 0
    ensures (forall a | ByWorker(a) :: !Enabled(Run(s, run), a)) && s.posting == 0 ==>
              forall i | 0 <= i < |Run(s, run).cports| :: Run(s, run).cports[i].fifo == []
    decreases |run|
  {
    hide Invariant, Step, Bound;
    if run == [] {
      NothingLeftToDo(s);
    } else {
      assert run[0] in run;
      StepKeepsInvariant(s, run[0]);
      WorkerStepCounts(s, run[0]);
      WorkerDrains(Step(s, run[0]), run[1..]);
    }
  }

  // ----- the start-of-message flag -----

  // Message n of the CPort has been started with the flag: the first of its bytes in the stream has it.
  predicate Started(c: CPort, n: nat)
    requires |c.done| <= n ==> n - |c.done| < |c.fifo|
  {
    if n < |c.done| then c.done[n].started else c.fifo[n - |c.done|].started
  }

  // Message n has not been visited on a connected CPort.
  predicate Fresh(c: CPort, n: nat) {
    |c.done| <= n < |c.done| + |c.fifo| && c.fifo[n - |c.done|].som
  }

  lemma FlagsAreOk(c: CPort)
    requires CPortInvariant(c)
    ensures InOrder(c) && forall k | 0 <= k < |c.fifo| :: FlagOk(c.fifo[k])
  {
  }

  // WHEN A MESSAGE STARTS WITH THE FLAG: exactly when its first visit on a connected CPort finds space. A
  // first visit that finds none clears the flag all the same, and no later one sets it.
  lemma StartFlag(c: CPort, space: nat, connected: bool, n: nat)
    requires CPortInvariant(c) && n < |c.accepted|
    ensures var c' := Visit(c, space, connected).0;
            var first := n == |c.done| && connected && Fresh(c, n);
            && |c'.accepted| == |c'.done| + |c'.fifo|
            && (Fresh(c', n) ==> Fresh(c, n))
            && (n == |c.done| && connected ==> !Fresh(c', n))
            && (Started(c', n) <==> Started(c, n) || (first && space > 0 && c.accepted[n].data != []))
  {
    hide Visit, CPortInvariant;
    VisitKeepsInvariant(c, space, connected);
    FlagsAreOk(c);
    FlagsAreOk(Visit(c, space, connected).0);
    if n == |c.done| {
      FirstFlag(c, space, connected);
    } else {
      OtherFlags(c, space, connected, n);
    }
  }

  lemma FirstFlag(c: CPort, space: nat, connected: bool)
    requires InOrder(c) && |c.done| < |c.accepted| && FlagOk(c.fifo[0])
    ensures var c', n := Visit(c, space, connected).0, |c.done|;
            && n < |c'.done| + |c'.fifo|
            && (Fresh(c', n) ==> Fresh(c, n)) && (connected ==> !Fresh(c', n))
            && (Started(c', n) <==> Started(c, n) || (connected && Fresh(c, n) && space > 0 && c.accepted[n].data != []))
  {
    hide Items;
    var b := c.fifo[0];
    assert b.id == c.accepted[|c.done| + 0].id && b.data == c.accepted[|c.done| + 0].data;
  }

  lemma OtherFlags(c: CPort, space: nat, connected: bool, n: nat)
    requires InOrder(c) && n < |c.accepted| && n != |c.done|
    ensures var c' := Visit(c, space, connected).0;
            n < |c'.done| + |c'.fifo| && Fresh(c', n) == Fresh(c, n) && Started(c', n) == Started(c, n)
  {
    hide Items;
    if c.fifo != [] && connected {
      assert forall k | 0 < k < |c.fifo| :: Send(c, space).fifo[k] == c.fifo[k];
    }
  }

  // Sending another message does not touch it.
  lemma EnqueueKeepsFlag(c: CPort, m: Message, n: nat)
    requires CPortInvariant(c) && n < |c.accepted|
    ensures Started(Enqueue(c, m), n) == Started(c, n) && Fresh(Enqueue(c, m), n) == Fresh(c, n)
    ensures Fresh(Enqueue(c, m), |c.accepted|) && !Started(Enqueue(c, m), |c.accepted|)
  {
  }

  // All visits to a connected CPort, for the space that each of them finds.
  ghost function Visits(c: CPort, spaces: seq<nat>): CPort
    requires CPortInvariant(c)
    decreases |spaces|
  {
    if spaces == [] then c
    else
      VisitKeepsInvariant(c, spaces[0], true);
      Visits(Visit(c, spaces[0], true).0, spaces[1..])
  }

  function Sum(spaces: seq<nat>): nat {
    if spaces == [] then 0 else spaces[0] + Sum(spaces[1..])
  }

  lemma {:induction false} VisitsKeep(c: CPort, spaces: seq<nat>)
    requires CPortInvariant(c)
    ensures CPortInvariant(Visits(c, spaces)) && c.done <= Visits(c, spaces).done
    ensures Visits(c, spaces).accepted == c.accepted
    decreases |spaces|
  {
    if spaces != [] {
      VisitKeepsInvariant(c, spaces[0], true);
      VisitsKeep(Visit(c, spaces[0], true).0, spaces[1..]);
    }
  }

  // A message is complete exactly when the visits together have found space for what was left of it, and
  // until then all the space has been used for it.
  lemma {:induction false} VisitsSendTheData(c: CPort, spaces: seq<nat>)
    requires CPortInvariant(c) && c.fifo != [] && spaces != []
    ensures var left, after := |c.fifo[0].data| - c.fifo[0].sent, Visits(c, spaces);
            && (Sum(spaces) >= left <==> |after.done| > |c.done|)
            && (Sum(spaces) >= left ==> after.done[|c.done|].bytes == c.fifo[0].data && after.done[|c.done|].status == 0)
            && (Sum(spaces) < left ==> after.fifo != [] && after.fifo[0].sent == c.fifo[0].sent + Sum(spaces))
    decreases |spaces|
  {
    VisitKeepsInvariant(c, spaces[0], true);
    var (c', retval) := Visit(c, spaces[0], true);
    VisitsKeep(c', spaces[1..]);
    if retval == -EBUSY {
      if spaces[1..] != [] {
        VisitsSendTheData(c', spaces[1..]);
      }
    } else {
      assert c'.done[|c.done|].bytes == c.fifo[0].data;
    }
  }

  // Over all those visits, the first message starts with the flag exactly if the first of them found space.
  lemma {:induction false} FirstVisitDecides(c: CPort, spaces: seq<nat>)
    requires CPortInvariant(c) && Fresh(c, |c.done|) && spaces != []
    ensures CPortInvariant(Visits(c, spaces)) && Visits(c, spaces).accepted == c.accepted
    ensures Started(Visits(c, spaces), |c.done|) <==> spaces[0] > 0 && c.accepted[|c.done|].data != []
  {
    VisitKeepsInvariant(c, spaces[0], true);
    StartFlag(c, spaces[0], true, |c.done|);
    assert !c.fifo[0].started;
    FlagStays(Visit(c, spaces[0], true).0, spaces[1..], |c.done|);
  }

  lemma {:induction false} FlagStays(c: CPort, spaces: seq<nat>, n: nat)
    requires CPortInvariant(c) && n < |c.accepted| && !Fresh(c, n)
    ensures CPortInvariant(Visits(c, spaces)) && Visits(c, spaces).accepted == c.accepted
    ensures Started(Visits(c, spaces), n) == Started(c, n)
    decreases |spaces|
  {
    if spaces != [] {
      VisitKeepsInvariant(c, spaces[0], true);
      StartFlag(c, spaces[0], true, n);
      FlagStays(Visit(c, spaces[0], true).0, spaces[1..], n);
    }
  }

  // WHERE THE CODE LOSES THE FLAG: the first visit finds no space, and the message, though complete and
  // reported as sent, is in the stream without its start.
  lemma FlagLost()
    ensures var c := Enqueue(CPort([], [], [], []), Message(0, [7]));
            CPortInvariant(c) && Visits(c, [0, 8]).stream == [Byte(7, false), EndOfMessage]
    ensures var c := Enqueue(CPort([], [], [], []), Message(0, [7]));
            Visits(c, [0, 8]).done == [Completion(0, 0, [7], false)]
  {
    var c := Enqueue(CPort([], [], [], []), Message(0, [7]));
    var c1 := Visit(c, 0, true).0;
    VisitKeepsInvariant(c, 0, true);
    assert c1 == CPort([Buffer(0, [7], 0, false, false)], [Message(0, [7])], [], []);
    SecondVisit(c1);
    assert [0, 8][1..] == [8];
  }

  lemma SecondVisit(c: CPort)
    requires c == CPort([Buffer(0, [7], 0, false, false)], [Message(0, [7])], [], []) && CPortInvariant(c)
    ensures Visits(c, [8]).done == [Completion(0, 0, [7], false)]
    ensures Visits(c, [8]).stream == [Byte(7, false), EndOfMessage]
  {
    hide Streamed, Completed, Visit, Items;
    VisitKeepsInvariant(c, 8, true);
    LastByteSent(c);
    assert [8][1..] == [];
  }

  lemma LastByteSent(c: CPort)
    requires c == CPort([Buffer(0, [7], 0, false, false)], [Message(0, [7])], [], [])
    ensures InOrder(c) && Visit(c, 8, true).0 == CPort([], c.accepted, [Completion(0, 0, [7], false)], [Byte(7, false), EndOfMessage])
  {
    hide Items;
    var c' := Send(c, 8);
    assert [7][0..1] == [7] && [7][..1] == [7];
    assert c'.fifo == [Buffer(0, [7], 1, false, false)];
    assert c'.stream == [Byte(7, false)];
    assert Visit(c, 8, true).0 == Dequeue(c', 0);
  }

  // ----- the driver -----

  class Driver {
    var cports: seq<CPort>
    var pending: nat // the count of tx_fifo_lock
    ghost var posting: nat
    ghost var phase: Phase
    ghost var owed: bool

    ghost function View(): State
      reads this
    {
      State(cports, pending, posting, phase, owed)
    }

    constructor (n: nat)
      ensures View() == Init(n) && Invariant(View())
    {
      cports, pending, posting, phase, owed := Idle(n), 0, 0, Blocked, false;
      InitInvariant(n);
    }

    // tsb_unipro_send_async, up to its list_add; `memory` says whether kzalloc found room.
    method QueueBuffer(i: nat, m: Message, connected: bool, memory: bool) returns (retval: int)
      requires Invariant(View()) && i < |cports|
      modifies this`cports, this`posting
      ensures Invariant(View())
      ensures retval == if !connected then -EPIPE else if !memory then -ENOMEM else 0
      ensures View() == if retval != 0 then old(View()) else Step(old(View()), Queue(i, m))
    {
      if !connected {
        return -EPIPE;
      }
      if !memory {
        return -ENOMEM;
      }
      hide Invariant;
      StepKeepsInvariant(View(), Queue(i, m));
      var buffer := Buffer(m.id, m.data, 0, true, false);
      cports := cports[i := cports[i].(fifo := cports[i].fifo + [buffer], accepted := cports[i].accepted + [m])];
      posting := posting + 1;
      return 0;
    }

    // Its semaphore_up.
    method Up()
      requires Invariant(View()) && posting > 0
      modifies this`pending, this`posting
      ensures Invariant(View()) && View() == Step(old(View()), Post)
    {
      hide Invariant;
      StepKeepsInvariant(View(), Post);
      pending, posting := pending + 1, posting - 1;
    }

    // tsb_unipro_send_tx_buffer
    method SendTxBuffer(i: nat, space: nat, connected: bool) returns (retval: int)
      requires i < |cports| && InOrder(cports[i])
      modifies this`cports
      ensures cports == old(cports)[i := Visit(old(cports)[i], space, connected).0]
      ensures retval == Visit(old(cports)[i], space, connected).1
    {
      var c := cports[i];
      if c.fifo == [] {
        return 0;
      }
      if !connected {
        cports := cports[i := Dequeue(c, -EPIPE)];
        return -EPIPE;
      }
      c := Send(c, space);
      if c.fifo[0].sent >= |c.fifo[0].data| {
        cports := cports[i := Dequeue(c, 0)];
        return 0;
      }
      cports := cports[i := c];
      return -EBUSY;
    }

    // One turn of the worker's for loop.
    method ServeNext(i: nat, space: nat, connected: bool) returns (retval: int)
      requires Invariant(View()) && phase.Pass? && phase.i == i < |cports|
      modifies this`cports, this`phase, this`owed
      ensures Invariant(View()) && InOrder(old(cports)[i])
      ensures View() == Step(old(View()), Serve(space, connected))
      ensures retval == Visit(old(cports)[i], space, connected).1
      ensures cports == old(cports)[i := Visit(old(cports)[i], space, connected).0]
      ensures phase == Pass(i + 1, old(phase).busy || retval == -EBUSY)
    {
      hide Invariant, Visit, InOrder, Covered, CPortInvariant;
      ghost var was := View();
      ServeKeepsInvariant(was, space, connected);
      retval := SendTxBuffer(i, space, connected);
      phase := Pass(i + 1, phase.busy || retval == -EBUSY);
      owed := owed && |cports[i].fifo| == |was.cports[i].fifo|;
    }

    // The for loop of tsb_unipro_tx_worker; the hardware answers each visit from `spaces` and `connected`.
    method BrowseCPorts(spaces: seq<nat>, connected: seq<bool>) returns (isBusy: bool)
      requires Invariant(View()) && phase == Pass(0, false) && |spaces| == |connected| == |cports|
      modifies this`cports, this`phase, this`owed
      ensures Invariant(View()) && |cports| == old(|cports|) && phase == Pass(|cports|, isBusy)
      ensures forall i | 0 <= i < |cports| :: InOrder(old(cports)[i]) && cports[i] == Visit(old(cports)[i], spaces[i], connected[i]).0
      ensures isBusy <==> exists i :: 0 <= i < |cports| && |cports[i].fifo| == |old(cports)[i].fifo| > 0
    {
      hide Invariant, Visit, InOrder, Step, Covered, CPortInvariant;
      isBusy := false;
      ghost var was := cports;
      AllInOrder(View());
      var i := 0;
      while i < |cports|
        invariant 0 <= i <= |cports| == |was| && phase == Pass(i, isBusy) && Invariant(View())
        invariant forall j | i <= j < |cports| :: cports[j] == was[j]
        invariant forall j | 0 <= j < i :: cports[j] == Visit(was[j], spaces[j], connected[j]).0
        invariant isBusy <==> exists j :: 0 <= j < i && |cports[j].fifo| == |was[j].fifo| > 0
      {
        VisitResult(cports[i], spaces[i], connected[i]);
        ghost var before := cports;
        var retval := ServeNext(i, spaces[i], connected[i]);
        assert forall j | 0 <= j < |cports| && j != i :: cports[j] == before[j];
        if retval == -EBUSY {
          isBusy := true;
        }
        i := i + 1;
      }
    }

    // One turn of the worker's endless loop, with no sender in between: the wakeup is taken, and the passes
    // go on until one leaves no buffer half sent. `answers` holds the hardware's answers, pass by pass.
    method HandleWakeup(answers: seq<(seq<nat>, seq<bool>)>) returns (isBusy: bool)
      requires Invariant(View()) && phase == Blocked && pending > 0
      requires forall a | a in answers :: |a.0| == |a.1| == |cports|
      modifies this`cports, this`pending, this`phase, this`owed
      ensures Invariant(View()) && pending == old(pending) - 1 && |cports| == old(|cports|)
      ensures isBusy ==> phase == Pass(0, false)
      ensures !isBusy ==> phase == Blocked && Total(cports, |cports|) <= pending + posting
    {
      hide Invariant, Visit, InOrder;
      StepKeepsInvariant(View(), Down);
      pending, phase, owed := pending - 1, Pass(0, false), true; // semaphore_down
      isBusy := true;
      var k := 0;
      while isBusy && k < |answers|
        invariant 0 <= k <= |answers| && |cports| == old(|cports|) && Invariant(View())
        invariant pending == old(pending) - 1
        invariant phase == if isBusy then Pass(0, false) else Blocked
      {
        assert answers[k] in answers;
        isBusy := BrowseCPorts(answers[k].0, answers[k].1);
        StepKeepsInvariant(View(), EndPass);
        phase := if isBusy then Pass(0, false) else Blocked;
        k := k + 1;
      }
      BlockedIsCovered(View());
    }
  }
}
