// drivers/i2c/dw.c: the interrupt-driven transfer engine. One logical transfer, a list of messages, is
// cut into pieces by FIFO levels and interrupts.
module DwI2c {
  type byte = bv8

  const TX_FIFO_DEPTH: int := 8
  const RX_FIFO_DEPTH: int := 8
  const EINVAL: int := 22

  // struct i2c_msg. For a read message, data is what its buffer holds before the transfer.
  datatype Msg = Msg(addr: nat, read: bool, data: seq<byte>) {
    function Length(): nat { |data| }
  }

  // A word written to DATA_CMD: bit 8 read, bit 9 STOP, bit 10 RESTART, low byte the data.
  datatype Cmd = Cmd(read: bool, data: byte, stop: bool, restart: bool)

  // The difference of an int and an unsigned int in C is unsigned: a negative one wraps to a large one.
  // (A transfer has fewer than 2^32 bytes, so b exceeds a by less than that.)
  function UnsignedMinus(a: int, b: nat): int {
    if b <= a then a - b else a - b + 0x1_0000_0000
  }

  // Why the engine may pause: the TX FIFO is full, the RX FIFO is, or as many READs are outstanding as there
  // is room for their bytes.
  predicate NoRoom(read: bool, txFill: nat, rxAvail: int, rxOutstanding: nat) {
    txFill == TX_FIFO_DEPTH || rxAvail <= 0 || (read && UnsignedMinus(rxAvail, rxOutstanding) <= 0)
  }

  // It is the difference modulo 2^32.
  lemma UnsignedIsModular(a: nat, b: nat)
    requires a < 0x1_0000_0000 && b < 0x1_0000_0000
    ensures 0 <= UnsignedMinus(a, b) < 0x1_0000_0000
    ensures (UnsignedMinus(a, b) + b) % 0x1_0000_0000 == a
  {
  }

  // WHEN A READ PAUSES: with a FIFO full, or with exactly as many READs outstanding as there is room; not with
  // more, because the difference then wraps to a large one.
  lemma ReadPauses(txFill: nat, rxAvail: nat, rxOutstanding: nat)
    requires txFill <= TX_FIFO_DEPTH && rxAvail <= RX_FIFO_DEPTH && rxOutstanding < 0x1_0000_0000
    ensures NoRoom(true, txFill, rxAvail, rxOutstanding) <==> txFill == 8 || rxAvail == 0 || rxOutstanding == rxAvail
    ensures NoRoom(false, txFill, rxAvail, rxOutstanding) <==> txFill == 8 || rxAvail == 0
  {
    UnsignedIsModular(rxAvail, rxOutstanding);
  }

  // There is room for a command when the FIFO levels are read.
  predicate Room(read: bool, txLevel: nat, rxLevel: nat, rxOutstanding: nat) {
    !NoRoom(read, txLevel, RX_FIFO_DEPTH - rxLevel, rxOutstanding)
  }

  // ----- what a transfer should send -----

  // The command for byte j of message i. Messages in `stalled` get no RESTART.
  function CmdAt(msgs: seq<Msg>, i: nat, j: nat, stalled: set<nat>): Cmd
    requires i < |msgs| && j < msgs[i].Length()
  {
    var m := msgs[i];
    Cmd(m.read,
        if m.read then 0 else m.data[j],
        i == |msgs| - 1 && j == m.Length() - 1,
        i > 0 && j == 0 && i !in stalled)
  }

  // A place in the transfer: n commands of message i are out, and all of the messages before it.
  predicate Place(msgs: seq<Msg>, i: nat, n: nat) {
    i <= |msgs| && n <= (if i < |msgs| then msgs[i].Length() else 0)
  }

  // What has been sent at that place.
  function Sent(msgs: seq<Msg>, i: nat, n: nat, stalled: set<nat>): seq<Cmd>
    requires Place(msgs, i, n)
    decreases i, n
  {
    if n > 0 then Sent(msgs, i, n - 1, stalled) + [CmdAt(msgs, i, n - 1, stalled)]
    else if i > 0 then Sent(msgs, i - 1, msgs[i - 1].Length(), stalled)
    else []
  }

  lemma SentNext(msgs: seq<Msg>, i: nat, n: nat, stalled: set<nat>)
    requires i < |msgs| && n < msgs[i].Length()
    ensures Sent(msgs, i, n + 1, stalled) == Sent(msgs, i, n, stalled) + [CmdAt(msgs, i, n, stalled)]
  {
  }

  function Strip(log: seq<Cmd>): (r: seq<Cmd>)
    ensures |r| == |log|
  {
    if log == [] then [] else Strip(log[..|log| - 1]) + [log[|log| - 1].(restart := false)]
  }

  lemma StripAppend(log: seq<Cmd>, c: Cmd)
    ensures Strip(log + [c]) == Strip(log) + [c.(restart := false)]
  {
    assert (log + [c])[..|log|] == log;
  }

  // The whole transfer without any RESTART: every message, every byte, in order.
  function Plain(msgs: seq<Msg>): seq<Cmd> {
    Strip(Sent(msgs, |msgs|, 0, {}))
  }

  lemma {:induction false} StripIgnoresRestart(msgs: seq<Msg>, i: nat, n: nat, s1: set<nat>, s2: set<nat>)
    requires Place(msgs, i, n)
    ensures Strip(Sent(msgs, i, n, s1)) == Strip(Sent(msgs, i, n, s2))
    decreases i, n
  {
    if n > 0 {
      StripIgnoresRestart(msgs, i, n - 1, s1, s2);
      StripAppend(Sent(msgs, i, n - 1, s1), CmdAt(msgs, i, n - 1, s1));
      StripAppend(Sent(msgs, i, n - 1, s2), CmdAt(msgs, i, n - 1, s2));
    } else if i > 0 {
      StripIgnoresRestart(msgs, i - 1, msgs[i - 1].Length(), s1, s2);
    }
  }

  // Later places only add commands at the end, also without RESTART bits.
  lemma {:induction false} SentIncreases(msgs: seq<Msg>, i: nat, m: nat, j: nat, n: nat, stalled: set<nat>)
    requires Place(msgs, i, m) && Place(msgs, j, n) && (i < j || (i == j && m <= n))
    ensures Sent(msgs, i, m, stalled) <= Sent(msgs, j, n, stalled)
    ensures Strip(Sent(msgs, i, m, stalled)) <= Strip(Sent(msgs, j, n, stalled))
    ensures (i, m) != (j, n) && (i < j ==> n > 0 || m < msgs[i].Length()) ==> |Sent(msgs, i, m, stalled)| < |Sent(msgs, j, n, stalled)|
    decreases j, n
  {
    hide CmdAt, Strip;
    if i == j && m == n {
    } else if n > 0 {
      SentIncreases(msgs, i, m, j, n - 1, stalled);
      StripAppend(Sent(msgs, j, n - 1, stalled), CmdAt(msgs, j, n - 1, stalled));
    } else {
      SentIncreases(msgs, i, m, j - 1, msgs[j - 1].Length(), stalled);
    }
  }

  // The commands of one message follow each other, with RESTART on its first command only.
  lemma {:induction false} SentTail(msgs: seq<Msg>, i: nat, m: nat, n: nat, stalled: set<nat>)
    requires i < |msgs| && m <= n <= msgs[i].Length()
    ensures |Sent(msgs, i, n, stalled)| == |Sent(msgs, i, m, stalled)| + n - m
    ensures forall k | |Sent(msgs, i, m, stalled)| <= k < |Sent(msgs, i, n, stalled)| ::
              Sent(msgs, i, n, stalled)[k].restart <==>
              m == 0 && k == |Sent(msgs, i, 0, stalled)| && i > 0 && i !in stalled
    decreases n
  {
    if m < n {
      SentTail(msgs, i, m, n - 1, stalled);
    }
  }

  // The number of bytes of the first i messages.
  function Offset(msgs: seq<Msg>, i: nat): nat
    requires i <= |msgs|
  {
    if i == 0 then 0 else Offset(msgs, i - 1) + |msgs[i - 1].data|
  }

  // The bytes that the WRITE commands carry.
  function WrittenBytes(log: seq<Cmd>): seq<byte> {
    if log == [] then []
    else WrittenBytes(log[..|log| - 1]) + if log[|log| - 1].read then [] else [log[|log| - 1].data]
  }

  // The data of the write messages among the first i, one after the other.
  function WriteData(msgs: seq<Msg>, i: nat): seq<byte>
    requires i <= |msgs|
  {
    if i == 0 then [] else WriteData(msgs, i - 1) + if msgs[i - 1].read then [] else msgs[i - 1].data
  }

  lemma WrittenAppend(log: seq<Cmd>, c: Cmd)
    ensures WrittenBytes(log + [c]) == WrittenBytes(log) + if c.read then [] else [c.data]
  {
    assert (log + [c])[..|log|] == log;
  }

  // WHAT GOES OUT: the WRITE commands carry the data of the write messages, in order and nothing else.
  lemma {:induction false} SentBytes(msgs: seq<Msg>, i: nat, n: nat, stalled: set<nat>)
    requires Place(msgs, i, n)
    ensures |Sent(msgs, i, n, stalled)| == Offset(msgs, i) + n
    ensures WrittenBytes(Sent(msgs, i, n, stalled))
         == WriteData(msgs, i) + if i < |msgs| && !msgs[i].read then msgs[i].data[..n] else []
    decreases i, n
  {
    hide WrittenBytes;
    if n > 0 {
      SentBytes(msgs, i, n - 1, stalled);
      WrittenAppend(Sent(msgs, i, n - 1, stalled), CmdAt(msgs, i, n - 1, stalled));
      assert msgs[i].data[..n] == msgs[i].data[..n - 1] + [msgs[i].data[n - 1]];
    } else if i > 0 {
      SentBytes(msgs, i - 1, msgs[i - 1].Length(), stalled);
      assert msgs[i - 1].data[..msgs[i - 1].Length()] == msgs[i - 1].data;
    } else {
      NothingWritten();
    }
  }

  lemma NothingWritten()
    ensures WrittenBytes([]) == []
  {
  }

  // Each command is where its byte is: a READ, or a WRITE of that byte.
  lemma {:induction false} SentAt(msgs: seq<Msg>, i: nat, n: nat, stalled: set<nat>, a: nat, j: nat)
    requires Place(msgs, i, n) && a < |msgs| && j < |msgs[a].data| && (a < i || (a == i && j < n))
    ensures Offset(msgs, a) + j < |Sent(msgs, i, n, stalled)|
    ensures var c := Sent(msgs, i, n, stalled)[Offset(msgs, a) + j]; c.read == msgs[a].read && c.data == if c.read then 0 else msgs[a].data[j]
    decreases i, n
  {
    SentBytes(msgs, i, n, stalled);
    if n > 0 {
      SentBytes(msgs, i, n - 1, stalled);
      if a < i || j < n - 1 {
        SentAt(msgs, i, n - 1, stalled, a, j);
      }
    } else {
      SentAt(msgs, i - 1, msgs[i - 1].Length(), stalled, a, j);
    }
  }

  // NOTHING IS LOST OR REPEATED: wherever the engine stands, what it has sent is, apart from RESTART
  // bits, a prefix of the whole transfer, and at the end it is the whole transfer.
  lemma SentIsPrefix(msgs: seq<Msg>, i: nat, n: nat, stalled: set<nat>)
    requires Place(msgs, i, n)
    ensures Strip(Sent(msgs, i, n, stalled)) <= Plain(msgs)
    ensures i == |msgs| ==> Strip(Sent(msgs, i, n, stalled)) == Plain(msgs)
  {
    StripIgnoresRestart(msgs, i, n, stalled, {});
    SentIncreases(msgs, i, n, |msgs|, 0, {});
  }

  // The number of READ commands.
  function Reads(log: seq<Cmd>): (n: nat)
    ensures n <= |log|
  {
    if log == [] then 0 else Reads(log[..|log| - 1]) + (if log[|log| - 1].read then 1 else 0)
  }

  lemma {:induction false} SentGrows(msgs: seq<Msg>, i: nat, m: nat, n: nat, stalled: set<nat>)
    requires i < |msgs| && m <= n <= msgs[i].Length()
    ensures Sent(msgs, i, m, stalled) <= Sent(msgs, i, n, stalled)
    ensures Reads(Sent(msgs, i, n, stalled)) == Reads(Sent(msgs, i, m, stalled)) + (if msgs[i].read then n - m else 0)
    decreases n
  {
    if m < n {
      SentGrows(msgs, i, m, n - 1, stalled);
      OneMore(Sent(msgs, i, m, stalled), Sent(msgs, i, n - 1, stalled), CmdAt(msgs, i, n - 1, stalled));
    }
  }

  lemma OneMore(a: seq<Cmd>, b: seq<Cmd>, c: Cmd)
    requires a <= b
    ensures a <= b + [c] && Reads(b + [c]) == Reads(b) + (if c.read then 1 else 0)
  {
    assert (b + [c])[..|b|] == b;
  }

  // Whether a message stalls does not change what was sent before it.
  lemma {:induction false} StalledLater(msgs: seq<Msg>, i: nat, n: nat, k: nat, stalled: set<nat>)
    requires Place(msgs, i, n) && (i < k || (i == k && n == 0))
    ensures Sent(msgs, i, n, stalled + {k}) == Sent(msgs, i, n, stalled)
    decreases i, n
  {
    if n > 0 {
      StalledLater(msgs, i, n - 1, k, stalled);
    } else if i > 0 {
      StalledLater(msgs, i - 1, msgs[i - 1].Length(), k, stalled);
    }
  }

  // FRAMING. STOP is on the last command of the last message and nowhere else.
  lemma {:induction false} StopOnlyAtTheEnd(msgs: seq<Msg>, i: nat, n: nat, stalled: set<nat>, k: nat)
    requires Place(msgs, i, n) && k < |Sent(msgs, i, n, stalled)|
    requires forall m | 0 <= m < i :: msgs[m].Length() > 0
    ensures Sent(msgs, i, n, stalled)[k].stop <==>
              k == |Sent(msgs, i, n, stalled)| - 1 && (i == |msgs| || (i == |msgs| - 1 && 0 < n == msgs[i].Length()))
    decreases i, n
  {
    if n > 0 {
      if k < |Sent(msgs, i, n - 1, stalled)| {
        StopOnlyAtTheEnd(msgs, i, n - 1, stalled, k);
      }
    } else {
      StopOnlyAtTheEnd(msgs, i - 1, msgs[i - 1].Length(), stalled, k);
    }
  }

  // RESTART is on the first command of each message after the first that is not in stalled.
  lemma {:induction false} RestartOnlyAtBoundaries(msgs: seq<Msg>, i: nat, n: nat, stalled: set<nat>, k: nat)
    requires Place(msgs, i, n) && k < |Sent(msgs, i, n, stalled)|
    requires forall m | 0 <= m < |msgs| :: msgs[m].Length() > 0
    ensures Sent(msgs, i, n, stalled)[k].restart <==>
              exists m :: 0 < m < |msgs| && m !in stalled && |Sent(msgs, m, 0, stalled)| == k
    decreases i, n
  {
    if n > 0 && k < |Sent(msgs, i, n - 1, stalled)| {
      RestartOnlyAtBoundaries(msgs, i, n - 1, stalled, k);
    } else if n == 0 {
      RestartOnlyAtBoundaries(msgs, i - 1, msgs[i - 1].Length(), stalled, k);
    } else {
      OnlyBoundary(msgs, i, n, stalled);
      assert n == 1 ==> |Sent(msgs, i, 0, stalled)| == k;
    }
  }

  // What was sent before a command is what was sent before a message only if it is that message's first.
  lemma OnlyBoundary(msgs: seq<Msg>, i: nat, n: nat, stalled: set<nat>)
    requires Place(msgs, i, n) && n > 0 && forall m | 0 <= m < |msgs| :: msgs[m].Length() > 0
    ensures forall m | 0 < m < |msgs| && |Sent(msgs, m, 0, stalled)| == |Sent(msgs, i, n - 1, stalled)| :: m == i && n == 1
  {
    hide Sent, Strip;
    forall m | 0 < m < |msgs| && |Sent(msgs, m, 0, stalled)| == |Sent(msgs, i, n - 1, stalled)|
      ensures m == i && n == 1
    {
      if m <= i {
        SentIncreases(msgs, m, 0, i, n - 1, stalled);
      } else {
        SentIncreases(msgs, i, n - 1, m, 0, stalled);
      }
    }
  }

  // The loop refuses an empty message and one whose address differs from that of the message the
  // interrupt began with.
  predicate Bad(msgs: seq<Msg>, first: nat, i: nat) {
    first < |msgs| && i < |msgs| && (msgs[i].addr != msgs[first].addr || msgs[i].Length() == 0)
  }

  predicate Uniform(msgs: seq<Msg>) {
    forall i | 0 <= i < |msgs| :: !Bad(msgs, 0, i)
  }

  // A transfer is refused unless all its messages go to one address and none is empty.
  lemma UniformMeans(msgs: seq<Msg>)
    ensures Uniform(msgs) <==> forall i | 0 <= i < |msgs| :: msgs[i].addr == msgs[0].addr && msgs[i].data != []
  {
    if forall i | 0 <= i < |msgs| :: msgs[i].addr == msgs[0].addr && msgs[i].data != [] {
      forall i | 0 <= i < |msgs| ensures !Bad(msgs, 0, i) {
        assert msgs[i].addr == msgs[0].addr;
      }
    }
    forall i | 0 <= i < |msgs| && !Bad(msgs, 0, i) ensures msgs[i].addr == msgs[0].addr && msgs[i].data != [] {
    }
  }

  // ----- what a transfer should receive -----

  // The read buffers of the first i messages, one after the other.
  function Received(msgs: seq<Msg>, mem: seq<seq<byte>>, i: nat): seq<byte>
    requires i <= |msgs| == |mem|
  {
    if i == 0 then []
    else Received(msgs, mem, i - 1) + (if msgs[i - 1].read then mem[i - 1] else [])
  }

  lemma {:induction false} ReceivedFrame(msgs: seq<Msg>, mem: seq<seq<byte>>, i: nat, k: nat, buf: seq<byte>)
    requires i <= k < |msgs| == |mem|
    ensures Received(msgs, mem[k := buf], i) == Received(msgs, mem, i)
  {
    if i > 0 {
      ReceivedFrame(msgs, mem, i - 1, k, buf);
    }
  }

  // The memory behind the messages: same sizes throughout; buffers of write messages never change.
  ghost predicate Memory(msgs: seq<Msg>, mem: seq<seq<byte>>) {
    && |mem| == |msgs|
    && forall i | 0 <= i < |msgs| :: |mem[i]| == msgs[i].Length() && (!msgs[i].read ==> mem[i] == msgs[i].data)
  }

  // The size of the read buffers of the first i messages.
  function ReadTotal(msgs: seq<Msg>, i: nat): nat
    requires i <= |msgs|
  {
    if i == 0 then 0 else ReadTotal(msgs, i - 1) + (if msgs[i - 1].read then msgs[i - 1].Length() else 0)
  }

  lemma {:induction false} ReceivedLength(msgs: seq<Msg>, mem: seq<seq<byte>>, i: nat)
    requires Memory(msgs, mem) && i <= |msgs|
    ensures |Received(msgs, mem, i)| == ReadTotal(msgs, i)
  {
    if i > 0 {
      ReceivedLength(msgs, mem, i - 1);
    }
  }

  // There are as many READ commands as bytes in the read buffers: those of the messages done with, and
  // one for each command of the current message if that is a read.
  lemma {:induction false} ReadsFillBuffers(msgs: seq<Msg>, i: nat, n: nat, stalled: set<nat>)
    requires Place(msgs, i, n)
    ensures Reads(Sent(msgs, i, n, stalled)) == ReadTotal(msgs, i) + (if i < |msgs| && msgs[i].read then n else 0)
    decreases i, n
  {
    if n > 0 {
      ReadsFillBuffers(msgs, i, n - 1, stalled);
      OneMore([], Sent(msgs, i, n - 1, stalled), CmdAt(msgs, i, n - 1, stalled));
    } else if i > 0 {
      ReadsFillBuffers(msgs, i - 1, msgs[i - 1].Length(), stalled);
    }
  }

  lemma {:induction false} ReadTotalGrows(msgs: seq<Msg>, i: nat, j: nat)
    requires i <= j <= |msgs|
    ensures ReadTotal(msgs, i) <= ReadTotal(msgs, j)
    decreases j
  {
    if i < j {
      ReadTotalGrows(msgs, i, j - 1);
    }
  }

  // NO BYTE IS LEFT OVER: when all read buffers are full there were enough READs for no further byte.
  lemma ReadsNeverExceedBuffers(msgs: seq<Msg>, mem: seq<seq<byte>>, i: nat, n: nat, stalled: set<nat>)
    requires Memory(msgs, mem) && Place(msgs, i, n)
    ensures Reads(Sent(msgs, i, n, stalled)) <= |Received(msgs, mem, |msgs|)|
    ensures i == |msgs| ==> Reads(Sent(msgs, i, n, stalled)) == |Received(msgs, mem, |msgs|)|
  {
    ReadsFillBuffers(msgs, i, n, stalled);
    ReceivedLength(msgs, mem, |msgs|);
    if i < |msgs| {
      ReadTotalGrows(msgs, i + 1, |msgs|);
    }
  }

  // A level the hardware reports: what is in the FIFO, less what has left it since.
  function Level(inFifo: nat, drainedTo: nat): (n: nat)
    ensures n <= inFifo
  {
    if drainedTo < inFifo then drainedTo else inFifo
  }

  // Bytes that came in, at most one per outstanding READ.
  function Arrived(bytes: seq<byte>, room: nat): (r: seq<byte>)
    ensures |r| <= room && r <= bytes
  {
    if |bytes| <= room then bytes else bytes[..room]
  }

  function BegunOf(msgs: seq<Msg>, i: nat, writing: bool, length: nat): (n: nat)
    ensures i <= |msgs| ==> Place(msgs, i, n)
  {
    if writing && i < |msgs| && length <= msgs[i].Length() then msgs[i].Length() - length else 0
  }

  // The saved TX position: messages before the current one were good, and stalled are those of which
  // the call that began them could not send anything.
  ghost predicate Position(msgs: seq<Msg>, i: nat, writing: bool, length: nat, buffer: nat, stalled: set<nat>) {
    && i <= |msgs|
    && (writing ==> i < |msgs| && 0 < length && buffer + length == msgs[i].Length())
    && (forall k | 0 <= k < i || (k == i && writing) :: !Bad(msgs, 0, k))
    && (forall k | k in stalled :: k < i || (k == i && writing))
    && (writing && BegunOf(msgs, i, writing, length) == 0 ==> i in stalled)
  }

  // The saved RX position: the bytes taken from the RX FIFO fill the read buffers in order.
  ghost predicate Filling(msgs: seq<Msg>, mem: seq<seq<byte>>, i: nat, reading: bool, length: nat, buffer: nat, popped: seq<byte>) {
    && Memory(msgs, mem)
    && i <= |msgs|
    && (reading ==> i < |msgs| && msgs[i].read && 0 < length && buffer + length == msgs[i].Length())
    && popped == Received(msgs, mem, i) + (if reading then mem[i][..buffer] else [])
  }

  // The same in the middle of message i.
  ghost predicate FillingAt(msgs: seq<Msg>, mem: seq<seq<byte>>, i: nat, buffer: nat, popped: seq<byte>) {
    && Memory(msgs, mem)
    && i < |msgs| && msgs[i].read && buffer <= msgs[i].Length()
    && popped == Received(msgs, mem, i) + mem[i][..buffer]
  }

  lemma FillByte(msgs: seq<Msg>, mem: seq<seq<byte>>, i: nat, buffer: nat, popped: seq<byte>, b: byte)
    requires FillingAt(msgs, mem, i, buffer, popped) && buffer < msgs[i].Length()
    ensures FillingAt(msgs, mem[i := mem[i][buffer := b]], i, buffer + 1, popped + [b])
  {
    var buf := mem[i][buffer := b];
    ReceivedFrame(msgs, mem, i, i, buf);
    assert buf[..buffer + 1] == mem[i][..buffer] + [b];
  }

  lemma FillSaved(msgs: seq<Msg>, mem: seq<seq<byte>>, i: nat, buffer: nat, length: nat, popped: seq<byte>)
    requires FillingAt(msgs, mem, i, buffer, popped) && buffer + length == msgs[i].Length()
    ensures length > 0 ==> Filling(msgs, mem, i, true, length, buffer, popped)
    ensures length == 0 ==> Filling(msgs, mem, i + 1, false, length, buffer, popped)
  {
    if length == 0 {
      assert mem[i][..buffer] == mem[i];
    }
  }

  lemma FillingIgnores(msgs: seq<Msg>, mem: seq<seq<byte>>, i: nat, l1: nat, b1: nat, l2: nat, b2: nat, popped: seq<byte>)
    ensures Filling(msgs, mem, i, false, l1, b1, popped) == Filling(msgs, mem, i, false, l2, b2, popped)
  {
  }

  lemma FillBegins(msgs: seq<Msg>, mem: seq<seq<byte>>, i: nat, reading: bool, length: nat, buffer: nat, popped: seq<byte>)
    requires Filling(msgs, mem, i, reading, length, buffer, popped) && i < |msgs|
    ensures msgs[i].read ==> FillingAt(msgs, mem, i, if reading then buffer else 0, popped)
    ensures !msgs[i].read ==> !reading && Filling(msgs, mem, i + 1, false, length, buffer, popped)
  {
  }

  lemma PositionKept(msgs: seq<Msg>, i: nat, writing: bool, length: nat, buffer: nat, stalled: set<nat>, length': nat, buffer': nat)
    requires Position(msgs, i, writing, length, buffer, stalled)
    requires i < |msgs| && !Bad(msgs, 0, i) && buffer' + length' == msgs[i].Length()
    requires writing ==> buffer <= buffer'
    ensures var s := if buffer' == 0 then stalled + {i} else stalled;
            length' > 0 ==> Position(msgs, i, true, length', buffer', s) && Sent(msgs, i, buffer', s) == Sent(msgs, i, buffer', stalled)
    ensures length' == 0 ==> Position(msgs, i + 1, false, length', buffer', stalled)
    ensures length' == 0 ==> Sent(msgs, i + 1, 0, stalled) == Sent(msgs, i, buffer', stalled)
  {
    if buffer' == 0 {
      StalledLater(msgs, i, 0, i, stalled);
    }
  }

  // The status bits that dw_interrupt looks at, without TX_ABRT.
  datatype Stat = Stat(rxFull: bool, txEmpty: bool, stopDet: bool)

  // The globals of the driver, and the two FIFOs of the controller.
  class Engine {
    var msgs: seq<Msg>
    var txIndex: nat
    var txLength: nat
    var txBuffer: nat // offset of g_tx_buffer in the buffer of message txIndex
    var rxIndex: nat
    var rxLength: nat
    var rxBuffer: nat
    var writeInProgress: bool
    var readInProgress: bool
    var msgErr: int
    var rxOutstanding: nat
    var txIrq: bool // TX_EMPTY not masked

    var mem: seq<seq<byte>> // the buffers of the messages
    var log: seq<Cmd>       // everything written to DATA_CMD
    var txFill: nat         // commands in the TX FIFO
    var rxFifo: seq<byte>   // bytes in the RX FIFO
    var popped: seq<byte>   // everything read from DATA_CMD
    ghost var stalled: set<nat>   // messages begun in a call that had no room for their first command

    // How many commands of message txIndex are out.
    function Begun(): nat
      reads this`msgs, this`txIndex, this`txLength, this`writeInProgress
    {
      BegunOf(msgs, txIndex, writeInProgress, txLength)
    }

    ghost predicate TxOk()
      reads this`msgs, this`txIndex, this`txLength, this`txBuffer, this`writeInProgress, this`log, this`txFill, this`stalled
    {
      && Position(msgs, txIndex, writeInProgress, txLength, txBuffer, stalled)
      && log == Sent(msgs, txIndex, Begun(), stalled)
      && txFill <= TX_FIFO_DEPTH
    }

    ghost predicate RxOk()
      reads this`msgs, this`mem, this`rxIndex, this`readInProgress, this`rxLength, this`rxBuffer, this`popped
    {
      Filling(msgs, mem, rxIndex, readInProgress, rxLength, rxBuffer, popped)
    }

    // g_rx_outstanding is the number of READs issued less the bytes drained; the hardware returns at most
    // one byte per READ.
    ghost predicate Credits()
      reads this`log, this`popped, this`rxFifo, this`rxOutstanding
    {
      |popped| + |rxFifo| <= Reads(log) && rxOutstanding == Reads(log) - |popped|
    }

    ghost predicate Valid()
      reads this
    {
      TxOk() && RxOk() && Credits() && (msgErr == 0 && 0 < txIndex < |msgs| ==> writeInProgress)
    }

    // The globals as dw_transfer leaves them before the first interrupt.
    constructor (msgs: seq<Msg>)
      ensures Valid() && this.msgs == msgs && log == [] && popped == [] && msgErr == 0 && stalled == {}
      ensures txIndex == 0 && !writeInProgress && txFill == 0 && rxFifo == [] && rxOutstanding == 0
    {
      this.msgs := msgs;
      txIndex, txLength, txBuffer := 0, 0, 0;
      rxIndex, rxLength, rxBuffer := 0, 0, 0;
      writeInProgress, readInProgress := false, false;
      msgErr, rxOutstanding, txIrq := 0, 0, true;
      mem := seq(|msgs|, i requires 0 <= i < |msgs| => msgs[i].data);
      log, txFill, rxFifo, popped, stalled := [], 0, [], [], {};
    }

    // dw_read(DW_I2C_RXFLR): bytes may have come in.
    method ReadRxLevel(bytes: seq<byte>) returns (rxLevel: nat)
      requires Credits()
      modifies this`rxFifo
      ensures Credits() && old(rxFifo) <= rxFifo && rxLevel == |rxFifo|
    {
      rxFifo := rxFifo + Arrived(bytes, Reads(log) - |popped| - |rxFifo|);
      return |rxFifo|;
    }

    // dw_read(DW_I2C_TXFLR) and dw_read(DW_I2C_RXFLR): the TX FIFO may also have drained.
    method ReadLevels(drainedTo: nat, bytes: seq<byte>) returns (txLevel: nat, rxLevel: nat)
      requires Credits()
      modifies this`txFill, this`rxFifo
      ensures Credits() && txLevel == txFill == Level(old(txFill), drainedTo)
      ensures old(rxFifo) <= rxFifo && rxLevel == |rxFifo|
    {
      txFill := Level(txFill, drainedTo);
      txLevel := txFill;
      rxLevel := ReadRxLevel(bytes);
    }

    // dw_write(DW_I2C_DATA_CMD, ...)
    method Write(cmd: Cmd)
      requires txFill < TX_FIFO_DEPTH
      modifies this`log, this`txFill
      ensures log == old(log) + [cmd] && txFill == old(txFill) + 1
    {
      log := log + [cmd];
      txFill := txFill + 1;
    }

    // The command is a READ for a read message and otherwise writes byte j of the message.
    predicate Carries(c: Cmd, m: Msg, j: nat) {
      j < |m.data| && c.read == m.read && c.data == if c.read then 0 else m.data[j]
    }

    // The inner loop of tsb_i2c_transfer_msg, over the bytes of one message.
    method SendBytes(buffer0: nat, length0: nat, restart0: bool, txAvail0: int, rxAvail0: int)
      returns (buffer: nat, length: nat, rxAvail: int)
      requires txIndex < |msgs| && txFill <= TX_FIFO_DEPTH
      requires 0 < length0 && buffer0 + length0 == msgs[txIndex].Length()
      requires log == Sent(msgs, txIndex, buffer0, stalled)
      requires restart0 ==> buffer0 == 0
      requires buffer0 == 0 ==> (restart0 <==> txIndex > 0 && txIndex !in stalled)
      requires txAvail0 == TX_FIFO_DEPTH - txFill
      modifies this`log, this`txFill, this`rxOutstanding
      ensures buffer0 <= buffer && buffer + length == msgs[txIndex].Length()
      ensures log == Sent(msgs, txIndex, buffer, stalled)
      ensures |log| == |old(log)| + buffer - buffer0
      ensures forall k | |old(log)| <= k < |log| :: Carries(log[k], msgs[txIndex], k - |old(log)| + buffer0)
      ensures txFill == old(txFill) + (buffer - buffer0) <= TX_FIFO_DEPTH
      ensures rxAvail == rxAvail0 - (if msgs[txIndex].read then buffer - buffer0 else 0)
      ensures rxOutstanding == old(rxOutstanding) + (if msgs[txIndex].read then buffer - buffer0 else 0)
      ensures length > 0 ==> NoRoom(msgs[txIndex].read, txFill, rxAvail, rxOutstanding)
      ensures buffer0 < buffer <==> !NoRoom(msgs[txIndex].read, old(txFill), rxAvail0, old(rxOutstanding))
    {
      hide Sent, Reads, Bad, UnsignedMinus;
      var needRestart, txAvail := restart0, txAvail0;
      buffer, length, rxAvail := buffer0, length0, rxAvail0;
      while length > 0 && txAvail > 0 && rxAvail > 0
        invariant buffer0 <= buffer && buffer + length == msgs[txIndex].Length()
        invariant log == Sent(msgs, txIndex, buffer, stalled)
        invariant needRestart ==> buffer == 0
        invariant buffer == 0 ==> (needRestart <==> txIndex > 0 && txIndex !in stalled)
        invariant |log| == |old(log)| + buffer - buffer0
        invariant forall k | |old(log)| <= k < |log| :: Carries(log[k], msgs[txIndex], k - |old(log)| + buffer0)
        invariant txFill == old(txFill) + (buffer - buffer0) && txAvail == TX_FIFO_DEPTH - txFill >= 0
        invariant rxAvail == rxAvail0 - (if msgs[txIndex].read then buffer - buffer0 else 0)
        invariant rxOutstanding == old(rxOutstanding) + (if msgs[txIndex].read then buffer - buffer0 else 0)
        invariant buffer0 < buffer ==> !NoRoom(msgs[txIndex].read, old(txFill), rxAvail0, old(rxOutstanding))
        decreases length
      {
        SentNext(msgs, txIndex, buffer, stalled);
        var stop := txIndex == |msgs| - 1 && length == 1;
        var restart := needRestart;
        needRestart := false;
        if msgs[txIndex].read {
          if UnsignedMinus(rxAvail, rxOutstanding) <= 0 {
            break;
          }
          Write(Cmd(true, 0, stop, restart));
          rxAvail := rxAvail - 1;
          rxOutstanding := rxOutstanding + 1;
        } else {
          Write(Cmd(false, msgs[txIndex].data[buffer], stop, restart));
        }
        buffer := buffer + 1;
        txAvail := txAvail - 1;
        length := length - 1;
      }
    }

    // The start of a round: take up the message at its saved position or at its start.
    method TakeUp() returns (buffer: nat, length: nat, needRestart: bool)
      requires TxOk() && txIndex < |msgs| && !Bad(msgs, 0, txIndex)
      ensures 0 < length && buffer + length == msgs[txIndex].Length() && buffer == Begun()
      ensures needRestart ==> buffer == 0
      ensures buffer == 0 ==> (needRestart <==> txIndex > 0 && txIndex !in stalled)
      ensures needRestart <==> !writeInProgress && txIndex > 0
    {
      buffer, length, needRestart := txBuffer, txLength, false;
      if !writeInProgress {
        buffer, length := 0, msgs[txIndex].Length();
        if txIndex > 0 {
          needRestart := true;
        }
      }
    }

    // Then read the FIFO levels and send what fits.
    method SendSome(buffer0: nat, length0: nat, needRestart: bool, drainedTo: nat, bytes: seq<byte>)
      returns (buffer: nat, length: nat, rxAvail: int)
      requires Credits() && txIndex < |msgs| && txFill <= TX_FIFO_DEPTH
      requires 0 < length0 && buffer0 + length0 == msgs[txIndex].Length()
      requires log == Sent(msgs, txIndex, buffer0, stalled)
      requires needRestart ==> buffer0 == 0
      requires buffer0 == 0 ==> (needRestart <==> txIndex > 0 && txIndex !in stalled)
      modifies this`rxOutstanding, this`log, this`txFill, this`rxFifo
      ensures Credits() && old(log) <= log && Reads(old(log)) <= Reads(log)
      ensures buffer0 <= buffer && buffer + length == msgs[txIndex].Length()
      ensures log == Sent(msgs, txIndex, buffer, stalled) && txFill <= TX_FIFO_DEPTH
      ensures length > 0 ==> NoRoom(msgs[txIndex].read, txFill, rxAvail, rxOutstanding)
      ensures rxAvail == RX_FIFO_DEPTH - |rxFifo| - (Reads(log) - Reads(old(log)))
      ensures txFill == Level(old(txFill), drainedTo) + |log| - |old(log)| && |log| - |old(log)| == buffer - buffer0
      ensures buffer0 < buffer <==> Room(msgs[txIndex].read, Level(old(txFill), drainedTo), |rxFifo|, old(rxOutstanding))
      ensures forall k | |old(log)| <= k < |log| :: log[k].restart <==> k == |old(log)| && needRestart
    {
      hide CmdAt, Bad, Level, Sent, Reads, NoRoom;
      var txLevel, rxLevel := ReadLevels(drainedTo, bytes);
      buffer, length, rxAvail :=
        SendBytes(buffer0, length0, needRestart, TX_FIFO_DEPTH - txLevel, RX_FIFO_DEPTH - rxLevel);
      SentGrows(msgs, txIndex, buffer0, buffer, stalled);
      SentTail(msgs, txIndex, buffer0, buffer, stalled);
    }

    // One round of the outer loop, for a message that is not bad. If the FIFO levels leave room, something
    // is sent, and of the commands sent only the first of a message other than the first carries RESTART:
    // a message that is taken up when there is no room never gets its RESTART.
    method SendMessage(drainedTo: nat, bytes: seq<byte>) returns (more: bool, ghost rxAvailAtEnd: int)
      requires TxOk() && Credits() && txIndex < |msgs| && !Bad(msgs, 0, txIndex)
      modifies this`txIndex, this`txLength, this`txBuffer, this`writeInProgress, this`rxOutstanding
      modifies this`log, this`txFill, this`rxFifo, this`stalled
      ensures TxOk() && Credits() && old(log) <= log && Reads(old(log)) <= Reads(log)
      ensures more ==> txIndex == old(txIndex) + 1 && !writeInProgress && stalled == old(stalled)
      ensures !more ==> txIndex == old(txIndex) && writeInProgress
      ensures !more ==> stalled == old(stalled) + (if Begun() == 0 then {txIndex} else {})
      ensures !more ==> NoRoom(msgs[txIndex].read, txFill, rxAvailAtEnd, rxOutstanding)
      ensures rxAvailAtEnd == RX_FIFO_DEPTH - |rxFifo| - (Reads(log) - Reads(old(log)))
      ensures txFill == Level(old(txFill), drainedTo) + |log| - |old(log)|
      ensures |old(log)| < |log| <==>
                Room(msgs[old(txIndex)].read, Level(old(txFill), drainedTo), |rxFifo|, old(rxOutstanding))
      ensures forall k | |old(log)| <= k < |log| ::
                log[k].restart <==> k == |old(log)| && old(!writeInProgress && txIndex > 0)
      ensures !old(writeInProgress) ==> (old(txIndex) in stalled <==> |log| == |old(log)|)
    {
      hide CmdAt, Reads, NoRoom, Room, Level, UnsignedMinus;
      var buffer, length, needRestart := TakeUp();
      SentTail(msgs, txIndex, 0, buffer, stalled);
      buffer, length, rxAvailAtEnd := SendSome(buffer, length, needRestart, drainedTo, bytes);
      more := SaveProgress(buffer, length);
    }

    // The end of the round: the position is saved, or the next message is up.
    method SaveProgress(buffer: nat, length: nat) returns (more: bool)
      requires Position(msgs, txIndex, writeInProgress, txLength, txBuffer, stalled) && txFill <= TX_FIFO_DEPTH
      requires txIndex < |msgs| && !Bad(msgs, 0, txIndex)
      requires buffer + length == msgs[txIndex].Length() && (writeInProgress ==> txBuffer <= buffer)
      requires log == Sent(msgs, txIndex, buffer, stalled)
      modifies this`txIndex, this`txLength, this`txBuffer, this`writeInProgress, this`stalled
      ensures TxOk() && (more <==> length == 0)
      ensures more ==> txIndex == old(txIndex) + 1 && !writeInProgress && stalled == old(stalled)
      ensures !more ==> txIndex == old(txIndex) && writeInProgress && Begun() == buffer
      ensures !more ==> stalled == old(stalled) + (if Begun() == 0 then {txIndex} else {})
    {
      PositionKept(msgs, txIndex, writeInProgress, txLength, txBuffer, stalled, length, buffer);
      txBuffer, txLength := buffer, length;
      if length > 0 {
        stalled := if buffer == 0 then stalled + {txIndex} else stalled;
        writeInProgress := true;
        return false;
      }
      writeInProgress := false;
      txIndex := txIndex + 1;
      return true;
    }

    // tsb_i2c_transfer_msg. drained and incoming say, for each time the loop reads the FIFO levels, how far
    // the TX FIFO has drained and which bytes have come in: any schedule is possible. rxAvailAtEnd is the
    // last value of rx_avail. The call ends only when everything is out, on a bad message, or for
    // want of room in a FIFO.
    method TransferMsg(drained: nat -> nat, incoming: nat -> seq<byte>) returns (ghost rxAvailAtEnd: int)
      requires TxOk() && Credits() && msgErr == 0 // after an error all interrupts are masked
      requires 0 < txIndex < |msgs| ==> writeInProgress
      modifies this`txIndex, this`txLength, this`txBuffer, this`writeInProgress, this`msgErr, this`rxOutstanding
      modifies this`txIrq, this`log, this`txFill, this`rxFifo, this`stalled
      ensures TxOk() && Credits() && old(log) <= log && old(txIndex) <= txIndex
      ensures old(txIndex) == |msgs| ==> txIndex == |msgs| && log == old(log)
      ensures msgErr == 0 && txIndex < |msgs| ==> writeInProgress
      ensures msgErr == if Bad(msgs, old(txIndex), txIndex) then -EINVAL else 0
      ensures Uniform(msgs) ==> msgErr == 0
      ensures msgErr != 0 <==> txIndex < |msgs| && (msgs[txIndex].addr != msgs[old(txIndex)].addr || msgs[txIndex].data == [])
      ensures txIrq <==> txIndex < |msgs| && msgErr == 0
      ensures stalled == old(stalled) + (if writeInProgress && Begun() == 0 then {txIndex} else {})
      ensures txIndex < |msgs| && msgErr == 0 ==>
                NoRoom(msgs[txIndex].read, txFill, rxAvailAtEnd, rxOutstanding)
      ensures rxAvailAtEnd >= RX_FIFO_DEPTH - |rxFifo| - (Reads(log) - Reads(old(log)))
    {
      rxAvailAtEnd := SendMessages(drained, incoming);
      txIrq := txIndex < |msgs| && msgErr == 0;
    }

    // Its outer loop.
    method SendMessages(drained: nat -> nat, incoming: nat -> seq<byte>) returns (ghost rxAvailAtEnd: int)
      requires TxOk() && Credits() && msgErr == 0 && (0 < txIndex < |msgs| ==> writeInProgress)
      modifies this`txIndex, this`txLength, this`txBuffer, this`writeInProgress, this`msgErr, this`rxOutstanding
      modifies this`log, this`txFill, this`rxFifo, this`stalled
      ensures TxOk() && Credits() && old(log) <= log && old(txIndex) <= txIndex
      ensures old(txIndex) == |msgs| ==> txIndex == |msgs| && log == old(log)
      ensures txIndex < |msgs| ==> (msgErr == 0 <==> writeInProgress)
      ensures msgErr == if Bad(msgs, old(txIndex), txIndex) then -EINVAL else 0
      ensures msgErr != 0 ==> Bad(msgs, 0, txIndex)
      ensures stalled == old(stalled) + (if writeInProgress && Begun() == 0 then {txIndex} else {})
      ensures txIndex < |msgs| && msgErr == 0 ==>
                NoRoom(msgs[txIndex].read, txFill, rxAvailAtEnd, rxOutstanding)
      ensures rxAvailAtEnd >= RX_FIFO_DEPTH - |rxFifo| - (Reads(log) - Reads(old(log)))
    {
      var addr := if txIndex < |msgs| then msgs[txIndex].addr else 0;
      rxAvailAtEnd := RX_FIFO_DEPTH;
      ghost var first := txIndex;
      assert writeInProgress ==> !Bad(msgs, 0, first);
      var more := true;

      while more && txIndex < |msgs|
        invariant TxOk() && Credits() && old(log) <= log && first <= txIndex && Reads(old(log)) <= Reads(log)
        invariant msgErr == 0
        invariant more ==> stalled == old(stalled) && (txIndex > first ==> !writeInProgress)
        invariant !more ==> stalled == old(stalled) + (if Begun() == 0 then {txIndex} else {})
        invariant !more ==> writeInProgress && !Bad(msgs, first, txIndex)
        invariant !more ==> NoRoom(msgs[txIndex].read, txFill, rxAvailAtEnd, rxOutstanding)
        invariant first < |msgs| ==> addr == msgs[first].addr == msgs[0].addr
        invariant rxAvailAtEnd >= RX_FIFO_DEPTH - |rxFifo| - (Reads(log) - Reads(old(log)))
        decreases more, |msgs| - txIndex
      {
        if msgs[txIndex].addr != addr || msgs[txIndex].Length() == 0 {
          assert !writeInProgress;
          msgErr := -EINVAL;
          return;
        }
        more, rxAvailAtEnd := SendMessage(drained(txIndex), incoming(txIndex));
      }
    }

    // The inner loop of tsb_dw_read: message rxIndex takes what the RX FIFO holds and it has room for.
    method DrainBytes(buffer0: nat, length0: nat, rxValid0: nat) returns (buffer: nat, length: nat)
      requires FillingAt(msgs, mem, rxIndex, buffer0, popped) && Credits()
      requires buffer0 + length0 == msgs[rxIndex].Length() && rxValid0 == |rxFifo|
      modifies this`mem, this`popped, this`rxFifo, this`rxOutstanding
      ensures FillingAt(msgs, mem, rxIndex, buffer, popped) && Credits()
      ensures buffer + length == msgs[rxIndex].Length()
      ensures popped + rxFifo == old(popped + rxFifo) && (length > 0 ==> rxFifo == [])
    {
      var rxValid := rxValid0;
      buffer, length := buffer0, length0;
      while length > 0 && rxValid > 0
        invariant FillingAt(msgs, mem, rxIndex, buffer, popped) && Credits()
        invariant buffer + length == msgs[rxIndex].Length() && rxValid == |rxFifo|
        invariant popped + rxFifo == old(popped + rxFifo)
        decreases length
      {
        FillByte(msgs, mem, rxIndex, buffer, popped, rxFifo[0]);
        assert popped + rxFifo == (popped + [rxFifo[0]]) + rxFifo[1..];
        mem := mem[rxIndex := mem[rxIndex][buffer := rxFifo[0]]];
        popped, rxFifo := popped + [rxFifo[0]], rxFifo[1..];
        buffer := buffer + 1;
        rxOutstanding := rxOutstanding - 1;
        length, rxValid := length - 1, rxValid - 1;
      }
    }

    // One round of the outer loop of tsb_dw_read.
    method DrainMessage(bytes: seq<byte>) returns (more: bool)
      requires RxOk() && Credits() && rxIndex < |msgs|
      modifies this`rxIndex, this`rxLength, this`rxBuffer, this`readInProgress
      modifies this`mem, this`popped, this`rxFifo, this`rxOutstanding
      ensures RxOk() && Credits() && old(popped + rxFifo) <= popped + rxFifo
      ensures more ==> rxIndex == old(rxIndex) + 1
      ensures !more ==> rxFifo == []
    {
      FillBegins(msgs, mem, rxIndex, readInProgress, rxLength, rxBuffer, popped);
      if !msgs[rxIndex].read {
        rxIndex := rxIndex + 1;
        return true;
      }
      var length, buffer := msgs[rxIndex].Length(), 0;
      if readInProgress {
        length, buffer := rxLength, rxBuffer;
      }
      var rxValid := ReadRxLevel(bytes);
      buffer, length := DrainBytes(buffer, length, rxValid);
      more := SaveFilled(buffer, length);
    }

    method SaveFilled(buffer: nat, length: nat) returns (more: bool)
      requires FillingAt(msgs, mem, rxIndex, buffer, popped) && buffer + length == msgs[rxIndex].Length()
      modifies this`rxIndex, this`rxLength, this`rxBuffer, this`readInProgress
      ensures RxOk() && (more <==> length == 0)
      ensures rxIndex == if more then old(rxIndex) + 1 else old(rxIndex)
    {
      FillSaved(msgs, mem, rxIndex, buffer, length, popped);
      if length > 0 {
        readInProgress := true;
        rxLength, rxBuffer := length, buffer;
        return false;
      }
      readInProgress := false;
      rxIndex := rxIndex + 1;
      FillingIgnores(msgs, mem, rxIndex, rxLength, rxBuffer, length, buffer, popped);
      return true;
    }

    // tsb_dw_read. incoming says which bytes come in before each reading of the FIFO level. Every byte
    // that has come in is drained, in order, to its place.
    method DwRead(incoming: nat -> seq<byte>)
      requires TxOk() && RxOk() && Credits()
      modifies this`rxIndex, this`rxLength, this`rxBuffer, this`readInProgress
      modifies this`mem, this`popped, this`rxFifo, this`rxOutstanding
      ensures RxOk() && Credits()
      ensures rxFifo == [] && old(popped + rxFifo) <= popped
    {
      var more := true;
      while more && rxIndex < |msgs|
        invariant RxOk() && Credits() && old(popped + rxFifo) <= popped + rxFifo
        invariant !more ==> rxFifo == []
        decreases more, |msgs| - rxIndex
      {
        more := DrainMessage(incoming(rxIndex));
      }
      if more {
        NothingLeft();
      }
      assert popped + [] == popped;
    }

    lemma NothingLeft()
      requires TxOk() && RxOk() && Credits() && rxIndex == |msgs|
      ensures rxFifo == []
    {
      ReadsNeverExceedBuffers(msgs, mem, txIndex, Begun(), stalled);
    }

    // dw_interrupt without an abort: first the RX side, then the TX side, each if its status bit is set.
    // The waiting dw_transfer is released on STOP_DET or on an error, and returns 0 if there is no error.
    // If the controller keeps its promise about STOP_DET, the whole transfer was sent by then and the
    // read buffers together hold exactly the bytes received, in order.
    method Interrupt(stat: Stat, rxBytes: nat -> seq<byte>, drained: nat -> nat, txBytes: nat -> seq<byte>)
      returns (release: bool, ghost rxAvailAtEnd: int)
      requires Valid() && msgErr == 0
      modifies this
      ensures Valid() && msgs == old(msgs)
      ensures Uniform(msgs) ==> msgErr == 0
      ensures stat.rxFull ==> old(popped + rxFifo) <= popped
      ensures stat.txEmpty && txIndex < |msgs| && msgErr == 0 ==>
                NoRoom(msgs[txIndex].read, txFill, rxAvailAtEnd, rxOutstanding)
      ensures release <==> stat.stopDet || msgErr != 0
      ensures stat.stopDet && old(Promise(stat.rxFull)) ==>
                msgErr == 0 && rxOutstanding == 0 && Strip(log) == Plain(msgs) && popped == Received(msgs, mem, |msgs|)
                && |log| == Offset(msgs, |msgs|) && WrittenBytes(log) == WriteData(msgs, |msgs|)
    {
      rxAvailAtEnd := 0;
      ghost var ends := stat.stopDet && Promise(stat.rxFull);
      if ends {
        StopMeansAllSent();
      }
      if stat.rxFull {
        RxFull(rxBytes);
      }
      if stat.txEmpty {
        rxAvailAtEnd := TxEmpty(drained, txBytes);
      }
      if ends {
        Complete();
      }
      release := stat.stopDet || msgErr != 0;
    }

    // What the controller has to promise when it reports STOP_DET: it has executed a command with STOP, every
    // READ has been answered, and RX_FULL is reported too if bytes are waiting.
    ghost predicate Promise(rxFull: bool)
      reads this`log, this`popped, this`rxFifo
    {
      && (exists k :: 0 <= k < |log| && log[k].stop)
      && |popped| + |rxFifo| == Reads(log)
      && (rxFifo != [] ==> rxFull)
    }

    // Only the last command of a transfer has STOP.
    lemma StopMeansAllSent()
      requires Valid() && exists k :: 0 <= k < |log| && log[k].stop
      ensures txIndex == |msgs|
    {
      var k :| 0 <= k < |log| && log[k].stop;
      forall m | 0 <= m < txIndex ensures msgs[m].Length() > 0 {
        assert !Bad(msgs, 0, m);
      }
      StopOnlyAtTheEnd(msgs, txIndex, Begun(), stalled, k);
    }

    method RxFull(rxBytes: nat -> seq<byte>)
      requires Valid()
      modifies this
      ensures Valid() && msgs == old(msgs) && msgErr == old(msgErr)
      ensures old(popped + rxFifo) <= popped && log == old(log) && txIndex == old(txIndex)
      ensures rxFifo == []
    {
      hide Position, Filling, Sent, Reads, NoRoom, Bad, BegunOf;
      DwRead(rxBytes);
    }

    method TxEmpty(drained: nat -> nat, txBytes: nat -> seq<byte>) returns (ghost rxAvailAtEnd: int)
      requires Valid() && msgErr == 0
      modifies this
      ensures Valid() && msgs == old(msgs) && popped == old(popped)
      ensures old(txIndex) == |msgs| ==> txIndex == |msgs| && log == old(log) && msgErr == 0
      ensures Uniform(msgs) ==> msgErr == 0
      ensures txIndex < |msgs| && msgErr == 0 ==>
                NoRoom(msgs[txIndex].read, txFill, rxAvailAtEnd, rxOutstanding)
    {
      hide Position, Filling, Sent, Reads, NoRoom, BegunOf;
      rxAvailAtEnd := TransferMsg(drained, txBytes);
    }

    // THE OUTCOME: when every command is out and every READ has been answered, the transfer as a whole was
    // sent and the read buffers together hold exactly the bytes received, in order.
    lemma Complete()
      requires Valid() && txIndex == |msgs| && rxOutstanding == 0
      ensures Strip(log) == Plain(msgs) && |log| == Offset(msgs, |msgs|) && WrittenBytes(log) == WriteData(msgs, |msgs|)
      ensures popped == Received(msgs, mem, |msgs|)
    {
      SentBytes(msgs, txIndex, Begun(), stalled);
      SentIsPrefix(msgs, txIndex, Begun(), stalled);
      ReadsNeverExceedBuffers(msgs, mem, txIndex, Begun(), stalled);
      ReceivedLength(msgs, mem, |msgs|);
      ReceivedLength(msgs, mem, rxIndex);
      if rxIndex < |msgs| {
        ReadTotalGrows(msgs, rxIndex + 1, |msgs|);
        NoReadsLeft(msgs, mem, rxIndex);
      }
    }

    lemma Prefix()
      requires Valid()
      ensures Strip(log) <= Plain(msgs)
    {
      SentIsPrefix(msgs, txIndex, Begun(), stalled);
    }

    // At every moment: as many commands as bytes done with, each a READ or the WRITE of its own byte.
    lemma Commands(a: nat, j: nat)
      requires Valid() && a < |msgs| && j < |msgs[a].data| && (a < txIndex || (a == txIndex && j < Begun()))
      ensures |log| == Offset(msgs, txIndex) + Begun() && Offset(msgs, a) + j < |log|
      ensures Carries(log[Offset(msgs, a) + j], msgs[a], j)
    {
      SentBytes(msgs, txIndex, Begun(), stalled);
      SentAt(msgs, txIndex, Begun(), stalled, a, j);
    }
  }

  // WHERE THE CODE LOSES A RESTART: the first of two messages fills the TX FIFO, so there is no room when
  // the second is taken up, and its first command goes out without RESTART.
  method LostRestart(first: seq<byte>, second: byte) returns (log: seq<Cmd>)
    requires |first| == TX_FIFO_DEPTH
    ensures |log| == TX_FIFO_DEPTH + 1 && log[TX_FIFO_DEPTH] == Cmd(false, second, true, false)
    ensures Strip(log) == Plain([Msg(0x20, false, first), Msg(0x20, false, [second])])
  {
    var msgs := [Msg(0x20, false, first), Msg(0x20, false, [second])];
    hide Plain, Strip;
    var engine := FullFifo(msgs);
    WritesOnly(msgs, 1, 0, {});
    var more, rxAvail := engine.SendMessage(TX_FIFO_DEPTH, []);
    assert !more && engine.stalled == {1}; // the call ends here
    more, rxAvail := engine.SendMessage(0, []);
    assert more;
    SentIsPrefix(msgs, 2, 0, {1});
    return engine.log;
  }

  // The first round of that run.
  method FullFifo(msgs: seq<Msg>) returns (engine: Engine)
    requires |msgs| == 2 && |msgs[0].data| == TX_FIFO_DEPTH && !msgs[0].read && !msgs[1].read
    ensures fresh(engine) && engine.msgs == msgs && engine.TxOk() && engine.Credits()
    ensures engine.txIndex == 1 && !engine.writeInProgress && engine.stalled == {}
    ensures engine.txFill == TX_FIFO_DEPTH
  {
    hide Plain, Strip, Sent, CmdAt, Reads;
    engine := new Engine(msgs);
    assert !Bad(msgs, 0, 0);
    var more, rxAvail := engine.SendMessage(TX_FIFO_DEPTH, []);
    WritesOnly(msgs, 0, if more then 0 else engine.Begun(), engine.stalled);
    WritesOnly(msgs, 1, 0, {});
  }

  lemma {:induction false} WritesOnly(msgs: seq<Msg>, i: nat, n: nat, stalled: set<nat>)
    requires |msgs| == 2 && |msgs[0].data| == TX_FIFO_DEPTH && !msgs[0].read && !msgs[1].read && Place(msgs, i, n) && i < 2
    ensures |Sent(msgs, i, n, stalled)| == (if i == 0 then 0 else TX_FIFO_DEPTH) + n
    ensures Reads(Sent(msgs, i, n, stalled)) == 0
  {
    SentTail(msgs, 0, 0, if i == 0 then n else TX_FIFO_DEPTH, stalled);
    SentTail(msgs, 1, 0, if i == 0 then 0 else n, stalled);
    ReadsFillBuffers(msgs, i, n, stalled);
    assert ReadTotal(msgs, 1) == ReadTotal(msgs, 0) == 0;
  }

  // If the first i messages account for all read bytes, the others add none.
  lemma {:induction false} NoReadsLeft(msgs: seq<Msg>, mem: seq<seq<byte>>, i: nat)
    requires Memory(msgs, mem) && i <= |msgs|
    ensures |Received(msgs, mem, i)| == |Received(msgs, mem, |msgs|)| ==> Received(msgs, mem, i) == Received(msgs, mem, |msgs|)
  {
    ReceivedGrows(msgs, mem, i, |msgs|);
  }

  lemma {:induction false} ReceivedGrows(msgs: seq<Msg>, mem: seq<seq<byte>>, i: nat, j: nat)
    requires i <= j <= |msgs| == |mem|
    ensures Received(msgs, mem, i) <= Received(msgs, mem, j)
    decreases j
  {
    if i < j {
      ReceivedGrows(msgs, mem, i, j - 1);
    }
  }
}
