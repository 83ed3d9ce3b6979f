/**
 * The I2C master transactions `I2C_Write` and `I2C_Read` on the USCI_B0
 * controller, observed as the sequence of things the firmware does to the
 * peripheral.  A busy-wait on a status flag is one event.  A phase automaton
 * states the framing of UM10204 (the NXP I2C-bus specification): START and
 * STOP around a transaction (section 3.1.4) and a repeated START to turn the
 * bus around for reading (section 3.1.10).
 */
module I2C {
  import opened CInt
  import opened Wrappers

  datatype Event =
    | SetAddr(addr: u8)       // UCB0I2CSA = addr
    | StartTx                 // UCB0CTL1 |= UCTR + UCTXSTT
    | WaitTx                  // until UCB0TXIFG
    | TxByte(b: u8)           // UCB0TXBUF = b
    | WaitStopClear           // while (UCB0CTL1 & UCTXSTP)
    | Stop                    // UCB0CTL1 |= UCTXSTP
    | SwitchRx                // UCB0CTL1 &= ~UCTR
    | RepeatedStart           // UCB0CTL1 |= UCTXSTT
    | WaitRx                  // until UCB0RXIFG
    | RxByte(b: u8)           // data[i] = UCB0RXBUF

  /** One `WaitTx`, `TxByte` pair per byte, in order. */
  function TxEvents(data: seq<u8>): seq<Event>
  {
    if data == [] then [] else [WaitTx, TxByte(data[0])] + TxEvents(data[1..])
  }

  /** One `WaitRx`, `RxByte` pair per byte, with `Stop` just before the last pair. */
  function RxEvents(rx: seq<u8>): seq<Event>
  {
    if rx == [] then []
    else if |rx| == 1 then [Stop, WaitRx, RxByte(rx[0])]
    else [WaitRx, RxByte(rx[0])] + RxEvents(rx[1..])
  }

  /** What `I2C_Write(addr, data, length)` does, given `data[0..length)`. */
  function WriteTrace(addr: u8, data: seq<u8>): seq<Event>
  {
    [SetAddr(addr), StartTx] + TxEvents(data) + [WaitStopClear, Stop]
  }

  const READ_PREAMBLE_LENGTH := 7

  /** The register-address phase of `I2C_Read`, up to the repeated START. */
  function ReadPreamble(addr: u8, reg: u8): seq<Event>
  {
    [SetAddr(addr), StartTx, WaitTx, TxByte(reg), WaitTx, SwitchRx, RepeatedStart]
  }

  /** What `I2C_Read(addr, reg, data, length)` does when the slave sends `rx`. */
  function ReadTrace(addr: u8, reg: u8, rx: seq<u8>): seq<Event>
  {
    ReadPreamble(addr, reg) + RxEvents(rx)
  }

  /*** Observations on a trace ***/

  function SentBytes(t: seq<Event>): seq<u8>
  {
    if t == [] then [] else (if t[0].TxByte? then [t[0].b] else []) + SentBytes(t[1..])
  }

  function ReceivedBytes(t: seq<Event>): seq<u8>
  {
    if t == [] then [] else (if t[0].RxByte? then [t[0].b] else []) + ReceivedBytes(t[1..])
  }

  function Stops(t: seq<Event>): nat
  {
    if t == [] then 0 else (if t[0].Stop? then 1 else 0) + Stops(t[1..])
  }

  lemma {:induction false} SentBytesAppend(a: seq<Event>, b: seq<Event>)
    ensures SentBytes(a + b) == SentBytes(a) + SentBytes(b)
  {
    if a == [] {
      assert a + b == b;
    } else {
      var h := if a[0].TxByte? then [a[0].b] else [];
      assert (a + b)[0] == a[0] && (a + b)[1..] == a[1..] + b;
      assert SentBytes(a + b) == h + SentBytes(a[1..] + b);
      SentBytesAppend(a[1..], b);
      assert h + (SentBytes(a[1..]) + SentBytes(b)) == h + SentBytes(a[1..]) + SentBytes(b);
    }
  }

  lemma {:induction false} ReceivedBytesAppend(a: seq<Event>, b: seq<Event>)
    ensures ReceivedBytes(a + b) == ReceivedBytes(a) + ReceivedBytes(b)
  {
    if a == [] {
      assert a + b == b;
    } else {
      var h := if a[0].RxByte? then [a[0].b] else [];
      assert (a + b)[0] == a[0] && (a + b)[1..] == a[1..] + b;
      assert ReceivedBytes(a + b) == h + ReceivedBytes(a[1..] + b);
      ReceivedBytesAppend(a[1..], b);
      assert h + (ReceivedBytes(a[1..]) + ReceivedBytes(b)) == h + ReceivedBytes(a[1..]) + ReceivedBytes(b);
    }
  }

  lemma {:induction false} StopsAppend(a: seq<Event>, b: seq<Event>)
    ensures Stops(a + b) == Stops(a) + Stops(b)
  {
    if a == [] {
      assert a + b == b;
    } else {
      assert (a + b)[0] == a[0] && (a + b)[1..] == a[1..] + b;
      StopsAppend(a[1..], b);
    }
  }

  /** The three observations of a trace, one event at a time. */
  lemma Observe(e: Event, t: seq<Event>)
    ensures SentBytes([e] + t) == (if e.TxByte? then [e.b] else []) + SentBytes(t)
    ensures ReceivedBytes([e] + t) == (if e.RxByte? then [e.b] else []) + ReceivedBytes(t)
    ensures Stops([e] + t) == (if e.Stop? then 1 else 0) + Stops(t)
  {
    assert ([e] + t)[1..] == t;
  }

  /** Each byte of `data` goes out once, in order; nothing is read and no STOP is issued. */
  lemma {:induction false} TxEventsCarry(data: seq<u8>)
    ensures |TxEvents(data)| == 2 * |data|
    ensures SentBytes(TxEvents(data)) == data
    ensures ReceivedBytes(TxEvents(data)) == [] && Stops(TxEvents(data)) == 0
  {
    if data != [] {
      var head: seq<Event> := [WaitTx, TxByte(data[0])];
      TxEventsCarry(data[1..]);
      SentBytesAppend(head, TxEvents(data[1..]));
      ReceivedBytesAppend(head, TxEvents(data[1..]));
      StopsAppend(head, TxEvents(data[1..]));
      assert [data[0]] + data[1..] == data;
    }
  }

  /** Each byte of `rx` is read once, in order; nothing is sent; one STOP exactly when `rx` is not empty. */
  lemma {:induction false} RxEventsCarry(rx: seq<u8>)
    ensures |RxEvents(rx)| == 2 * |rx| + (if rx == [] then 0 else 1)
    ensures ReceivedBytes(RxEvents(rx)) == rx
    ensures SentBytes(RxEvents(rx)) == []
    ensures Stops(RxEvents(rx)) == if rx == [] then 0 else 1
  {
    if |rx| == 1 {
      var last: seq<Event> := [RxByte(rx[0])];
      assert RxEvents(rx) == [Stop] + ([WaitRx] + last);
      Observe(RxByte(rx[0]), []);
      assert last == [RxByte(rx[0])] + [];
      Observe(WaitRx, last);
      Observe(Stop, [WaitRx] + last);
    } else if |rx| > 1 {
      var head: seq<Event> := [WaitRx, RxByte(rx[0])];
      RxEventsCarry(rx[1..]);
      SentBytesAppend(head, RxEvents(rx[1..]));
      ReceivedBytesAppend(head, RxEvents(rx[1..]));
      StopsAppend(head, RxEvents(rx[1..]));
      assert [rx[0]] + rx[1..] == rx;
    }
  }

  /** A write sends exactly `data`, reads nothing and ends with exactly one STOP. */
  lemma WriteTraceCarries(addr: u8, data: seq<u8>)
    ensures |WriteTrace(addr, data)| == 2 * |data| + 4
    ensures SentBytes(WriteTrace(addr, data)) == data
    ensures ReceivedBytes(WriteTrace(addr, data)) == []
    ensures Stops(WriteTrace(addr, data)) == 1
    ensures WriteTrace(addr, data)[|WriteTrace(addr, data)| - 2..] == [WaitStopClear, Stop]
  {
    var start: seq<Event> := [SetAddr(addr), StartTx];
    var finish: seq<Event> := [WaitStopClear, Stop];
    TxEventsCarry(data);
    SentBytesAppend(start + TxEvents(data), finish);
    SentBytesAppend(start, TxEvents(data));
    ReceivedBytesAppend(start + TxEvents(data), finish);
    ReceivedBytesAppend(start, TxEvents(data));
    StopsAppend(start + TxEvents(data), finish);
    StopsAppend(start, TxEvents(data));
  }

  /** Writing nothing still frames the bus: address, START, wait, STOP. */
  lemma EmptyWrite(addr: u8)
    ensures WriteTrace(addr, []) == [SetAddr(addr), StartTx, WaitStopClear, Stop]
  {
  }

  /** The register-address phase sends the register number and nothing else. */
  lemma PreambleCarries(addr: u8, reg: u8)
    ensures SentBytes(ReadPreamble(addr, reg)) == [reg]
    ensures ReceivedBytes(ReadPreamble(addr, reg)) == [] && Stops(ReadPreamble(addr, reg)) == 0
  {
    var t3: seq<Event> := [RepeatedStart];
    var t2 := [SwitchRx] + t3;
    var t1 := [WaitTx] + t2;
    var t0 := [TxByte(reg)] + t1;
    assert ReadPreamble(addr, reg) == [SetAddr(addr)] + ([StartTx] + ([WaitTx] + t0));
    Observe(RepeatedStart, []);
    assert t3 == [RepeatedStart] + [];
    Observe(SwitchRx, t3);
    Observe(WaitTx, t2);
    Observe(TxByte(reg), t1);
    Observe(WaitTx, t0);
    Observe(StartTx, [WaitTx] + t0);
    Observe(SetAddr(addr), [StartTx] + ([WaitTx] + t0));
  }

  /** A read sends only the register address and reads exactly `rx`. */
  lemma ReadTraceCarries(addr: u8, reg: u8, rx: seq<u8>)
    ensures |ReadTrace(addr, reg, rx)| == READ_PREAMBLE_LENGTH + 2 * |rx| + (if rx == [] then 0 else 1)
    ensures SentBytes(ReadTrace(addr, reg, rx)) == [reg]
    ensures ReceivedBytes(ReadTrace(addr, reg, rx)) == rx
    ensures Stops(ReadTrace(addr, reg, rx)) == if rx == [] then 0 else 1
  {
    var pre := ReadPreamble(addr, reg);
    PreambleCarries(addr, reg);
    RxEventsCarry(rx);
    SentBytesAppend(pre, RxEvents(rx));
    ReceivedBytesAppend(pre, RxEvents(rx));
    StopsAppend(pre, RxEvents(rx));
  }

  /** When at least one byte is read, the STOP comes right before the wait for the last byte. */
  lemma {:induction false} StopBeforeLastByte(rx: seq<u8>)
    requires |rx| >= 1
    ensures var t := RxEvents(rx);
      |t| >= 3 && t[|t| - 3..] == [Stop, WaitRx, RxByte(rx[|rx| - 1])]
  {
    if |rx| > 1 {
      StopBeforeLastByte(rx[1..]);
      var head: seq<Event> := [WaitRx, RxByte(rx[0])];
      var t, u := RxEvents(rx), RxEvents(rx[1..]);
      assert t == head + u;
      assert t[|t| - 3..] == u[|u| - 3..];
    }
  }

  /*** The framing automaton ***/

  datatype Phase =
    | Idle            // no transaction
    | Addressed       // slave address loaded
    | Sending         // START issued, transmitter mode
    | TxReady         // transmit buffer free
    | Releasing       // previous STOP has completed
    | Turning         // switched to receiver mode
    | Receiving       // repeated START issued, receiver mode
    | RxReady         // a byte has arrived
    | Stopping        // STOP requested before the last byte
    | LastReady       // the last byte has arrived
    | Done            // STOP issued and every byte taken

  /**
   * The steps a master may take: a byte goes into the transmit buffer only
   * once it is free, a byte is taken only once it has arrived, a STOP ends a
   * write only after the previous STOP has cleared, and a read turns the bus
   * around with a repeated START and requests its STOP before the last byte.
   */
  function Next(p: Phase, e: Event): Option<Phase>
  {
    match (p, e)
    case (Idle, SetAddr(_)) => Some(Addressed)
    case (Addressed, StartTx) => Some(Sending)
    case (Sending, WaitTx) => Some(TxReady)
    case (Sending, WaitStopClear) => Some(Releasing)
    case (TxReady, TxByte(_)) => Some(Sending)
    case (TxReady, SwitchRx) => Some(Turning)
    case (Releasing, Stop) => Some(Done)
    case (Turning, RepeatedStart) => Some(Receiving)
    case (Receiving, WaitRx) => Some(RxReady)
    case (Receiving, Stop) => Some(Stopping)
    case (RxReady, RxByte(_)) => Some(Receiving)
    case (Stopping, WaitRx) => Some(LastReady)
    case (LastReady, RxByte(_)) => Some(Done)
    case _ => None
  }

  /** Runs the automaton over a trace; `None` when some step is not allowed. */
  function Run(p: Phase, t: seq<Event>): Option<Phase>
    decreases |t|
  {
    if t == [] then Some(p)
    else match Next(p, t[0])
      case None => None
      case Some(q) => Run(q, t[1..])
  }

  lemma {:induction false} RunAppend(p: Phase, a: seq<Event>, b: seq<Event>)
    ensures Run(p, a + b) == match Run(p, a) case None => None case Some(q) => Run(q, b)
    decreases |a|
  {
    if a == [] {
      assert a + b == b;
    } else {
      assert (a + b)[1..] == a[1..] + b;
      match Next(p, a[0])
      case None =>
      case Some(q) => RunAppend(q, a[1..], b);
    }
  }

  lemma {:induction false} RunTx(data: seq<u8>)
    ensures Run(Sending, TxEvents(data)) == Some(Sending)
  {
    if data != [] {
      var t := TxEvents(data);
      assert t[1..][1..] == TxEvents(data[1..]);
      RunTx(data[1..]);
    }
  }

  lemma RunCons(p: Phase, e: Event, t: seq<Event>)
    ensures Run(p, [e] + t) == match Next(p, e) case None => None case Some(q) => Run(q, t)
  {
    assert ([e] + t)[1..] == t;
  }

  lemma {:induction false} RunRx(rx: seq<u8>)
    ensures Run(Receiving, RxEvents(rx)) == Some(if rx == [] then Receiving else Done)
  {
    if |rx| == 1 {
      var last: seq<Event> := [RxByte(rx[0])];
      assert RxEvents(rx) == [Stop] + ([WaitRx] + last);
      RunCons(LastReady, RxByte(rx[0]), []);
      assert last == [RxByte(rx[0])] + [];
      RunCons(Stopping, WaitRx, last);
      RunCons(Receiving, Stop, [WaitRx] + last);
    } else if |rx| > 1 {
      var t := RxEvents(rx);
      assert t[1..][1..] == RxEvents(rx[1..]);
      RunRx(rx[1..]);
    }
  }

  /** Every write is a complete, well-framed transaction. */
  lemma WriteIsFramed(addr: u8, data: seq<u8>)
    ensures Run(Idle, WriteTrace(addr, data)) == Some(Done)
  {
    var start: seq<Event> := [SetAddr(addr), StartTx];
    var finish: seq<Event> := [WaitStopClear, Stop];
    RunTx(data);
    RunAppend(Idle, start + TxEvents(data), finish);
    RunAppend(Idle, start, TxEvents(data));
  }

  /**
   * A read of one byte or more is a complete, well-framed transaction; a read
   * of zero bytes leaves the bus in receiver mode with no STOP issued.
   */
  lemma ReadIsFramed(addr: u8, reg: u8, rx: seq<u8>)
    ensures Run(Idle, ReadTrace(addr, reg, rx)) == Some(if rx == [] then Receiving else Done)
  {
    var pre := ReadPreamble(addr, reg);
    PreambleRuns(addr, reg);
    RunRx(rx);
    RunAppend(Idle, pre, RxEvents(rx));
  }

  lemma PreambleRuns(addr: u8, reg: u8)
    ensures Run(Idle, ReadPreamble(addr, reg)) == Some(Receiving)
  {
    var t3: seq<Event> := [RepeatedStart];
    var t2 := [SwitchRx] + t3;
    var t1 := [WaitTx] + t2;
    var t0 := [TxByte(reg)] + t1;
    assert ReadPreamble(addr, reg) == [SetAddr(addr)] + ([StartTx] + ([WaitTx] + t0));
    RunStep(Turning, RepeatedStart, Receiving, []);
    assert t3 == [RepeatedStart] + [];
    RunStep(TxReady, SwitchRx, Turning, t3);
    RunStep(Sending, WaitTx, TxReady, t2);
    RunStep(TxReady, TxByte(reg), Sending, t1);
    RunStep(Sending, WaitTx, TxReady, t0);
    RunStep(Addressed, StartTx, Sending, [WaitTx] + t0);
    RunStep(Idle, SetAddr(addr), Addressed, [StartTx] + ([WaitTx] + t0));
  }

  lemma RunStep(p: Phase, e: Event, q: Phase, t: seq<Event>)
    requires Next(p, e) == Some(q)
    ensures Run(p, [e] + t) == Run(q, t)
  {
    assert ([e] + t)[1..] == t;
  }

  /*** The peripheral ***/

  /** The USCI_B0 master, as the sequence of events the firmware has caused on it. */
  class Master {
    var bus: seq<Event>

    constructor ()
      ensures bus == []
    {
      bus := [];
    }

    /** `I2C_Write`: sends `data[0..length)` to `addr`; it always reports success. */
    method Write(addr: u8, data: array<u8>, length: u8) returns (ok: bool)
      requires length as int <= data.Length
      modifies this
      ensures ok
      ensures bus == old(bus) + WriteTrace(addr, data[..length])
    {
      bus := bus + [SetAddr(addr), StartTx];
      var i: u8 := 0;
      while i < length
        invariant i <= length
        invariant bus == old(bus) + [SetAddr(addr), StartTx] + TxEvents(data[..i])
      {
        bus := bus + [WaitTx];
        bus := bus + [TxByte(data[i])];
        TxEventsSnoc(data[..i], data[i]);
        assert data[..i + 1] == data[..i] + [data[i]];
        i := i + 1;
      }
      bus := bus + [WaitStopClear];
      bus := bus + [Stop];
      return true;
    }

    /** The first part of `I2C_Read`: address the slave, send the register number, turn the bus around. */
    method SelectRegister(addr: u8, reg: u8)
      modifies this
      ensures bus == old(bus) + ReadPreamble(addr, reg)
    {
      bus := bus + [SetAddr(addr), StartTx];
      bus := bus + [WaitTx];
      bus := bus + [TxByte(reg)];
      bus := bus + [WaitTx];
      bus := bus + [SwitchRx];
      bus := bus + [RepeatedStart];
    }

    /**
     * `I2C_Read`: asks `addr` for register `reg` and receives `length` bytes,
     * which the slave supplies as `rx`, into `data[0..length)`; the rest of
     * `data` is left alone.  It always reports success.
     */
    method Read(addr: u8, reg: u8, data: array<u8>, length: u8, rx: seq<u8>) returns (ok: bool)
      requires length as int <= data.Length && |rx| == length as int
      modifies this, data
      ensures ok
      ensures data[..length] == rx
      ensures data[length..] == old(data[length..])
      ensures bus == old(bus) + ReadTrace(addr, reg, rx)
    {
      SelectRegister(addr, reg);
      ghost var start := bus;
      var i: u8 := 0;
      while i < length
        invariant i <= length
        invariant bus == start + RxPrefix(rx, i as int)
        invariant forall k :: 0 <= k < i ==> data[k] == rx[k]
        invariant forall k :: length as int <= k < data.Length ==> data[k] == old(data[k])
      {
        if i as int == length as int - 1 {
          bus := bus + [Stop];
        }
        bus := bus + [WaitRx];
        bus := bus + [RxByte(rx[i])];
        data[i] := rx[i];
        RxPrefixStep(rx, i as int);
        i := i + 1;
      }
      RxPrefixAll(rx);
      assert data[..length] == rx;
      return true;
    }
  }

  lemma {:induction false} TxEventsSnoc(data: seq<u8>, b: u8)
    ensures TxEvents(data + [b]) == TxEvents(data) + [WaitTx, TxByte(b)]
  {
    if data != [] {
      assert (data + [b])[1..] == data[1..] + [b];
      TxEventsSnoc(data[1..], b);
    } else {
      assert [b][1..] == [];
    }
  }

  /** The events of the receive loop after its first `i` passes. */
  function RxPrefix(rx: seq<u8>, i: int): seq<Event>
    requires 0 <= i <= |rx|
  {
    if i == 0 then []
    else RxPrefix(rx, i - 1) + (if i == |rx| then [Stop] else []) + [WaitRx, RxByte(rx[i - 1])]
  }

  lemma RxPrefixStep(rx: seq<u8>, i: int)
    requires 0 <= i < |rx|
    ensures RxPrefix(rx, i + 1) == RxPrefix(rx, i) + (if i == |rx| - 1 then [Stop] else []) + [WaitRx, RxByte(rx[i])]
  {
  }

  /** After all passes the receive loop has produced `RxEvents(rx)`. */
  lemma {:induction false} RxPrefixAll(rx: seq<u8>)
    ensures RxPrefix(rx, |rx|) == RxEvents(rx)
  {
    if |rx| > 1 {
      RxPrefixShift(rx, |rx| - 1);
      RxPrefixAll(rx[1..]);
    }
  }

  /** Dropping the first byte drops the first pair of the loop's events. */
  lemma {:induction false} RxPrefixShift(rx: seq<u8>, i: int)
    requires |rx| >= 2 && 0 <= i <= |rx| - 1
    ensures RxPrefix(rx, i + 1) == [WaitRx, RxByte(rx[0])] + RxPrefix(rx[1..], i)
  {
    if i > 0 {
      RxPrefixShift(rx, i - 1);
    }
  }
}
