/**
 * The firmware's state and its main loop: the global `sharedData` record,
 * the static `uartCounter` of `main`, and the bytes written to the UART
 * transmit register.  Each pass of the loop copies a driver reading into
 * the record and, on every tenth pass, writes the telemetry report.
 */
module Firmware {
  import opened CInt
  import opened BmsData
  import opened Report
  import opened Throttle

  /** `vsnprintf(buffer, sizeof(buffer), ...)` keeps at most 127 characters and a NUL. */
  const PRINTF_LIMIT := PRINTF_BUFFER - 1

  /** The C string that a character buffer holding `s` denotes: everything before the first NUL. */
  function CString(s: string): string
  {
    if s == [] || s[0] == '\0' then [] else [s[0]] + CString(s[1..])
  }

  /** The C string of `s` is the prefix of `s` before its first NUL. */
  lemma {:induction false} CStringPrefix(s: string)
    ensures var r := CString(s);
      |r| <= |s| && r == s[..|r|] && NoNul(r) && (|r| < |s| ==> s[|r|] == '\0')
  {
    if s != [] && s[0] != '\0' {
      CStringPrefix(s[1..]);
      var r := CString(s);
      assert s[..|r|] == [s[0]] + s[1..][..|r| - 1];
    }
  }

  /** What `vsnprintf` leaves in the 128-byte buffer when the formatted output is `text`. */
  function Formatted(text: string): string
  {
    if |text| <= PRINTF_LIMIT then text else text[..PRINTF_LIMIT]
  }

  /** `vsnprintf` truncates to the buffer and keeps text that fits. */
  lemma FormattedPrefix(text: string)
    ensures var r := Formatted(text);
      |r| <= PRINTF_LIMIT && |r| <= |text| && r == text[..|r|] && (|text| <= PRINTF_LIMIT ==> r == text)
  {
  }

  /** Text without a NUL is its own C string. */
  lemma {:induction false} CStringWhole(s: string)
    requires NoNul(s)
    ensures CString(s) == s
  {
    if s != [] {
      assert s[0] != '\0';
      assert NoNul(s[1..]) by {
        forall i | 0 <= i < |s[1..]| ensures s[1..][i] != '\0' {
          assert s[1..][i] == s[i + 1];
        }
      }
      CStringWhole(s[1..]);
    }
  }

  /** A short line without a NUL reaches the wire from `UART_Printf` as it was formatted. */
  lemma PrintfKeeps(text: string)
    requires |text| <= PRINTF_LIMIT && NoNul(text)
    ensures CString(Formatted(text)) == text
  {
    CStringWhole(text);
  }

  /** A line ended by CR LF still holds no NUL. */
  lemma LineNoNul(l: string)
    requires LineText(l)
    ensures NoNul(l + CRLF)
  {
    assert NoNul(CRLF);
  }

  lemma TranscriptSnoc(done: seq<string>, l: string)
    ensures Transcript(done + [l]) == Transcript(done) + (l + CRLF)
  {
    TranscriptAppend(done, [l]);
    assert Transcript([l]) == l + CRLF + Transcript([]);
  }

  /** The telemetry controller: `sharedData`, `uartCounter` and the UART output. */
  class Controller {
    // SharedBMSData_t sharedData
    const cellVoltages: array<u16>
    var packVoltage: u32
    var current: i32
    const temperatures: array<i16>
    var soc: u8
    var numCells: u8
    var protectionFlags: bv8
    var fetStatus: bv8
    var balancingStatus: bv16
    var timestamp: u32
    // static uint16_t uartCounter in main
    var uartCounter: u16
    /** Every character written to UCA0TXBUF so far. */
    var tx: string
    /** Passes of the main loop so far. */
    ghost var passes: nat

    /** The arrays of the record have the sizes `SharedBMSData_t` declares. */
    predicate Sized() {
      cellVoltages.Length == CELL_CAPACITY && temperatures.Length == SENSOR_COUNT
    }

    ghost predicate Valid()
      reads this`uartCounter, this`passes
    {
      Sized() && uartCounter == CounterAfter(passes)
    }

    /** The record as a value. */
    ghost function Shared(): Snapshot
      reads this`packVoltage, this`current, this`soc, this`numCells
      reads this`protectionFlags, this`fetStatus, this`balancingStatus, this`timestamp
      reads cellVoltages, temperatures
      requires Sized()
    {
      Snapshot(cellVoltages[..], packVoltage, current, temperatures[..], soc, numCells,
               protectionFlags, fetStatus, balancingStatus, timestamp)
    }

    /** The state at reset: `sharedData = {0}`, `uartCounter = 0`, nothing sent. */
    constructor ()
      ensures Valid() && Shared() == ZeroSnapshot
      ensures uartCounter == 0 && passes == 0 && tx == []
      ensures fresh(cellVoltages) && fresh(temperatures)
    {
      cellVoltages := new u16[CELL_CAPACITY](_ => 0);
      temperatures := new i16[SENSOR_COUNT](_ => 0);
      packVoltage, current, soc, numCells := 0, 0, 0, 0;
      protectionFlags, fetStatus, balancingStatus, timestamp := 0, 0, 0, 0;
      uartCounter := 0;
      tx := [];
      passes := 0;
      new;
      assert cellVoltages[..] == ZeroSnapshot.cellVoltages;
      assert temperatures[..] == ZeroSnapshot.temperatures;
    }

    /** `UART_SendChar`: waits for the transmit buffer (not modelled) and writes one byte. */
    method SendChar(c: char)
      modifies this`tx
      ensures tx == old(tx) + [c]
    {
      tx := tx + [c];
    }

    /** `UART_SendString`: writes the characters before the terminating NUL. */
    method SendString(str: string)
      modifies this`tx
      ensures tx == old(tx) + CString(str)
    {
      var i := 0;
      while i < |str| && str[i] != '\0'
        invariant 0 <= i <= |str|
        invariant tx == old(tx) + str[..i]
        invariant NoNul(str[..i])
      {
        SendChar(str[i]);
        assert str[..i + 1] == str[..i] + [str[i]];
        i := i + 1;
      }
      CStringUpTo(str, i);
    }

    /** `UART_Printf`, given what the format and arguments expand to. */
    method Printf(text: string)
      modifies this`tx
      ensures tx == old(tx) + CString(Formatted(text))
    {
      var buffer := Formatted(text);
      SendString(buffer);
    }

    /** `UART_SendBMSData`: writes the report of the record, line by line. */
    method SendBMSData()
      requires Sized() && numCells as int <= CELL_CAPACITY
      modifies this`tx
      ensures tx == old(tx) + Transcript(ReportLines(old(Shared())))
    {
      ghost var s := Shared();
      SendHead();
      ghost var afterHead := tx;
      SendCells();
      ghost var afterCells := tx;
      SendString(CRLF + SENSOR_HEADER + CRLF);
      MiddleJoin(afterCells, tx);
      ghost var afterMiddle := tx;
      SendSensors();
      ReportJoin(old(tx), HeadLines(s), CellLines(s), MIDDLE_LINES, SensorLines(s),
        afterHead, afterCells, afterMiddle, tx);
    }

    /** The value lines of `UART_SendBMSData`, then the blank line and the cell header. */
    method SendHead()
      requires Sized()
      modifies this`tx
      ensures tx == old(tx) + Transcript(HeadLines(old(Shared())))
    {
      ghost var s := Shared();
      ghost var t0 := tx;
      Printf(SocLine(soc) + CRLF);
      ghost var t1 := tx;
      Printf(PackLine(packVoltage) + CRLF);
      ghost var t2 := tx;
      Printf(CurrentLine(current) + CRLF);
      ghost var t3 := tx;
      SendString(CRLF + CELL_HEADER + CRLF);
      HeadJoin(s, t0, t1, t2, t3, tx);
    }

    /** The cell loop of `UART_SendBMSData`: one line per cell, marked when it is balancing. */
    method SendCells()
      requires Sized() && numCells as int <= CELL_CAPACITY
      modifies this`tx
      ensures tx == old(tx) + Transcript(CellLines(old(Shared())))
    {
      ghost var s := Shared();
      for i := 0 to numCells
        invariant tx == old(tx) + Transcript(CellLines(s)[..i])
      {
        assert cellVoltages[i] == s.cellVoltages[i] && balancingStatus == s.balancingStatus;
        ghost var t0 := tx;
        Printf(CellText(i, cellVoltages[i]));
        ghost var t1 := tx;
        if Bit16(balancingStatus, i) {
          SendString(BAL_MARK);
        }
        ghost var t2 := tx;
        SendString(CRLF);
        CellStep(s, i, old(tx), t0, t1, t2, tx);
      }
      WholePrefix(CellLines(s));
    }

    /** The sensor loop of `UART_SendBMSData`: one line per temperature sensor. */
    method SendSensors()
      requires Sized()
      modifies this`tx
      ensures tx == old(tx) + Transcript(SensorLines(old(Shared())))
    {
      ghost var s := Shared();
      ghost var sensors := SensorLines(s);
      for j := 0 to SENSOR_COUNT
        invariant tx == old(tx) + Transcript(sensors[..j])
      {
        ghost var t0 := tx;
        Printf(SensorLine(j, temperatures[j]) + CRLF);
        SensorStep(s, j, t0, tx);
        ExtendPrefix(old(tx), sensors, j, t0, tx);
      }
      WholePrefix(sensors);
    }

    /** `UpdateSharedData`: copies a reading into the record field by field. */
    method UpdateSharedData(r: Reading)
      requires Sized()
      modifies cellVoltages, temperatures
      modifies this`packVoltage, this`current, this`soc, this`numCells
      modifies this`protectionFlags, this`fetStatus, this`balancingStatus
      ensures Shared() == Updated(old(Shared()), r)
    {
      forall i | 0 <= i < CELL_CAPACITY {
        cellVoltages[i] := r.cellVoltages[i];
      }
      packVoltage := r.stackVoltage;
      current := r.current;
      forall i | 0 <= i < SENSOR_COUNT {
        temperatures[i] := r.temperatures[i];
      }
      soc := r.soc;
      numCells := r.numCells;

      StoreProtection(r.protectionStatus);
      StoreFet(r.fetStatus);
      balancingStatus := r.balancingCells;
      assert cellVoltages[..] == r.cellVoltages;
      assert temperatures[..] == r.temperatures;
      UpdatedByFields(old(Shared()), r, Shared());
    }

    /** The `protectionFlags` part of `UpdateSharedData`: one `|=` per protection bit. */
    method StoreProtection(p: ProtectionStatus)
      modifies this`protectionFlags
      ensures protectionFlags == PackProtection(p)
    {
      protectionFlags := 0;
      protectionFlags := protectionFlags | (BoolBit(p.overvoltage) << 0);
      protectionFlags := protectionFlags | (BoolBit(p.undervoltage) << 1);
      protectionFlags := protectionFlags | (BoolBit(p.overcurrentCharge) << 2);
      protectionFlags := protectionFlags | (BoolBit(p.overcurrentDischarge) << 3);
      protectionFlags := protectionFlags | (BoolBit(p.overtemperature) << 4);
      protectionFlags := protectionFlags | (BoolBit(p.undertemperature) << 5);
      protectionFlags := protectionFlags | (BoolBit(p.shortCircuit) << 6);
    }

    /** The `fetStatus` part of `UpdateSharedData`. */
    method StoreFet(f: FetState)
      modifies this`fetStatus
      ensures fetStatus == PackFet(f)
    {
      fetStatus := 0;
      fetStatus := fetStatus | (BoolBit(f.chargeFET) << 0);
      fetStatus := fetStatus | (BoolBit(f.dischargeFET) << 1);
    }

    /**
     * One pass of the main loop, from the reading `BQ76952_UpdateAll` produced:
     * the record is updated, and on every tenth pass the report is written.
     */
    method Cycle(r: Reading) returns (published: bool)
      requires Valid() && (Step(uartCounter).publish ==> r.numCells as int <= CELL_CAPACITY)
      modifies cellVoltages, temperatures
      modifies this`packVoltage, this`current, this`soc, this`numCells
      modifies this`protectionFlags, this`fetStatus, this`balancingStatus
      modifies this`uartCounter, this`passes, this`tx
      ensures Valid() && passes == old(passes) + 1
      ensures Shared() == Updated(old(Shared()), r)
      ensures published == PublishesOn(passes)
      ensures tx == old(tx) + (if published then Transcript(ReportLines(Shared())) else [])
    {
      UpdateSharedData(r);
      ghost var updated := Shared();
      ghost var tick := Step(uartCounter);
      uartCounter := (uartCounter + 1) % 0x1_0000;
      published := false;
      if uartCounter >= PUBLISH_PERIOD {
        uartCounter := 0;
        SendBMSData();
        published := true;
      } else {
        assert tx == old(tx) + [];
      }
      passes := passes + 1;
      assert uartCounter == tick.counter && published == tick.publish;
      assert Shared() == updated;
    }
  }

  /**
   * The readings of a run that the report reads cells of: only the reading of
   * a publishing pass (every tenth) needs at most `CELL_CAPACITY` cells.
   */
  predicate PublishSafe(rs: seq<Reading>) {
    forall k :: 0 <= k < |rs| && (k + 1) % PUBLISH_PERIOD == 0 ==> rs[k].numCells as int <= CELL_CAPACITY
  }

  /** The record after one pass per reading of `rs`, starting from `s0`. */
  function After(s0: Snapshot, rs: seq<Reading>): Snapshot
  {
    if rs == [] then s0 else Updated(After(s0, rs[..|rs| - 1]), rs[|rs| - 1])
  }

  /** The UART stream that the passes of `rs` write from reset: a report on every tenth pass. */
  function Sent(s0: Snapshot, rs: seq<Reading>): string
    requires PublishSafe(rs)
  {
    if rs == [] then []
    else
      var prefix := rs[..|rs| - 1];
      assert PublishSafe(prefix) by {
        forall k | 0 <= k < |prefix| && (k + 1) % PUBLISH_PERIOD == 0
          ensures prefix[k].numCells as int <= CELL_CAPACITY
        {
          assert prefix[k] == rs[k];
        }
      }
      PublishesExactlyEveryTenth(|rs|);
      Sent(s0, prefix) + (if PublishesOn(|rs|) then Transcript(ReportLines(After(s0, rs))) else [])
  }

  /** No pass changes the timestamp. */
  lemma {:induction false} AfterKeepsTimestamp(s0: Snapshot, rs: seq<Reading>)
    ensures After(s0, rs).timestamp == s0.timestamp
  {
    if rs != [] {
      AfterKeepsTimestamp(s0, rs[..|rs| - 1]);
    }
  }

  /** After a run the record is what the last reading alone makes of the record at reset. */
  lemma {:induction false} AfterIsLastReading(s0: Snapshot, rs: seq<Reading>)
    requires |rs| >= 1
    ensures After(s0, rs) == Updated(s0, rs[|rs| - 1])
  {
    var prefix := rs[..|rs| - 1];
    AfterKeepsTimestamp(s0, prefix);
    UpdatedForgetsPrevious(After(s0, prefix), s0, rs[|rs| - 1]);
  }

  /** The first nine passes write nothing to the UART. */
  lemma {:induction false} NothingSentBeforeTenth(s0: Snapshot, rs: seq<Reading>)
    requires |rs| < PUBLISH_PERIOD
    ensures Sent(s0, rs) == []
  {
    if rs != [] {
      NothingSentBeforeTenth(s0, rs[..|rs| - 1]);
      NoPublishBeforeTenth(|rs|);
    }
  }

  /**
   * The `while (1)` loop of `main`, for as many passes as there are readings,
   * from reset: pass `k` takes `readings[k]` from the driver.  Returns how many
   * passes wrote the report.
   */
  method MainLoop(c: Controller, readings: seq<Reading>) returns (reports: nat)
    requires c.Valid() && c.passes == 0
    requires PublishSafe(readings)
    modifies c, c.cellVoltages, c.temperatures
    ensures c.Valid() && c.passes == |readings|
    ensures c.Shared() == After(old(c.Shared()), readings)
    ensures c.tx == old(c.tx) + Sent(old(c.Shared()), readings)
    ensures reports == |readings| / PUBLISH_PERIOD
  {
    ghost var s0, t0 := c.Shared(), c.tx;
    reports := 0;
    for k := 0 to |readings|
      invariant c.Valid() && c.passes == k
      invariant PublishSafe(readings[..k])
      invariant c.Shared() == After(s0, readings[..k])
      invariant c.tx == t0 + Sent(s0, readings[..k])
      invariant reports == Publications(k)
    {
      PublishesExactlyEveryTenth(k + 1);
      ghost var before := c.tx;
      var published := c.Cycle(readings[k]);
      PassRecorded(s0, readings, k, t0, before, c.tx, published, c.Shared());
      if published {
        reports := reports + 1;
      }
    }
    assert readings[..|readings|] == readings;
    PublicationsCount(|readings|);
  }

  /** One more pass of the loop extends the record and the stream by that pass. */
  lemma PassRecorded(s0: Snapshot, rs: seq<Reading>, k: nat, t0: string, before: string, after: string,
                     published: bool, record: Snapshot)
    requires k < |rs| && PublishSafe(rs) && PublishSafe(rs[..k])
    requires before == t0 + Sent(s0, rs[..k])
    requires published == PublishesOn(k + 1)
    requires record == Updated(After(s0, rs[..k]), rs[k])
    requires published ==> record.numCells as int <= CELL_CAPACITY
    requires after == before + (if published then Transcript(ReportLines(record)) else [])
    ensures PublishSafe(rs[..k + 1])
    ensures record == After(s0, rs[..k + 1])
    ensures after == t0 + Sent(s0, rs[..k + 1])
  {
    var next := rs[..k + 1];
    assert next[..k] == rs[..k] && next[k] == rs[k];
    assert PublishSafe(next) by {
      forall j | 0 <= j < |next| && (j + 1) % PUBLISH_PERIOD == 0
        ensures next[j].numCells as int <= CELL_CAPACITY
      {
        assert next[j] == rs[j];
      }
    }
    Assoc(t0, Sent(s0, rs[..k]), if published then Transcript(ReportLines(record)) else []);
  }

  /** A record whose every field holds what `UpdateSharedData` stores is the updated record. */
  lemma UpdatedByFields(prev: Snapshot, r: Reading, s: Snapshot)
    requires s.cellVoltages == r.cellVoltages && s.temperatures == r.temperatures
    requires s.packVoltage == r.stackVoltage && s.current == r.current
    requires s.soc == r.soc && s.numCells == r.numCells
    requires s.protectionFlags == PackProtection(r.protectionStatus)
    requires s.fetStatus == PackFet(r.fetStatus)
    requires s.balancingStatus == r.balancingCells && s.timestamp == prev.timestamp
    ensures s == Updated(prev, r)
  {
  }

  lemma {:induction false} CStringUpTo(s: string, i: nat)
    requires i <= |s| && NoNul(s[..i]) && (i < |s| ==> s[i] == '\0')
    ensures CString(s) == s[..i]
  {
    if i > 0 {
      assert s[0] == s[..i][0];
      assert s[1..][..i - 1] == s[..i][1..];
      CStringUpTo(s[1..], i - 1);
    }
  }

  /** Adding one line and its CR LF to a transcript. */
  lemma Extend(start: string, done: seq<string>, l: string, mid: string, after: string)
    requires mid == start + Transcript(done) && after == mid + (l + CRLF)
    ensures after == start + Transcript(done + [l])
  {
    TranscriptSnoc(done, l);
    Assoc(start, Transcript(done), l + CRLF);
  }

  /** One more line of `lines` written after those before it. */
  lemma ExtendPrefix(start: string, lines: seq<string>, i: nat, mid: string, after: string)
    requires i < |lines|
    requires mid == start + Transcript(lines[..i]) && after == mid + (lines[i] + CRLF)
    ensures after == start + Transcript(lines[..i + 1])
  {
    assert lines[..i + 1] == lines[..i] + [lines[i]];
    Extend(start, lines[..i], lines[i], mid, after);
  }

  lemma WholePrefix(lines: seq<string>)
    ensures lines[..|lines|] == lines
  {
  }

  /** A blank line followed by `h`, written as the one string CR LF, `h`, CR LF. */
  lemma BlankThen(h: string)
    ensures Transcript(["", h]) == CRLF + h + CRLF
  {
    var t := ["", h];
    assert [h][1..] == [];
    assert Transcript([h]) == h + CRLF + "" == h + CRLF;
    assert t[0] == "" && t[1..] == [h];
    assert Transcript(t) == "" + CRLF + Transcript([h]);
    assert "" + CRLF == CRLF;
    Assoc(CRLF, h, CRLF);
  }

  /** A line that fits the buffer and holds no NUL reaches the wire from `UART_Printf` whole. */
  lemma Printed(l: string)
    requires LineText(l) && |l + CRLF| < PRINTF_BUFFER
    ensures CString(Formatted(l + CRLF)) == l + CRLF
  {
    LineNoNul(l);
    PrintfKeeps(l + CRLF);
  }

  /** The first five lines: three formatted values, then the blank line and header written as one string. */
  lemma HeadJoin(s: Snapshot, t0: string, t1: string, t2: string, t3: string, t4: string)
    requires t1 == t0 + CString(Formatted(SocLine(s.soc) + CRLF))
    requires t2 == t1 + CString(Formatted(PackLine(s.packVoltage) + CRLF))
    requires t3 == t2 + CString(Formatted(CurrentLine(s.current) + CRLF))
    requires t4 == t3 + CString(CRLF + CELL_HEADER + CRLF)
    ensures t4 == t0 + Transcript(HeadLines(s))
  {
    PrintfTextsFit(s, 0, 0);
    SocLineIsLineText(s.soc);
    PackLineIsLineText(s.packVoltage);
    CurrentLineIsLineText(s.current);
    Printed(SocLine(s.soc));
    Printed(PackLine(s.packVoltage));
    Printed(CurrentLine(s.current));
    HeadShapeJoin(SocLine(s.soc), PackLine(s.packVoltage), CurrentLine(s.current),
      CELL_HEADER, t0, t1, t2, t3, t4);
  }

  /** One pass of the sensor loop writes the line of sensor `j` and its CR LF. */
  lemma SensorStep(s: Snapshot, j: nat, before: string, after: string)
    requires j < SENSOR_COUNT
    requires after == before + CString(Formatted(SensorLine(j, s.temperatures[j]) + CRLF))
    ensures after == before + (SensorLines(s)[j] + CRLF)
  {
    PrintfTextsFit(s, 0, j);
    SensorLineIsLineText(j, s.temperatures[j]);
    Printed(SensorLine(j, s.temperatures[j]));
  }

  lemma HeadShapeJoin(a: string, b: string, c: string, h: string,
                      t0: string, t1: string, t2: string, t3: string, t4: string)
    requires h == CELL_HEADER
    requires t1 == t0 + (a + CRLF) && t2 == t1 + (b + CRLF) && t3 == t2 + (c + CRLF)
    requires t4 == t3 + CString(CRLF + h + CRLF)
    ensures t4 == t0 + Transcript([a, b, c, "", h])
  {
    HeaderPlain(CRLF + h + CRLF);
    Extend(t0, [], a, t0, t1);
    Extend(t0, [a], b, t1, t2);
    Extend(t0, [a, b], c, t2, t3);
    BlankThen(h);
    TranscriptAppend([a, b, c], ["", h]);
    Assoc(t0, Transcript([a, b, c]), Transcript(["", h]));
    assert [] + [a] == [a] && [a] + [b] == [a, b] && [a, b] + [c] == [a, b, c];
    assert [a, b, c] + ["", h] == [a, b, c, "", h];
  }

  /** The two header strings the report writes with `UART_SendString` hold no NUL. */
  lemma HeaderPlain(text: string)
    requires text == CRLF + CELL_HEADER + CRLF || text == CRLF + SENSOR_HEADER + CRLF
    ensures CString(text) == text
  {
    assert NoNul(text);
    CStringWhole(text);
  }

  /** The blank line and the sensor header, written as one string. */
  lemma MiddleJoin(before: string, after: string)
    requires after == before + CString(CRLF + SENSOR_HEADER + CRLF)
    ensures after == before + Transcript(MIDDLE_LINES)
  {
    HeaderPlain(CRLF + SENSOR_HEADER + CRLF);
    BlankThen(SENSOR_HEADER);
  }

  /** The four stages of the report joined into one transcript. */
  lemma ReportJoin(start: string, a: seq<string>, b: seq<string>, c: seq<string>, d: seq<string>,
                   ta: string, tb: string, tc: string, td: string)
    requires ta == start + Transcript(a) && tb == ta + Transcript(b)
    requires tc == tb + Transcript(c) && td == tc + Transcript(d)
    ensures td == start + Transcript(a + b + c + d)
  {
    var x, y, z, w := Transcript(a), Transcript(b), Transcript(c), Transcript(d);
    TranscriptAppend(a, b);
    TranscriptAppend(a + b, c);
    TranscriptAppend(a + b + c, d);
    Assoc(start, x, y);
    Assoc(start, x + y, z);
    Assoc(start, x + y + z, w);
  }

  lemma Assoc(a: string, b: string, c: string)
    ensures a + b + c == a + (b + c)
  {
  }

  /** One pass of the cell loop writes the line of cell `i` and its CR LF. */
  lemma CellStep(s: Snapshot, i: nat, start: string, t0: string, t1: string, t2: string, t3: string)
    requires i < s.numCells as int <= CELL_CAPACITY
    requires t0 == start + Transcript(CellLines(s)[..i])
    requires t1 == t0 + CString(Formatted(CellText(i, s.cellVoltages[i])))
    requires Balancing(s, i) ==> t2 == t1 + CString(BAL_MARK)
    requires !Balancing(s, i) ==> t2 == t1
    requires t3 == t2 + CString(CRLF)
    ensures t3 == start + Transcript(CellLines(s)[..i + 1])
  {
    CellPass(s, i, t0, t1, t2, t3);
    ExtendPrefix(start, CellLines(s), i, t0, t3);
  }

  /** The characters one pass of the cell loop writes: the line of cell `i` and its CR LF. */
  lemma CellPass(s: Snapshot, i: nat, t0: string, t1: string, t2: string, t3: string)
    requires i < s.numCells as int <= CELL_CAPACITY
    requires t1 == t0 + CString(Formatted(CellText(i, s.cellVoltages[i])))
    requires Balancing(s, i) ==> t2 == t1 + CString(BAL_MARK)
    requires !Balancing(s, i) ==> t2 == t1
    requires t3 == t2 + CString(CRLF)
    ensures t3 == t0 + (CellLines(s)[i] + CRLF)
  {
    var text := CellText(i, s.cellVoltages[i]);
    PrintfTextsFit(s, i, 0);
    CellTextIsLineText(i, s.cellVoltages[i]);
    LineNoNul(text);
    PrintfKeeps(text);
    MarkPlain(BAL_MARK);
    MarkPlain(CRLF);
    PassJoin(text, BAL_MARK, Balancing(s, i), t0, t1, t2, t3);
  }

  lemma PassJoin(text: string, mark: string, marked: bool, t0: string, t1: string, t2: string, t3: string)
    requires t1 == t0 + text
    requires marked ==> t2 == t1 + mark
    requires !marked ==> t2 == t1
    requires t3 == t2 + CRLF
    ensures t3 == t0 + (text + (if marked then mark else "") + CRLF)
  {
    var m := if marked then mark else "";
    assert t2 == t1 + m;
    Assoc(t0, text, m);
    Assoc(t0, text + m, CRLF);
  }

  lemma MarkPlain(text: string)
    requires text == BAL_MARK || text == CRLF
    ensures CString(text) == text
  {
    assert NoNul(text);
    CStringWhole(text);
  }
}
