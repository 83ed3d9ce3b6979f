# MSP430 battery-management telemetry firmware, modelled in Dafny

`Firmware/MSP430.c` is the firmware of an MSP430 microcontroller that sits beside a
BQ76952 battery monitor. Each pass of its main loop does three things:

1. It takes a reading from the monitor's driver.
2. `UpdateSharedData` copies the reading into the global record `sharedData`. It packs the
   seven protection booleans into `protectionFlags` and the two FET booleans into `fetStatus`.
3. On every tenth pass, as counted by the static `uartCounter`, `UART_SendBMSData` writes a
   fixed-point text report of the record to the UART. It does so through `UART_Printf`,
   `UART_SendString` and `UART_SendChar`.

The file also holds the two I2C master transactions, `I2C_Write` and `I2C_Read`, on the
USCI_B0 controller.

The model's modules are:

- `CInt`:
  - the C integer widths (`u8`, `u16`, `u32`, `i16`, `i32`);
  - `abs`;
  - C's division, which truncates toward zero (Dafny's `/` is Euclidean).
- `Decimal`: the `vsnprintf` conversions the format strings use (`%d`, `%ld`, `%03d`, `%2d`),
  and decoders that read them back.
- `BmsData`:
  - the driver reading (`Reading`) and the record (`Snapshot`, the value of `SharedBMSData_t`);
  - the bit packing of the flags;
  - `Updated`, the record that `UpdateSharedData` leaves behind.
- `Report`:
  - the report as a pure formatter, one function per line;
  - the byte stream, in which every line ends with CR LF;
  - decoders for the report, with round-trip, layout, count and marker theorems.
- `Throttle`: the 16-bit `uartCounter` step, the counter after `k` passes, and when a pass publishes.
- `I2C`:
  - the transactions as traces of peripheral events; each busy-wait is one event;
  - a phase automaton for the framing of UM10204, the NXP I2C-bus specification: START and STOP
    (section 3.1.4) and the repeated START (section 3.1.10);
  - `class Master`, whose `Write` and `Read` append to the event trace. `Read` fills `data[]`
    in place.
- `Firmware`: `class Controller`, which holds:
  - the fields of `sharedData`;
  - `uartCounter`;
  - the characters written to `UCA0TXBUF`, which is the UART's transmit register.

  Its methods are the C functions:
  - `SendChar`, `SendString` and `Printf`;
  - `SendBMSData`, whose two `for` loops are the methods `SendCells` and `SendSensors`;
  - `UpdateSharedData`;
  - `Cycle`, one pass of `while (1)`;
  - and beside the class, `MainLoop`, which runs many passes.

Each method states the new transmit stream or record as a function of the old state: the
`Report` transcript, or `Updated`. The theorems about those functions are in `Report`,
`BmsData` and `Throttle`.

The code was followed in these places:

- **The temperature sign.** The rendering of temperatures in (-1.0, 0) degC drops the sign:
  `-5` tenths prints as `0.5`. This is modelled as written (`Report.TemperatureSignLost`), and
  `Report.Shown` records what the report shows.
- **The degree sign.** In the file the degree sign is stored UTF-8 encoded twice, as the bytes
  C3 82 C2 B0. Those bytes plus `C` are what is sent (`Report.DEGREES`). In the model each
  character of the stream is one byte.

## Model

| member | source | states |
|---|---|---|
| CInt.CDiv | Firmware/MSP430.c:120-126 | C division, truncating toward zero: `q * b + r == a`, with the remainder having the dividend's sign and being smaller than the divisor |
| CInt.CDivDiffersFromEuclid | Firmware/MSP430.c:125 | an example, not a model of the line: for the quotients that line computes, C's `-1500 / 1000` is `-1` where Euclidean division gives `-2`, and C's `-5 / 10` is `0` where Euclidean division gives `-1` |
| CInt.Abs | Firmware/MSP430.c:126 | `abs(x)` is non-negative and equals `x` or `-x` |
| CInt.DivBounds | Firmware/MSP430.c:130-132 | a helper of `CDiv` about Dafny's own division, not a model of the line: for a non-negative dividend and a positive divisor, the quotient is non-negative and the remainder lies below the divisor |
| Decimal.NatText | Firmware/MSP430.c:119 | `%d` of a non-negative value: non-empty decimal digits that denote the value, with no leading zero |
| Decimal.IntText | Firmware/MSP430.c:119 | `%d`/`%ld`: the text starts with `-` exactly when the value is negative |
| Decimal.Zero3 | Firmware/MSP430.c:120-122 | `%03d` of a value below 1000: exactly three digits that denote the value |
| Decimal.DecodeNatText | Firmware/MSP430.c:119 | reading `%d` text back gives the value |
| Decimal.DecodeIntText | Firmware/MSP430.c:123-126 | reading signed `%ld` text back gives the value |
| Decimal.Width2RoundTrip | Firmware/MSP430.c:130 | `%2d` of a cell number from 1 to 99 is two columns, and reads back as the number once the padding is dropped |
| Decimal.LeadingZeros | Firmware/MSP430.c:120-122 | zero padding does not change the number a digit string denotes |
| BmsData.BoolBit | Firmware/MSP430.c:159-170 | a C `bool` shifted into a flag byte is 1 exactly when true, and 0 otherwise |
| BmsData.PackProtection | Firmware/MSP430.c:158-165 | bit `i` of `protectionFlags` is the `i`-th protection flag (overvoltage, undervoltage, OC charge, OC discharge, overtemperature, undertemperature, short circuit), and bit 7 is clear |
| BmsData.PackFet | Firmware/MSP430.c:168-170 | bit 0 of `fetStatus` is the charge FET, bit 1 is the discharge FET, and bits 2-7 are clear |
| BmsData.UnpackPackProtection | Firmware/MSP430.c:158-165 | the protection flags can be read back from the packed byte |
| BmsData.PackUnpackProtection | Firmware/MSP430.c:158-165 | a byte with bit 7 clear is the packing of the flags it holds |
| BmsData.UnpackPackFet | Firmware/MSP430.c:168-170 | the FET states can be read back from the packed byte |
| BmsData.PackUnpackFet | Firmware/MSP430.c:168-170 | a byte with bits 2-7 clear is the packing of the FET states it holds |
| BmsData.Updated | Firmware/MSP430.c:148-174 | after the update: cell voltages, temperatures, pack voltage (from `stackVoltage`), current, SOC, cell count and balancing bits (from `balancingCells`) are the reading's; the two flag bytes decode to the reading's booleans with their spare bits clear; the timestamp is unchanged |
| BmsData.UpdatedForgetsPrevious | Firmware/MSP430.c:148-174 | the previous record survives an update only in its timestamp, since the flag bytes are cleared first |
| BmsData.UpdatedIdempotent | Firmware/MSP430.c:148-174 | applying the same reading twice gives the same record as applying it once |
| Report.MillisRoundTrip | Firmware/MSP430.c:120-122 | a millivolt value renders as `W.FFF`, with exactly three fraction digits, and reads back as itself |
| Report.CurrentTextCases | Firmware/MSP430.c:123-126 | the current renders as `+` then the magnitude when >= 0, as `-` then the magnitude when <= -1000, and as the bare magnitude in between |
| Report.CurrentSign | Firmware/MSP430.c:123-126 | the current text starts with `+` exactly when current >= 0, and with `-` exactly when current <= -1000 |
| Report.CurrentRoundTrip | Firmware/MSP430.c:123-126 | the current text reads back as the current: a missing `+` means negative |
| Report.TenthsTextCases | Firmware/MSP430.c:140-144 | a temperature renders as its magnitude `D.F` when >= 0, as `-` then the magnitude when <= -1.0 degC, and as the bare magnitude in between |
| Report.TemperatureRoundTrip | Firmware/MSP430.c:140-144 | a temperature reads back as itself, except that one in (-1.0, 0) degC reads back negated |
| Report.TemperatureSignLost | Firmware/MSP430.c:141-143 | a temperature in (-1.0, 0) degC prints the same text as its negation |
| Report.SocLineRoundTrip | Firmware/MSP430.c:119 | the SOC line reads back as the SOC |
| Report.PackLineRoundTrip | Firmware/MSP430.c:120-122 | the pack-voltage line reads back as the pack voltage |
| Report.CurrentLineRoundTrip | Firmware/MSP430.c:123-126 | the current line reads back as the current |
| Report.CellLineRoundTrip | Firmware/MSP430.c:130-136 | cell line `i` reads back as cell number `i + 1`, its voltage, and whether it carries the marker |
| Report.SensorLineRoundTrip | Firmware/MSP430.c:140-144 | sensor line `j` reads back as sensor number `j + 1` and its shown temperature |
| Report.MarkerSeparates | Firmware/MSP430.c:130-135 | a cell line ends with ` [BAL]` exactly when the marker was written, and the text before it is the formatted cell |
| Report.ReportLayout | Firmware/MSP430.c:119-144 | the report's lines in order: SOC, pack, current, a blank line, "Cell Voltages:", the `numCells` cell lines, a blank line, "Temperatures:", then the 4 sensor lines |
| Report.ReportRoundTrip | Firmware/MSP430.c:118-146 | decoding the report's lines gives what it shows of the record: SOC, pack voltage, current, each cell's number, voltage and balancing bit, and each sensor's number and shown temperature |
| Report.ReportCounts | Firmware/MSP430.c:129-144 | the report has `numCells + 11` lines: exactly `numCells` cell lines and exactly 4 sensor lines, whatever `numCells` is |
| Report.MarkerExactlyWhenBalancing | Firmware/MSP430.c:129-137 | a report line ends with ` [BAL]` exactly when it is the line of cell `i` and bit `i` of `balancingStatus` is set |
| Report.HighBalancingBitsIgnored | Firmware/MSP430.c:129-137 | balancing bits at or above `numCells` do not change the report |
| Report.ReportDeterminesShown | Firmware/MSP430.c:118-146 | two records with the same report agree on SOC, pack voltage, current, cell count, each shown cell and balancing bit, and each shown temperature |
| Report.ReportLinesAreLineText | Firmware/MSP430.c:118-146 | no report line holds a NUL or a CR, so CR LF delimits the lines on the wire |
| Report.SplitTranscript | Firmware/MSP430.c:118-146 | splitting the byte stream at CR LF gives back the lines |
| Report.StreamRoundTrip | Firmware/MSP430.c:118-146 | a receiver that splits the UART stream at CR LF and decodes it recovers what the report shows of the record |
| Report.PrintfTextsFit | Firmware/MSP430.c:109-116 | every text passed to `UART_Printf` fits the 128-byte buffer with its NUL |
| Report.SocExample | Firmware/MSP430.c:119 | SOC 76 prints as `SOC: 76%` |
| Report.PackExample | Firmware/MSP430.c:120-122 | 13205 mV prints as `Pack Voltage: 13.205V` |
| Report.CurrentExample | Firmware/MSP430.c:123-126 | -1500 mA prints as `Current: -1.500A` |
| Report.SmallDischargeExample | Firmware/MSP430.c:123-126 | -500 mA prints as `Current: 0.500A`, with no sign |
| Report.CellExample | Firmware/MSP430.c:130-135 | cell index 1 at 3310 mV, balancing, prints as `  Cell  2: 3.310V [BAL]` |
| Report.SensorExamples | Firmware/MSP430.c:140-144 | 253 and -5 tenths print as `  Sensor 1: 25.3` and `  Sensor 1: 0.5`, each followed by the degree bytes |
| Throttle.Step | Firmware/MSP430.c:202-206 | from a counter below 10, the new counter stays below 10; the pass publishes exactly when the counter was 9; otherwise the counter goes up by one; a publishing pass resets it to 0 |
| Throttle.CounterAfter | Firmware/MSP430.c:202-206 | the counter is in 0..9 after every pass |
| Throttle.CounterIsRemainder | Firmware/MSP430.c:202-206 | after `k` passes the counter is `k % 10` |
| Throttle.PublishesExactlyEveryTenth | Firmware/MSP430.c:202-206 | pass `k` (from 1) sends the report exactly when `k` is a multiple of 10 |
| Throttle.NoPublishBeforeTenth | Firmware/MSP430.c:202-206 | none of the first nine passes sends the report |
| Throttle.PublicationsCount | Firmware/MSP430.c:202-206 | after `n` passes the report has been sent `n / 10` times |
| I2C.WriteTraceCarries | Firmware/MSP430.c:47-60 | a write sends exactly `data`, reads nothing, issues exactly one STOP, and ends with the STOP-clear wait and the STOP; its trace has `2 * length + 4` events |
| I2C.EmptyWrite | Firmware/MSP430.c:47-60 | a write of no bytes is address, START, wait and STOP |
| I2C.PreambleCarries | Firmware/MSP430.c:63-72 | the register phase of a read sends only the register number, and issues no STOP |
| I2C.ReadTraceCarries | Firmware/MSP430.c:62-83 | a read sends only the register number and receives exactly the slave's bytes, in order; it issues one STOP when it reads any byte and none otherwise |
| I2C.StopBeforeLastByte | Firmware/MSP430.c:74-80 | when at least one byte is read, the STOP comes immediately before the wait for the last byte |
| I2C.WriteIsFramed | Firmware/MSP430.c:47-60 | every write is a complete transaction under the START/STOP automaton |
| I2C.ReadIsFramed | Firmware/MSP430.c:62-83 | a read of one byte or more is a complete transaction with a repeated START; a read of zero bytes leaves the bus receiving, with no STOP |
| I2C.Master.constructor | Firmware/MSP430.c:34-45 | after `MSP430_I2C_Master_Init` no event has happened on the bus |
| I2C.Master.Write | Firmware/MSP430.c:47-60 | returns true, and appends exactly `WriteTrace(addr, data[0..length))` to the bus |
| I2C.Master.SelectRegister | Firmware/MSP430.c:64-72 | appends the address, START, register byte and turn-around events of a read |
| I2C.Master.Read | Firmware/MSP430.c:62-83 | returns true; `data[0..length)` holds the received bytes in order and the rest of `data` is untouched; the bus gets exactly `ReadTrace(addr, reg, rx)` |
| Firmware.CStringPrefix | Firmware/MSP430.c:103-107 | a C string is the prefix of its buffer before the first NUL: it holds no NUL, and if it is shorter than the buffer, a NUL follows it |
| Firmware.FormattedPrefix | Firmware/MSP430.c:109-116 | `vsnprintf` into the 128-byte buffer keeps a prefix of at most 127 characters, and keeps text that fits whole |
| Firmware.CStringWhole | Firmware/MSP430.c:103-107 | text without a NUL is sent whole by `UART_SendString` |
| Firmware.PrintfKeeps | Firmware/MSP430.c:109-116 | a text of at most 127 characters without a NUL reaches the wire from `UART_Printf` unchanged |
| Firmware.Controller.constructor | Firmware/MSP430.c:14-28 | the record starts as `sharedData = {0}`, the counter at 0, and nothing has been sent |
| Firmware.Controller.SendChar | Firmware/MSP430.c:98-101 | exactly one character is appended to the stream |
| Firmware.Controller.SendString | Firmware/MSP430.c:103-107 | the stream grows by the characters of `str` before its first NUL |
| Firmware.Controller.Printf | Firmware/MSP430.c:109-116 | the stream grows by the C string that `vsnprintf` left in the buffer |
| Firmware.Controller.SendBMSData | Firmware/MSP430.c:118-146 | the stream grows by exactly the transcript of `ReportLines` of the record, each line followed by CR LF |
| Firmware.Controller.SendHead | Firmware/MSP430.c:119-128 | the stream grows by the SOC, pack and current lines, the blank line and the cell header |
| Firmware.Controller.SendCells | Firmware/MSP430.c:129-137 | the stream grows by the `numCells` cell lines, each marked when its balancing bit is set |
| Firmware.Controller.SendSensors | Firmware/MSP430.c:140-144 | the stream grows by the four sensor lines |
| Firmware.Controller.UpdateSharedData | Firmware/MSP430.c:148-174 | the record becomes `Updated(old record, reading)` |
| Firmware.Controller.StoreProtection | Firmware/MSP430.c:158-165 | the successive `|=` leave `protectionFlags` holding the packed protection flags |
| Firmware.Controller.StoreFet | Firmware/MSP430.c:168-170 | the successive `|=` leave `fetStatus` holding the packed FET states |
| Firmware.Controller.Cycle | Firmware/MSP430.c:194-209 | one pass: the record is updated from the reading; the counter stays equal to `CounterAfter(passes)`; the pass publishes exactly when `PublishesOn(passes)`; the stream grows by the report of the updated record exactly on a publishing pass, and is unchanged otherwise. Only on a publishing pass must the reading have at most 16 cells |
| Firmware.AfterKeepsTimestamp | Firmware/MSP430.c:148-174 | no number of passes changes the record's timestamp |
| Firmware.AfterIsLastReading | Firmware/MSP430.c:194-200 | after one or more passes, the record is what the last reading alone makes of the record at the start |
| Firmware.NothingSentBeforeTenth | Firmware/MSP430.c:202-206 | the first nine passes write nothing to the UART |
| Firmware.MainLoop | Firmware/MSP430.c:194-209 | from reset, after one pass per reading: the record is `After` (the update folded over the readings); the stream has grown by exactly `Sent`, which is the report of the record after each tenth pass, in order; the report has been sent exactly `n / 10` times. Only the readings of publishing passes must have at most 16 cells |

## Left out

- Peripheral bring-up is not modelled: watchdog, clock, pin muxing, USCI init and the
  interrupt enables (Firmware/MSP430.c:34-45, 85-96, 178-182, 191). These are register
  configuration with no logic.
- Busy-waits on hardware flags (Firmware/MSP430.c:52, 56, 66, 68, 78, 99) are single events
  that are assumed to finish. There are no timeouts or ACK/NACK checks to model.
- The monitor driver (`BQ76952_Init`, `BQ76952_UpdateAll`, lines 189 and 196) is not part of
  this model. The reading is a parameter of `Cycle`. `BQ76952_Data_t` is not defined in the
  file, so `Reading` is inferred from its field accesses at lines 150-173.
- The bytes that the I2C slave returns are the parameter `rx` of `I2C.Master.Read`.
- `vsnprintf` and varargs are modelled by what they produce: `Report` gives the formatted text,
  and `Firmware.Formatted` gives the 127-character cut of the buffer.
- `__delay_cycles` (line 208) is left out, since it concerns only timing.
- The unused declarations (lines 6-13, 31-32, 95) are left out.
- `while (1)` is modelled as `MainLoop` over a finite sequence of readings. Nothing is claimed
  about an unbounded run.
- Firmware.Controller.SendBMSData: requires `numCells <= 16`, because for a larger `numCells`,
  line 131 reads outside `cellVoltages`, which C leaves undefined.
- Firmware.Controller.Cycle: requires `numCells <= 16` only of the reading of a publishing pass,
  which is when line 131 reads the cells. Firmware.MainLoop requires the same of every tenth reading.
- Report.CurrentText: uses the exact `|current|`. On the MSP430, `int` is 16 bits, so
  `abs(current)` converts the 32-bit current to `int` first. That conversion, and the undefined
  `abs(INT_MIN)`, are not modelled.
- Report.TenthsText: uses the exact `|t|` for the same reason. 16-bit temperatures fit `int`,
  so only `abs(INT16_MIN)` differs.
- Report.CurrentText: describes the intended rendering of the fraction digits. Line 126 passes
  `abs(current) % 1000`, an `int`, to the `%03ld` of line 123, which expects a `long`. C11 section 7.21.6.1
  paragraph 9 leaves that undefined. On the MSP430 `int` is 16 bits and `long` is 32, so
  `vsnprintf` reads two bytes more than were passed. The digits that really reach the wire are
  not modelled, so `Report.CurrentRoundTrip` and the current field of `Report.ReportRoundTrip`
  describe the intended rendering.
- Report.Balancing: reads `1 << i` as bit `i` of `balancingStatus`. At line 133 the shift is
  of an `int`, so for `i == 15` (cell 16, with `numCells == 16`) it overflows a 16-bit `int`.
  C11 section 6.5.7 paragraph 4 leaves that undefined. The model takes the bit the authors
  evidently meant.
- CInt.CDiv: defined for positive divisors only, which are the only ones the firmware uses
  (1000 and 10).
