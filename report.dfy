/**
 * The text that `UART_SendBMSData` writes to the serial port, as a pure
 * formatter: one function per line of the report, the report as a sequence
 * of lines, and the byte stream as those lines each ended by CR LF.
 * Decoders read the report back; the lemmas say what it shows of a snapshot.
 */
module Report {
  import opened Wrappers
  import opened CInt
  import opened Decimal
  import opened BmsData

  const CRLF := "\r\n"
  const BAL_MARK := " [BAL]"
  const CELL_HEADER := "Cell Voltages:"
  const SENSOR_HEADER := "Temperatures:"
  /**
   * The bytes of the temperature unit: the firmware file holds the degree sign
   * UTF-8 encoded twice ("Â°", bytes C3 82 C2 B0), followed by 'C'.  Each
   * character of the serial stream stands for one byte.
   */
  const DEGREES := "\U{00C3}\U{0082}\U{00C2}\U{00B0}C"

  /** Lines before the cell lines, and between the cell lines and the sensor lines. */
  const LINES_BEFORE_CELLS := 5
  const LINES_BETWEEN := 2

  predicate StartsWith(s: string, p: string) {
    |p| <= |s| && s[..|p|] == p
  }

  predicate EndsWith(s: string, p: string) {
    |p| <= |s| && s[|s| - |p|..] == p
  }

  /*** Numbers as the format strings render them ***/

  /** `%ld.%03ld` (or `%d.%03d`) of `v / 1000` and `v % 1000`, for millivolts. */
  function Millis(v: nat): string {
    NatText(v / 1000) + "." + Zero3(v % 1000)
  }

  /** `%s%ld.%03ld` of `current >= 0 ? "+" : ""`, `current / 1000`, `abs(current) % 1000`. */
  function CurrentText(c: int): string {
    (if c >= 0 then "+" else "") + IntText(CDiv(c, 1000)) + "." + Zero3(Abs(c) % 1000)
  }

  /** `%d.%d` of `t / 10` and `abs(t) % 10`, for tenths of a degree. */
  function TenthsText(t: int): string {
    IntText(CDiv(t, 10)) + "." + NatText(Abs(t) % 10)
  }

  /** The unsigned rendering `D.F` of a magnitude in tenths. */
  function Tenths(m: nat): string {
    NatText(m / 10) + "." + NatText(m % 10)
  }

  /*** The lines of the report, without their CR LF ***/

  function SocLine(soc: u8): string {
    "SOC: " + IntText(soc) + "%"
  }

  function PackLine(v: u32): string {
    "Pack Voltage: " + Millis(v) + "V"
  }

  function CurrentLine(c: i32): string {
    "Current: " + CurrentText(c) + "A"
  }

  /** What `UART_Printf("  Cell %2d: %d.%03dV", ...)` writes for cell index `i`. */
  function CellText(i: nat, v: u16): string {
    "  Cell " + Width2(i + 1) + ": " + Millis(v) + "V"
  }

  function CellLine(i: nat, v: u16, balancing: bool): string {
    CellText(i, v) + (if balancing then BAL_MARK else "")
  }

  function SensorLine(i: nat, t: i16): string {
    "  Sensor " + IntText(i + 1) + ": " + TenthsText(t) + DEGREES
  }

  /** `balancingStatus & (1 << i)`: whether cell `i` is being balanced. */
  predicate Balancing(s: Snapshot, i: nat)
    requires i < CELL_CAPACITY
  {
    Bit16(s.balancingStatus, i)
  }

  function CellLines(s: Snapshot): seq<string>
    requires s.numCells <= CELL_CAPACITY
  {
    seq(s.numCells, i requires 0 <= i < s.numCells => CellLine(i, s.cellVoltages[i], Balancing(s, i)))
  }

  function SensorLines(s: Snapshot): seq<string>
  {
    seq(SENSOR_COUNT, j requires 0 <= j < SENSOR_COUNT => SensorLine(j, s.temperatures[j]))
  }

  /** The three value lines, then a blank line and the cell header. */
  function HeadLines(s: Snapshot): seq<string>
  {
    [SocLine(s.soc), PackLine(s.packVoltage), CurrentLine(s.current), "", CELL_HEADER]
  }

  /** A blank line and the sensor header. */
  const MIDDLE_LINES := ["", SENSOR_HEADER]

  /** The report, line by line, in the order `UART_SendBMSData` writes it. */
  function ReportLines(s: Snapshot): seq<string>
    requires s.numCells <= CELL_CAPACITY
  {
    HeadLines(s) + CellLines(s) + MIDDLE_LINES + SensorLines(s)
  }

  /** The bytes on the wire: every line followed by CR LF. */
  function Transcript(lines: seq<string>): string
  {
    if lines == [] then "" else lines[0] + CRLF + Transcript(lines[1..])
  }

  /*** Reading the report back ***/

  /** The text between a known prefix and a known suffix. */
  function Between(l: string, prefix: string, suffix: string): Option<string>
  {
    if |prefix| + |suffix| <= |l| && l[..|prefix|] == prefix && l[|l| - |suffix|..] == suffix then
      Some(l[|prefix|..|l| - |suffix|])
    else
      None
  }

  /** Reads `W.FFF` as the number `W * 1000 + FFF`. */
  function DecodeMillis(s: string): Option<nat>
  {
    if |s| < 5 || s[|s| - 4] != '.' then None
    else
      var w :- DecodeNat(s[..|s| - 4]);
      var f :- DecodeNat(s[|s| - 3..]);
      Some(w * 1000 + f)
  }

  /** Reads `D.F` as the number `D * 10 + F`. */
  function DecodeTenthsMagnitude(s: string): Option<nat>
  {
    if |s| < 3 || s[|s| - 2] != '.' then None
    else
      var w :- DecodeNat(s[..|s| - 2]);
      var f :- DecodeNat(s[|s| - 1..]);
      Some(w * 10 + f)
  }

  /** A leading '+' marks a non-negative current; text without it was negative. */
  function DecodeCurrent(s: string): Option<int>
  {
    if |s| >= 1 && s[0] == '+' then
      var m :- DecodeMillis(s[1..]);
      Some(m as int)
    else if |s| >= 1 && s[0] == '-' then
      var m :- DecodeMillis(s[1..]);
      Some(-(m as int))
    else
      var m :- DecodeMillis(s);
      Some(-(m as int))
  }

  function DecodeTenths(s: string): Option<int>
  {
    if |s| >= 1 && s[0] == '-' then
      var m :- DecodeTenthsMagnitude(s[1..]);
      Some(-(m as int))
    else
      var m :- DecodeTenthsMagnitude(s);
      Some(m as int)
  }

  datatype CellReport = CellReport(number: int, millivolts: int, balancing: bool)
  datatype SensorReport = SensorReport(number: int, tenths: int)
  datatype Decoded = Decoded(
    soc: int,
    packVoltage: int,
    current: int,
    cells: seq<CellReport>,
    sensors: seq<SensorReport>)

  function DecodeSocLine(l: string): Option<int>
  {
    var m :- Between(l, "SOC: ", "%");
    DecodeInt(m)
  }

  function DecodePackLine(l: string): Option<nat>
  {
    var m :- Between(l, "Pack Voltage: ", "V");
    DecodeMillis(m)
  }

  function DecodeCurrentLine(l: string): Option<int>
  {
    var m :- Between(l, "Current: ", "A");
    DecodeCurrent(m)
  }

  function DecodeCellLine(l: string): Option<CellReport>
  {
    var balancing := EndsWith(l, BAL_MARK);
    var body := if balancing then l[..|l| - |BAL_MARK|] else l;
    var m :- Between(body, "  Cell ", "V");
    if |m| < 4 || m[2..4] != ": " then None
    else
      var number :- DecodeNat(TrimLeft(m[..2], ' '));
      var mv :- DecodeMillis(m[4..]);
      Some(CellReport(number, mv, balancing))
  }

  function DecodeSensorLine(l: string): Option<SensorReport>
  {
    var m :- Between(l, "  Sensor ", DEGREES);
    if |m| < 3 || m[1..3] != ": " then None
    else
      var number :- DecodeNat(m[..1]);
      var t :- DecodeTenths(m[3..]);
      Some(SensorReport(number, t))
  }

  function DecodeEach<T>(ls: seq<string>, decode: string -> Option<T>): (r: Option<seq<T>>)
    ensures r.Some? ==> |r.value| == |ls|
  {
    if ls == [] then Some([])
    else
      var x :- decode(ls[0]);
      var rest :- DecodeEach(ls[1..], decode);
      Some([x] + rest)
  }

  /** Reads a whole report: the line count fixes the number of cells. */
  function DecodeReport(lines: seq<string>): Option<Decoded>
  {
    var extra := LINES_BEFORE_CELLS + LINES_BETWEEN + SENSOR_COUNT;
    if |lines| < extra then None
    else
      var n := |lines| - extra;
      var tail := LINES_BEFORE_CELLS + n;
      if lines[3] != "" || lines[4] != CELL_HEADER || lines[tail] != "" || lines[tail + 1] != SENSOR_HEADER then None
      else
        var soc :- DecodeSocLine(lines[0]);
        var pack :- DecodePackLine(lines[1]);
        var current :- DecodeCurrentLine(lines[2]);
        var cells :- DecodeEach(lines[LINES_BEFORE_CELLS..tail], DecodeCellLine);
        var sensors :- DecodeEach(lines[tail + LINES_BETWEEN..], DecodeSensorLine);
        Some(Decoded(soc, pack, current, cells, sensors))
  }

  /** A temperature as the report shows it: between -1.0 and 0 degC the sign is lost. */
  function ShownTenths(t: int): int {
    if -10 < t < 0 then -t else t
  }

  /** What the report shows of a snapshot. */
  function Shown(s: Snapshot): Decoded
    requires s.numCells <= CELL_CAPACITY
  {
    Decoded(s.soc, s.packVoltage, s.current,
            seq(s.numCells, i requires 0 <= i < s.numCells =>
              CellReport(i + 1, s.cellVoltages[i], Balancing(s, i))),
            seq(SENSOR_COUNT, j requires 0 <= j < SENSOR_COUNT =>
              SensorReport(j + 1, ShownTenths(s.temperatures[j]))))
  }

  /*** Lemmas: the numbers ***/

  lemma BetweenConcat(p: string, m: string, q: string)
    ensures Between(p + m + q, p, q) == Some(m)
  {
    var l := p + m + q;
    assert l[..|p|] == p;
    assert l[|l| - |q|..] == q;
    assert l[|p|..|l| - |q|] == m;
  }

  /** A millivolt value renders as `W.FFF` with exactly three fraction digits and reads back as itself. */
  lemma MillisRoundTrip(v: nat)
    ensures |Millis(v)| >= 5 && Millis(v)[|Millis(v)| - 4] == '.'
    ensures DecodeMillis(Millis(v)) == Some(v)
  {
    var w, f := NatText(v / 1000), Zero3(v % 1000);
    var s := Millis(v);
    assert s[..|s| - 4] == w;
    assert s[|s| - 3..] == f;
  }

  /** The sign convention of the current line, case by case. */
  lemma CurrentTextCases(c: int)
    ensures CurrentText(c) == if c >= 0 then "+" + Millis(c)
                              else if c <= -1000 then "-" + Millis(-c)
                              else Millis(-c)
  {
    var f := Zero3(Abs(c) % 1000);
    var w := NatText(Abs(c) / 1000);
    if c >= 0 {
      assert IntText(CDiv(c, 1000)) == w;
      Assoc4("+", w, ".", f);
    } else if c <= -1000 {
      assert IntText(CDiv(c, 1000)) == "-" + w;
      Assoc4("-", w, ".", f);
      assert "" + ("-" + w) == "-" + w;
    } else {
      assert CDiv(c, 1000) == 0 && (-c) / 1000 == 0;
      assert IntText(0) == w;
      assert "" + w == w;
    }
  }

  lemma Assoc4(a: string, b: string, c: string, d: string)
    ensures a + b + c + d == a + (b + c + d)
  {
  }

  /** '+' appears exactly for non-negative currents, '-' exactly for currents of -1 A or less. */
  lemma CurrentSign(c: int)
    ensures CurrentText(c)[0] == '+' <==> c >= 0
    ensures CurrentText(c)[0] == '-' <==> c <= -1000
  {
    CurrentTextCases(c);
    MillisRoundTrip(Abs(c));
  }

  /** Although -0.5 A is shown without a minus sign, the text still determines the current. */
  lemma CurrentRoundTrip(c: int)
    ensures DecodeCurrent(CurrentText(c)) == Some(c)
  {
    CurrentTextCases(c);
    MillisRoundTrip(Abs(c));
    var m := Millis(Abs(c));
    if c >= 0 {
      assert ("+" + m)[1..] == m;
    } else if c <= -1000 {
      assert ("-" + m)[1..] == m;
    }
  }

  lemma TenthsRoundTrip(m: nat)
    ensures |Tenths(m)| >= 3
    ensures DecodeTenthsMagnitude(Tenths(m)) == Some(m)
  {
    var w, f := NatText(m / 10), NatText(m % 10);
    var s := Tenths(m);
    assert |f| == 1;
    assert s[..|s| - 2] == w;
    assert s[|s| - 1..] == f;
  }

  lemma TenthsTextCases(t: int)
    ensures TenthsText(t) == if t >= 0 then Tenths(t)
                             else if t <= -10 then "-" + Tenths(-t)
                             else Tenths(-t)
  {
    if t < 0 && t > -10 {
      assert CDiv(t, 10) == 0 && (-t) / 10 == 0;
    }
  }

  /** A temperature reads back as itself, except that a value in (-1.0, 0) degC reads back negated. */
  lemma TemperatureRoundTrip(t: int)
    ensures DecodeTenths(TenthsText(t)) == Some(ShownTenths(t))
  {
    TenthsTextCases(t);
    TenthsRoundTrip(Abs(t));
    var m := Tenths(Abs(t));
    assert m[0] != '-';
    if t <= -10 {
      assert ("-" + m)[1..] == m;
    }
  }

  /** Between -1.0 and 0 degC the rendering drops the sign: -0.5 degC prints as "0.5". */
  lemma TemperatureSignLost(t: int)
    requires -10 < t < 0
    ensures TenthsText(t) == TenthsText(-t)
  {
    TenthsTextCases(t);
    TenthsTextCases(-t);
  }

  /*** Lemmas: the lines ***/

  lemma SocLineRoundTrip(soc: u8)
    ensures DecodeSocLine(SocLine(soc)) == Some(soc as int)
  {
    BetweenConcat("SOC: ", IntText(soc), "%");
    DecodeIntText(soc);
  }

  lemma PackLineRoundTrip(v: u32)
    ensures DecodePackLine(PackLine(v)) == Some(v as nat)
  {
    BetweenConcat("Pack Voltage: ", Millis(v), "V");
    MillisRoundTrip(v);
  }

  lemma CurrentLineRoundTrip(c: i32)
    ensures DecodeCurrentLine(CurrentLine(c)) == Some(c as int)
  {
    BetweenConcat("Current: ", CurrentText(c), "A");
    CurrentRoundTrip(c);
  }

  /** The marker is recognised exactly when present, and removing it leaves the text before it. */
  lemma MarkerSeparates(text: string, balancing: bool)
    requires |text| >= 1 && text[|text| - 1] == 'V'
    ensures var l := text + (if balancing then BAL_MARK else "");
      && (EndsWith(l, BAL_MARK) <==> balancing)
      && (balancing ==> l[..|l| - |BAL_MARK|] == text)
  {
    var l := text + (if balancing then BAL_MARK else "");
    if balancing {
      assert l[|l| - |BAL_MARK|..] == BAL_MARK;
      assert l[..|l| - |BAL_MARK|] == text;
    } else {
      assert l == text;
      assert l[|l| - 1] != BAL_MARK[|BAL_MARK| - 1];
    }
  }

  lemma CellTextFields(i: nat, v: u16)
    requires i + 1 <= 99
    ensures var text := CellText(i, v);
      |text| >= 1 && text[|text| - 1] == 'V'
    ensures Between(CellText(i, v), "  Cell ", "V") == Some(Width2(i + 1) + ": " + Millis(v))
  {
    CellShape(Width2(i + 1), Millis(v));
  }

  lemma CellShape(w: string, mv: string)
    ensures var text := "  Cell " + w + ": " + mv + "V";
      text[|text| - 1] == 'V' && Between(text, "  Cell ", "V") == Some(w + ": " + mv)
  {
    var m := w + ": " + mv;
    assert "  Cell " + w + ": " + mv + "V" == "  Cell " + m + "V";
    BetweenConcat("  Cell ", m, "V");
  }

  lemma CellFieldsRoundTrip(i: nat, v: u16)
    requires i + 1 <= 99
    ensures var m := Width2(i + 1) + ": " + Millis(v);
      && |m| >= 4 && m[2..4] == ": "
      && DecodeNat(TrimLeft(m[..2], ' ')) == Some(i + 1)
      && DecodeMillis(m[4..]) == Some(v as nat)
  {
    Width2RoundTrip(i + 1);
    MillisRoundTrip(v);
    FieldsSplit(Width2(i + 1), Millis(v));
  }

  lemma FieldsSplit(w: string, mv: string)
    requires |w| == 2
    ensures var m := w + ": " + mv; |m| >= 4 && m[..2] == w && m[2..4] == ": " && m[4..] == mv
  {
    var m := w + ": " + mv;
    assert m[..2] == w && m[2..4] == ": " && m[4..] == mv;
  }

  /** A cell line gives back its 1-based number, its voltage and whether it carries the marker. */
  lemma CellLineRoundTrip(i: nat, v: u16, balancing: bool)
    requires i + 1 <= 99
    ensures DecodeCellLine(CellLine(i, v, balancing)) == Some(CellReport(i + 1, v, balancing))
  {
    CellTextFields(i, v);
    CellFieldsRoundTrip(i, v);
    MarkerSeparates(CellText(i, v), balancing);
    var l := CellLine(i, v, balancing);
    var body := if EndsWith(l, BAL_MARK) then l[..|l| - |BAL_MARK|] else l;
    assert body == CellText(i, v);
  }

  /** A sensor line gives back its 1-based number and its temperature as shown. */
  lemma SensorLineRoundTrip(j: nat, t: i16)
    requires j + 1 <= 9
    ensures DecodeSensorLine(SensorLine(j, t)) == Some(SensorReport(j + 1, ShownTenths(t)))
  {
    var k := IntText(j + 1);
    assert |k| == 1 by {
      NatTextLength(j + 1, 1);
    }
    DecodeNatText(j + 1);
    TemperatureRoundTrip(t);
    SensorShape(k, TenthsText(t));
  }

  lemma SensorShape(k: string, d: string)
    requires |k| == 1
    ensures Between("  Sensor " + k + ": " + d + DEGREES, "  Sensor ", DEGREES) == Some(k + ": " + d)
    ensures var m := k + ": " + d; |m| >= 3 && m[..1] == k && m[1..3] == ": " && m[3..] == d
  {
    var m := k + ": " + d;
    assert "  Sensor " + k + ": " + d + DEGREES == "  Sensor " + m + DEGREES;
    BetweenConcat("  Sensor ", m, DEGREES);
    assert m[..1] == k && m[1..3] == ": " && m[3..] == d;
  }

  lemma {:induction false} DecodeEachAll<T>(ls: seq<string>, decode: string -> Option<T>, out: seq<T>)
    requires |ls| == |out|
    requires forall i :: 0 <= i < |ls| ==> decode(ls[i]) == Some(out[i])
    ensures DecodeEach(ls, decode) == Some(out)
  {
    if ls != [] {
      DecodeEachAll(ls[1..], decode, out[1..]);
      assert [out[0]] + out[1..] == out;
    }
  }

  /** Where each line of the report stands. */
  lemma ReportLayout(s: Snapshot)
    requires s.numCells <= CELL_CAPACITY
    ensures var lines, n := ReportLines(s), s.numCells as int;
      && |lines| == n + LINES_BEFORE_CELLS + LINES_BETWEEN + SENSOR_COUNT
      && lines[0] == SocLine(s.soc) && lines[1] == PackLine(s.packVoltage)
      && lines[2] == CurrentLine(s.current) && lines[3] == "" && lines[4] == CELL_HEADER
      && lines[LINES_BEFORE_CELLS..LINES_BEFORE_CELLS + n] == CellLines(s)
      && lines[LINES_BEFORE_CELLS + n] == "" && lines[LINES_BEFORE_CELLS + n + 1] == SENSOR_HEADER
      && lines[LINES_BEFORE_CELLS + n + LINES_BETWEEN..] == SensorLines(s)
      && (forall i :: 0 <= i < n ==> lines[LINES_BEFORE_CELLS + i] == CellLines(s)[i])
      && (forall j :: 0 <= j < SENSOR_COUNT ==> lines[LINES_BEFORE_CELLS + n + LINES_BETWEEN + j] == SensorLines(s)[j])
  {
    Concat4(HeadLines(s), CellLines(s), MIDDLE_LINES, SensorLines(s));
  }

  lemma Concat4<T>(a: seq<T>, b: seq<T>, c: seq<T>, d: seq<T>)
    ensures var x, i, j, k := a + b + c + d, |a|, |a| + |b|, |a| + |b| + |c|;
      && |x| == k + |d|
      && (forall m :: 0 <= m < i ==> x[m] == a[m])
      && x[i..j] == b
      && (forall m :: 0 <= m < |b| ==> x[i + m] == b[m])
      && (forall m :: j <= m < k ==> x[m] == c[m - j])
      && x[k..] == d
      && (forall m :: 0 <= m < |d| ==> x[k + m] == d[m])
  {
    var x := a + b + c + d;
    assert x[|a|..|a| + |b|] == b;
    assert x[|a| + |b| + |c|..] == d;
  }

  /** DecodeReport succeeds on any line sequence whose parts decode. */
  lemma DecodeReportParts(lines: seq<string>, d: Decoded)
    requires |lines| == |d.cells| + LINES_BEFORE_CELLS + LINES_BETWEEN + SENSOR_COUNT
    requires var n := |d.cells|;
      && lines[3] == "" && lines[4] == CELL_HEADER
      && lines[LINES_BEFORE_CELLS + n] == "" && lines[LINES_BEFORE_CELLS + n + 1] == SENSOR_HEADER
      && DecodeSocLine(lines[0]) == Some(d.soc)
      && DecodePackLine(lines[1]) == Some(d.packVoltage)
      && DecodeCurrentLine(lines[2]) == Some(d.current)
      && DecodeEach(lines[LINES_BEFORE_CELLS..LINES_BEFORE_CELLS + n], DecodeCellLine) == Some(d.cells)
      && DecodeEach(lines[LINES_BEFORE_CELLS + n + LINES_BETWEEN..], DecodeSensorLine) == Some(d.sensors)
    ensures DecodeReport(lines) == Some(d)
  {
  }

  /**
   * The report can be read back completely: SOC, pack voltage and current
   * exactly, the first `numCells` cells numbered 1.. with their voltages and
   * markers, and the four sensors numbered 1..4 with their temperatures.
   */
  lemma ReportRoundTrip(s: Snapshot)
    requires s.numCells <= CELL_CAPACITY
    ensures DecodeReport(ReportLines(s)) == Some(Shown(s))
  {
    ReportLayout(s);
    SocLineRoundTrip(s.soc);
    PackLineRoundTrip(s.packVoltage);
    CurrentLineRoundTrip(s.current);
    CellLinesRoundTrip(s);
    SensorLinesRoundTrip(s);
    DecodeReportParts(ReportLines(s), Shown(s));
  }

  lemma CellLinesRoundTrip(s: Snapshot)
    requires s.numCells <= CELL_CAPACITY
    ensures DecodeEach(CellLines(s), DecodeCellLine) == Some(Shown(s).cells)
  {
    var cells, shown := CellLines(s), Shown(s).cells;
    forall i | 0 <= i < |cells|
      ensures DecodeCellLine(cells[i]) == Some(shown[i])
    {
      CellLineRoundTrip(i, s.cellVoltages[i], Balancing(s, i));
    }
    DecodeEachAll(cells, DecodeCellLine, shown);
  }

  lemma SensorLinesRoundTrip(s: Snapshot)
    requires s.numCells <= CELL_CAPACITY
    ensures DecodeEach(SensorLines(s), DecodeSensorLine) == Some(Shown(s).sensors)
  {
    var sensors, shown := SensorLines(s), Shown(s).sensors;
    forall j | 0 <= j < |sensors|
      ensures DecodeSensorLine(sensors[j]) == Some(shown[j])
    {
      SensorLineRoundTrip(j, s.temperatures[j]);
    }
    DecodeEachAll(sensors, DecodeSensorLine, shown);
  }

  /*** Lemmas: counting and markers ***/

  const CELL_PREFIX := "  Cell "
  const SENSOR_PREFIX := "  Sensor "

  function CountStarting(lines: seq<string>, p: string): nat
  {
    if lines == [] then 0 else (if StartsWith(lines[0], p) then 1 else 0) + CountStarting(lines[1..], p)
  }

  lemma {:induction false} CountStartingAppend(a: seq<string>, b: seq<string>, p: string)
    ensures CountStarting(a + b, p) == CountStarting(a, p) + CountStarting(b, p)
  {
    if a == [] {
      assert a + b == b;
    } else {
      assert (a + b)[1..] == a[1..] + b;
      CountStartingAppend(a[1..], b, p);
    }
  }

  lemma {:induction false} CountStartingEach(ls: seq<string>, p: string, all: bool)
    requires forall i :: 0 <= i < |ls| ==> StartsWith(ls[i], p) == all
    ensures CountStarting(ls, p) == if all then |ls| else 0
  {
    if ls != [] {
      CountStartingEach(ls[1..], p, all);
    }
  }

  lemma DiffersAt(l: string, p: string, k: nat)
    requires k < |p| && (k < |l| ==> l[k] != p[k])
    ensures !StartsWith(l, p)
  {
  }

  lemma HeadCounts(s: Snapshot, p: string)
    requires p == CELL_PREFIX || p == SENSOR_PREFIX
    ensures CountStarting(HeadLines(s), p) == 0 && CountStarting(MIDDLE_LINES, p) == 0
  {
    var head := HeadLines(s);
    forall i | 0 <= i < |head| ensures !StartsWith(head[i], p) {
      DiffersAt(head[i], p, 0);
    }
    CountStartingEach(head, p, false);
    forall i | 0 <= i < |MIDDLE_LINES| ensures !StartsWith(MIDDLE_LINES[i], p) {
      DiffersAt(MIDDLE_LINES[i], p, 0);
    }
    CountStartingEach(MIDDLE_LINES, p, false);
  }

  lemma CellCounts(s: Snapshot, p: string)
    requires s.numCells <= CELL_CAPACITY
    requires p == CELL_PREFIX || p == SENSOR_PREFIX
    ensures CountStarting(CellLines(s), p) == if p == CELL_PREFIX then s.numCells as int else 0
  {
    var cells := CellLines(s);
    forall i | 0 <= i < |cells| ensures StartsWith(cells[i], p) == (p == CELL_PREFIX) {
      if p == CELL_PREFIX {
        assert cells[i][..|CELL_PREFIX|] == CELL_PREFIX;
      } else {
        DiffersAt(cells[i], p, 2);
      }
    }
    CountStartingEach(cells, p, p == CELL_PREFIX);
  }

  lemma SensorCounts(s: Snapshot, p: string)
    requires p == CELL_PREFIX || p == SENSOR_PREFIX
    ensures CountStarting(SensorLines(s), p) == if p == SENSOR_PREFIX then SENSOR_COUNT else 0
  {
    var sensors := SensorLines(s);
    forall j | 0 <= j < |sensors| ensures StartsWith(sensors[j], p) == (p == SENSOR_PREFIX) {
      if p == SENSOR_PREFIX {
        assert sensors[j][..|SENSOR_PREFIX|] == SENSOR_PREFIX;
      } else {
        DiffersAt(sensors[j], p, 2);
      }
    }
    CountStartingEach(sensors, p, p == SENSOR_PREFIX);
  }

  /**
   * The report has `numCells` + 11 lines, exactly `numCells` of them cell lines
   * and exactly four of them sensor lines, whatever the number of cells.
   */
  lemma ReportCounts(s: Snapshot)
    requires s.numCells <= CELL_CAPACITY
    ensures |ReportLines(s)| == s.numCells as int + 11
    ensures CountStarting(ReportLines(s), CELL_PREFIX) == s.numCells as int
    ensures CountStarting(ReportLines(s), SENSOR_PREFIX) == SENSOR_COUNT
  {
    var head, cells, sensors := HeadLines(s), CellLines(s), SensorLines(s);
    forall p | p == CELL_PREFIX || p == SENSOR_PREFIX
      ensures CountStarting(ReportLines(s), p) == (if p == CELL_PREFIX then |cells| else |sensors|)
    {
      CountStartingAppend(head + cells + MIDDLE_LINES, sensors, p);
      CountStartingAppend(head + cells, MIDDLE_LINES, p);
      CountStartingAppend(head, cells, p);
      HeadCounts(s, p);
      CellCounts(s, p);
      SensorCounts(s, p);
    }
  }

  lemma NotMarked(l: string)
    requires l == [] || l[|l| - 1] != ']'
    ensures !EndsWith(l, BAL_MARK)
  {
  }

  /**
   * A line of the report ends with " [BAL]" exactly when it is the line of cell
   * `i` < `numCells` and bit `i` of `balancingStatus` is set.
   */
  lemma MarkerExactlyWhenBalancing(s: Snapshot)
    requires s.numCells <= CELL_CAPACITY
    ensures forall j :: 0 <= j < |ReportLines(s)| ==>
      (EndsWith(ReportLines(s)[j], BAL_MARK) <==>
        LINES_BEFORE_CELLS <= j < LINES_BEFORE_CELLS + s.numCells as int && Balancing(s, j - LINES_BEFORE_CELLS))
  {
    forall j | 0 <= j < |ReportLines(s)|
      ensures EndsWith(ReportLines(s)[j], BAL_MARK) <==>
        LINES_BEFORE_CELLS <= j < LINES_BEFORE_CELLS + s.numCells as int && Balancing(s, j - LINES_BEFORE_CELLS)
    {
      MarkerAt(s, j);
    }
  }

  lemma MarkerAt(s: Snapshot, j: nat)
    requires s.numCells <= CELL_CAPACITY && j < |ReportLines(s)|
    ensures EndsWith(ReportLines(s)[j], BAL_MARK) <==>
      LINES_BEFORE_CELLS <= j < LINES_BEFORE_CELLS + s.numCells as int && Balancing(s, j - LINES_BEFORE_CELLS)
  {
    var n := s.numCells as int;
    if j < LINES_BEFORE_CELLS || j >= LINES_BEFORE_CELLS + n {
      OutsideCellsUnmarked(s, j);
    } else {
      CellLineMarked(s, j);
    }
  }

  lemma CellLineMarked(s: Snapshot, j: nat)
    requires s.numCells <= CELL_CAPACITY
    requires LINES_BEFORE_CELLS <= j < LINES_BEFORE_CELLS + s.numCells as int
    ensures EndsWith(ReportLines(s)[j], BAL_MARK) <==> Balancing(s, j - LINES_BEFORE_CELLS)
  {
    SegmentAt(HeadLines(s), CellLines(s), MIDDLE_LINES, SensorLines(s), j);
    CellMarked(s, j - LINES_BEFORE_CELLS);
  }

  lemma OutsideCellsUnmarked(s: Snapshot, j: nat)
    requires s.numCells <= CELL_CAPACITY && j < |ReportLines(s)|
    requires j < LINES_BEFORE_CELLS || j >= LINES_BEFORE_CELLS + s.numCells as int
    ensures !EndsWith(ReportLines(s)[j], BAL_MARK)
  {
    var n := s.numCells as int;
    SegmentAt(HeadLines(s), CellLines(s), MIDDLE_LINES, SensorLines(s), j);
    if j < LINES_BEFORE_CELLS {
      HeadUnmarked(s, j);
    } else if j < LINES_BEFORE_CELLS + n + LINES_BETWEEN {
      NotMarked(MIDDLE_LINES[j - LINES_BEFORE_CELLS - n]);
    } else {
      SensorUnmarked(s, j - (LINES_BEFORE_CELLS + n + LINES_BETWEEN));
    }
  }

  /** The element at index `j` of four concatenated sequences, by the segment it falls in. */
  lemma SegmentAt<T>(a: seq<T>, b: seq<T>, c: seq<T>, d: seq<T>, j: nat)
    requires j < |a| + |b| + |c| + |d|
    ensures var x := a + b + c + d;
      && (j < |a| ==> x[j] == a[j])
      && (|a| <= j < |a| + |b| ==> x[j] == b[j - |a|])
      && (|a| + |b| <= j < |a| + |b| + |c| ==> x[j] == c[j - |a| - |b|])
      && (|a| + |b| + |c| <= j ==> x[j] == d[j - |a| - |b| - |c|])
  {
  }

  lemma CellMarked(s: Snapshot, i: nat)
    requires i < s.numCells <= CELL_CAPACITY
    ensures EndsWith(CellLines(s)[i], BAL_MARK) <==> Balancing(s, i)
  {
    var text := CellText(i, s.cellVoltages[i]);
    assert text[|text| - 1] == 'V';
    MarkerSeparates(text, Balancing(s, i));
  }

  lemma SensorUnmarked(s: Snapshot, j: nat)
    requires j < SENSOR_COUNT
    ensures !EndsWith(SensorLines(s)[j], BAL_MARK)
  {
    var l := SensorLines(s)[j];
    assert l[|l| - 1] == 'C';
    NotMarked(l);
  }

  lemma HeadUnmarked(s: Snapshot, j: nat)
    requires j < |HeadLines(s)|
    ensures !EndsWith(HeadLines(s)[j], BAL_MARK)
  {
    var l := HeadLines(s)[j];
    assert l == [] || l[|l| - 1] in "%VA:";
    NotMarked(l);
  }

  /** Bits of `balancingStatus` at or above `numCells` do not change the report at all. */
  lemma HighBalancingBitsIgnored(s: Snapshot, b: bv16)
    requires s.numCells <= CELL_CAPACITY
    requires forall i :: 0 <= i < s.numCells ==> (Bit16(b, i) <==> Bit16(s.balancingStatus, i))
    ensures ReportLines(s.(balancingStatus := b)) == ReportLines(s)
  {
    var s' := s.(balancingStatus := b);
    assert CellLines(s') == CellLines(s);
    assert SensorLines(s') == SensorLines(s);
  }

  /** Equal reports come from snapshots that agree on everything the report shows. */
  lemma ReportDeterminesShown(s1: Snapshot, s2: Snapshot)
    requires s1.numCells <= CELL_CAPACITY && s2.numCells <= CELL_CAPACITY
    requires ReportLines(s1) == ReportLines(s2)
    ensures s1.soc == s2.soc && s1.packVoltage == s2.packVoltage && s1.current == s2.current
    ensures s1.numCells == s2.numCells
    ensures forall i :: 0 <= i < s1.numCells ==>
      s1.cellVoltages[i] == s2.cellVoltages[i] && (Balancing(s1, i) <==> Balancing(s2, i))
    ensures forall j :: 0 <= j < SENSOR_COUNT ==>
      ShownTenths(s1.temperatures[j]) == ShownTenths(s2.temperatures[j])
  {
    ReportRoundTrip(s1);
    ReportRoundTrip(s2);
    var d1, d2 := Shown(s1), Shown(s2);
    assert d1 == d2;
    assert |d1.cells| == s1.numCells as int && |d2.cells| == s2.numCells as int;
    forall i | 0 <= i < s1.numCells
      ensures s1.cellVoltages[i] == s2.cellVoltages[i] && (Balancing(s1, i) <==> Balancing(s2, i))
    {
      assert d1.cells[i] == d2.cells[i];
    }
    forall j | 0 <= j < SENSOR_COUNT
      ensures ShownTenths(s1.temperatures[j]) == ShownTenths(s2.temperatures[j])
    {
      assert d1.sensors[j] == d2.sensors[j];
    }
  }

  /*** Lemmas: the byte stream ***/

  /** Text that a C string can carry whole: it holds no NUL. */
  predicate NoNul(s: string) {
    forall i :: 0 <= i < |s| ==> s[i] != '\0'
  }

  /** Text that can stand on one line of the stream: no NUL (it would end the C string) and no CR. */
  predicate LineText(s: string) {
    NoNul(s) && forall i :: 0 <= i < |s| ==> s[i] != '\r'
  }

  lemma LineTextJoin(a: string, b: string)
    requires LineText(a) && LineText(b)
    ensures LineText(a + b)
  {
  }

  lemma DigitsAreLineText(s: string)
    requires AllDigits(s)
    ensures LineText(s)
  {
  }

  lemma IntTextIsLineText(n: int)
    ensures LineText(IntText(n))
  {
    DigitsAreLineText(NatText(if n < 0 then -n else n));
  }

  lemma MillisIsLineText(v: nat)
    ensures LineText(Millis(v))
  {
    DigitsAreLineText(NatText(v / 1000));
    DigitsAreLineText(Zero3(v % 1000));
    LineTextJoin(NatText(v / 1000), ".");
    LineTextJoin(NatText(v / 1000) + ".", Zero3(v % 1000));
  }

  lemma Width2IsLineText(n: int)
    ensures LineText(Width2(n))
  {
    IntTextIsLineText(n);
    LineTextJoin(" ", IntText(n));
  }

  lemma CellTextIsLineText(i: nat, v: u16)
    ensures LineText(CellText(i, v))
  {
    var w := Width2(i + 1);
    Width2IsLineText(i + 1);
    MillisIsLineText(v);
    LineTextJoin("  Cell ", w);
    LineTextJoin("  Cell " + w, ": ");
    LineTextJoin("  Cell " + w + ": ", Millis(v));
    LineTextJoin("  Cell " + w + ": " + Millis(v), "V");
  }

  lemma SensorLineIsLineText(j: nat, t: i16)
    ensures LineText(SensorLine(j, t))
  {
    var n := IntText(j + 1);
    var q := IntText(CDiv(t, 10));
    var f := NatText(Abs(t) % 10);
    IntTextIsLineText(j + 1);
    IntTextIsLineText(CDiv(t, 10));
    DigitsAreLineText(f);
    LineTextJoin(q, ".");
    LineTextJoin(q + ".", f);
    assert TenthsText(t) == q + "." + f;
    LineTextJoin("  Sensor ", n);
    LineTextJoin("  Sensor " + n, ": ");
    LineTextJoin("  Sensor " + n + ": ", TenthsText(t));
    LineTextJoin("  Sensor " + n + ": " + TenthsText(t), DEGREES);
  }

  lemma SocLineIsLineText(soc: u8)
    ensures LineText(SocLine(soc))
  {
    var t := IntText(soc);
    IntTextIsLineText(soc);
    LineTextJoin("SOC: ", t);
    LineTextJoin("SOC: " + t, "%");
  }

  lemma PackLineIsLineText(v: u32)
    ensures LineText(PackLine(v))
  {
    MillisIsLineText(v);
    LineTextJoin("Pack Voltage: ", Millis(v));
    LineTextJoin("Pack Voltage: " + Millis(v), "V");
  }

  lemma CurrentLineIsLineText(c: i32)
    ensures LineText(CurrentLine(c))
  {
    var sign: string := if c >= 0 then "+" else "";
    var q := IntText(CDiv(c, 1000));
    var f := Zero3(Abs(c) % 1000);
    IntTextIsLineText(CDiv(c, 1000));
    DigitsAreLineText(f);
    LineTextJoin(sign, q);
    LineTextJoin(sign + q, ".");
    LineTextJoin(sign + q + ".", f);
    assert CurrentText(c) == sign + q + "." + f;
    LineTextJoin("Current: ", CurrentText(c));
    LineTextJoin("Current: " + CurrentText(c), "A");
  }

  /** Every line of `ls` can stand on a line of the stream. */
  predicate AllLines(ls: seq<string>) {
    forall j :: 0 <= j < |ls| ==> LineText(ls[j])
  }

  lemma AllLinesConcat(a: seq<string>, b: seq<string>, c: seq<string>, d: seq<string>)
    requires AllLines(a) && AllLines(b) && AllLines(c) && AllLines(d)
    ensures AllLines(a + b + c + d)
  {
  }

  lemma HeadShape(soc: string, pack: string, current: string)
    requires LineText(soc) && LineText(pack) && LineText(current)
    ensures AllLines([soc, pack, current, "", CELL_HEADER])
  {
    var h := [soc, pack, current, "", CELL_HEADER];
    assert LineText(h[3]) && LineText(h[4]);
  }

  lemma HeadLinesAreLineText(s: Snapshot)
    ensures AllLines(HeadLines(s))
  {
    SocLineIsLineText(s.soc);
    PackLineIsLineText(s.packVoltage);
    CurrentLineIsLineText(s.current);
    HeadShape(SocLine(s.soc), PackLine(s.packVoltage), CurrentLine(s.current));
  }

  lemma MiddleLinesAreLineText()
    ensures AllLines(MIDDLE_LINES)
  {
    assert LineText(MIDDLE_LINES[0]) && LineText(MIDDLE_LINES[1]);
  }

  lemma CellLinesAreLineText(s: Snapshot)
    requires s.numCells <= CELL_CAPACITY
    ensures AllLines(CellLines(s))
  {
    var cells := CellLines(s);
    forall i | 0 <= i < |cells| ensures LineText(cells[i]) {
      CellTextIsLineText(i, s.cellVoltages[i]);
      LineTextJoin(CellText(i, s.cellVoltages[i]), if Balancing(s, i) then BAL_MARK else "");
    }
  }

  lemma SensorLinesAreLineText(s: Snapshot)
    ensures AllLines(SensorLines(s))
  {
    var sensors := SensorLines(s);
    forall j | 0 <= j < |sensors| ensures LineText(sensors[j]) {
      SensorLineIsLineText(j, s.temperatures[j]);
    }
  }

  lemma ReportLinesAreLineText(s: Snapshot)
    requires s.numCells <= CELL_CAPACITY
    ensures AllLines(ReportLines(s))
  {
    HeadLinesAreLineText(s);
    CellLinesAreLineText(s);
    SensorLinesAreLineText(s);
    MiddleLinesAreLineText();
    AllLinesConcat(HeadLines(s), CellLines(s), MIDDLE_LINES, SensorLines(s));
  }

  lemma {:induction false} TranscriptAppend(a: seq<string>, b: seq<string>)
    ensures Transcript(a + b) == Transcript(a) + Transcript(b)
  {
    if a == [] {
      assert a + b == b;
    } else {
      assert (a + b)[1..] == a[1..] + b;
      TranscriptAppend(a[1..], b);
    }
  }

  /** The index of the first CR LF in `s`, or `|s|` when there is none. */
  function CrlfIndex(s: string): (k: nat)
    ensures k <= |s|
    ensures k < |s| ==> k + 2 <= |s| && s[k..k + 2] == CRLF
  {
    if |s| < 2 then |s|
    else if s[0] == '\r' && s[1] == '\n' then 0
    else 1 + CrlfIndex(s[1..])
  }

  /** Cuts a byte stream into the lines it carries; a last piece without CR LF is kept as is. */
  function SplitLines(s: string): seq<string>
    decreases |s|
  {
    if s == [] then []
    else
      var k := CrlfIndex(s);
      if k == |s| then [s] else [s[..k]] + SplitLines(s[k + 2..])
  }

  lemma {:induction false} CrlfIndexAfter(l: string, rest: string)
    requires LineText(l)
    ensures CrlfIndex(l + CRLF + rest) == |l|
  {
    var s := l + CRLF + rest;
    if l != [] {
      assert s[0] == l[0];
      assert s[1..] == l[1..] + CRLF + rest;
      assert forall i :: 0 <= i < |l[1..]| ==> l[1..][i] == l[i + 1];
      CrlfIndexAfter(l[1..], rest);
    }
  }

  /** Splitting the stream at CR LF gives back the lines, provided no line holds a CR or NUL. */
  lemma {:induction false} SplitTranscript(lines: seq<string>)
    requires AllLines(lines)
    ensures SplitLines(Transcript(lines)) == lines
  {
    if lines != [] {
      var s := Transcript(lines);
      var rest := Transcript(lines[1..]);
      assert s == lines[0] + CRLF + rest;
      CrlfIndexAfter(lines[0], rest);
      assert s[..|lines[0]|] == lines[0];
      assert s[|lines[0]| + 2..] == rest;
      SplitTranscript(lines[1..]);
      assert [lines[0]] + lines[1..] == lines;
    }
  }

  /** The bytes of one report, cut at CR LF and decoded, give back what the snapshot shows. */
  lemma StreamRoundTrip(s: Snapshot)
    requires s.numCells <= CELL_CAPACITY
    ensures DecodeReport(SplitLines(Transcript(ReportLines(s)))) == Some(Shown(s))
  {
    ReportLinesAreLineText(s);
    SplitTranscript(ReportLines(s));
    ReportRoundTrip(s);
  }

  /*** Lemmas: the 128-byte formatting buffer of UART_Printf ***/

  /** `char buffer[128]`: `vsnprintf` keeps at most 127 characters. */
  const PRINTF_BUFFER := 128

  lemma NatTextWidth(n: nat)
    requires n < 0x1_0000_0000
    ensures |NatText(n)| <= 10
  {
    assert Pow10(10) == 10_000_000_000;
    NatTextLength(n, 10);
  }

  lemma IntTextWidth(n: int)
    requires -0x1_0000_0000 < n < 0x1_0000_0000
    ensures |IntText(n)| <= 11
  {
    NatTextWidth(if n < 0 then -n else n);
  }

  /** None of the texts handed to UART_Printf is cut short by its buffer. */
  lemma PrintfTextsFit(s: Snapshot, i: nat, j: nat)
    requires i < CELL_CAPACITY && j < SENSOR_COUNT
    ensures |SocLine(s.soc) + CRLF| < PRINTF_BUFFER
    ensures |PackLine(s.packVoltage) + CRLF| < PRINTF_BUFFER
    ensures |CurrentLine(s.current) + CRLF| < PRINTF_BUFFER
    ensures |CellText(i, s.cellVoltages[i])| < PRINTF_BUFFER
    ensures |SensorLine(j, s.temperatures[j]) + CRLF| < PRINTF_BUFFER
  {
    IntTextWidth(s.soc);
    NatTextWidth(s.packVoltage / 1000);
    IntTextWidth(CDiv(s.current, 1000));
    IntTextWidth(i + 1);
    NatTextWidth(s.cellVoltages[i] / 1000);
    IntTextWidth(j + 1);
    IntTextWidth(CDiv(s.temperatures[j], 10));
    NatTextWidth(Abs(s.temperatures[j]) % 10);
  }

  /*** Worked examples ***/

  lemma NatTextOne(n: nat)
    requires n < 10
    ensures NatText(n) == [DigitChar(n)]
  {
  }

  lemma NatTextTwo(n: nat)
    requires 10 <= n < 100
    ensures NatText(n) == [DigitChar(n / 10), DigitChar(n % 10)]
  {
  }

  lemma NatTextThree(n: nat)
    requires 100 <= n < 1000
    ensures NatText(n) == [DigitChar(n / 100), DigitChar(n / 10 % 10), DigitChar(n % 10)]
    ensures Zero3(n) == NatText(n)
  {
    NatTextTwo(n / 10);
  }

  lemma DigitChars()
    ensures DigitChar(0) == '0' && DigitChar(1) == '1' && DigitChar(2) == '2' && DigitChar(3) == '3'
    ensures DigitChar(4) == '4' && DigitChar(5) == '5' && DigitChar(6) == '6' && DigitChar(7) == '7'
    ensures DigitChar(8) == '8' && DigitChar(9) == '9'
  {
  }

  lemma SocExample(soc: u8)
    requires soc == 76
    ensures SocLine(soc) == "SOC: 76%"
  {
    DigitChars();
    NatTextTwo(soc);
  }

  lemma PackExample(v: u32)
    requires v == 13205
    ensures PackLine(v) == "Pack Voltage: 13.205V"
  {
    DigitChars();
    NatTextTwo(v / 1000);
    NatTextThree(v % 1000);
  }

  /** 1.5 A of discharge carries a minus sign. */
  lemma CurrentExample(c: i32)
    requires c == -1500
    ensures CurrentLine(c) == "Current: -1.500A"
  {
    DigitChars();
    assert CDiv(c, 1000) == -1 && Abs(c) % 1000 == 500;
    NatTextOne(1);
    NatTextThree(500);
  }

  /** 0.5 A of discharge carries no sign at all. */
  lemma SmallDischargeExample(c: i32)
    requires c == -500
    ensures CurrentLine(c) == "Current: 0.500A"
  {
    DigitChars();
    assert CDiv(c, 1000) == 0 && Abs(c) % 1000 == 500;
    NatTextOne(0);
    NatTextThree(500);
  }

  /** The line of cell 2 (index 1) at 3.310 V while it is being balanced. */
  lemma CellExample(i: nat, v: u16, balancing: bool)
    requires i == 1 && v == 3310 && balancing
    ensures CellLine(i, v, balancing) == "  Cell  2: 3.310V [BAL]"
  {
    DigitChars();
    NatTextOne(i + 1);
    NatTextOne(v / 1000);
    NatTextThree(v % 1000);
  }

  /** Sensor 1 at 25.3 degC, and at -0.5 degC, which prints like +0.5 degC. */
  lemma SensorExamples(j: nat, t1: i16, t2: i16)
    requires j == 0 && t1 == 253 && t2 == -5
    ensures SensorLine(j, t1) == "  Sensor 1: 25.3" + DEGREES
    ensures SensorLine(j, t2) == "  Sensor 1: 0.5" + DEGREES
  {
    DigitChars();
    NatTextOne(j + 1);
    NatTextTwo(t1 / 10);
    NatTextOne(t1 % 10);
    TenthsTextCases(t2);
    NatTextOne(0);
    NatTextOne(5);
  }
}
