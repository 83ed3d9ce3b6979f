/**
 * The telemetry snapshot `SharedBMSData_t`, the battery-monitor reading it is
 * filled from, and the transform that `UpdateSharedData` applies: fields copied
 * verbatim, seven protection booleans and two FET booleans packed into bytes.
 */
module BmsData {
  import opened CInt

  /** Capacity of the cell-voltage array and number of temperature sensors. */
  const CELL_CAPACITY := 16
  const SENSOR_COUNT := 4

  type CellVoltages = s: seq<u16> | |s| == CELL_CAPACITY witness seq(CELL_CAPACITY, _ => 0)
  type Temperatures = s: seq<i16> | |s| == SENSOR_COUNT witness seq(SENSOR_COUNT, _ => 0)

  datatype ProtectionStatus = ProtectionStatus(
    overvoltage: bool,
    undervoltage: bool,
    overcurrentCharge: bool,
    overcurrentDischarge: bool,
    overtemperature: bool,
    undertemperature: bool,
    shortCircuit: bool)

  datatype FetState = FetState(chargeFET: bool, dischargeFET: bool)

  /** The driver's reading (`BQ76952_Data_t`), as far as the firmware reads it. */
  datatype Reading = Reading(
    cellVoltages: CellVoltages,
    stackVoltage: u32,
    current: i32,
    temperatures: Temperatures,
    soc: u8,
    numCells: u8,
    protectionStatus: ProtectionStatus,
    fetStatus: FetState,
    balancingCells: bv16)

  /** `SharedBMSData_t`: voltages in mV, current in mA, temperatures in 0.1 degC. */
  datatype Snapshot = Snapshot(
    cellVoltages: CellVoltages,
    packVoltage: u32,
    current: i32,
    temperatures: Temperatures,
    soc: u8,
    numCells: u8,
    protectionFlags: bv8,
    fetStatus: bv8,
    balancingStatus: bv16,
    timestamp: u32)

  /** The static initialiser `{0}`. */
  const ZeroSnapshot := Snapshot(seq(CELL_CAPACITY, _ => 0), 0, 0, seq(SENSOR_COUNT, _ => 0), 0, 0, 0, 0, 0, 0)

  predicate Bit8(x: bv8, i: nat)
    requires i < 8
  {
    x & (1 << i) != 0
  }

  predicate Bit16(x: bv16, i: nat)
    requires i < 16
  {
    x & (1 << i) != 0
  }

  /** A C `bool` promoted to an integer before it is shifted. */
  function BoolBit(b: bool): (r: bv8)
    ensures r == 0 || r == 1
    ensures b <==> r == 1
  {
    if b then 1 else 0
  }

  /** The protection booleans in the bit order of `protectionFlags`. */
  function ProtectionFlag(p: ProtectionStatus, i: nat): bool
    requires i < 7
  {
    match i
    case 0 => p.overvoltage
    case 1 => p.undervoltage
    case 2 => p.overcurrentCharge
    case 3 => p.overcurrentDischarge
    case 4 => p.overtemperature
    case 5 => p.undertemperature
    case _ => p.shortCircuit
  }

  /** `protectionFlags`: cleared, then one `|=` per boolean at bits 0 to 6. */
  function PackProtection(p: ProtectionStatus): (f: bv8)
    ensures forall i :: 0 <= i < 7 ==> (Bit8(f, i) <==> ProtectionFlag(p, i))
    ensures !Bit8(f, 7)
  {
    var f: bv8 := 0;
    var f := f | (BoolBit(p.overvoltage) << 0);
    var f := f | (BoolBit(p.undervoltage) << 1);
    var f := f | (BoolBit(p.overcurrentCharge) << 2);
    var f := f | (BoolBit(p.overcurrentDischarge) << 3);
    var f := f | (BoolBit(p.overtemperature) << 4);
    var f := f | (BoolBit(p.undertemperature) << 5);
    var f := f | (BoolBit(p.shortCircuit) << 6);
    f
  }

  /** `fetStatus`: cleared, then the charge FET at bit 0 and the discharge FET at bit 1. */
  function PackFet(s: FetState): (f: bv8)
    ensures Bit8(f, 0) <==> s.chargeFET
    ensures Bit8(f, 1) <==> s.dischargeFET
    ensures forall i :: 2 <= i < 8 ==> !Bit8(f, i)
  {
    var f: bv8 := 0;
    var f := f | (BoolBit(s.chargeFET) << 0);
    var f := f | (BoolBit(s.dischargeFET) << 1);
    f
  }

  /** Reads the seven protection booleans back out of `protectionFlags`. */
  function UnpackProtection(f: bv8): ProtectionStatus
  {
    ProtectionStatus(Bit8(f, 0), Bit8(f, 1), Bit8(f, 2), Bit8(f, 3), Bit8(f, 4), Bit8(f, 5), Bit8(f, 6))
  }

  function UnpackFet(f: bv8): FetState
  {
    FetState(Bit8(f, 0), Bit8(f, 1))
  }

  lemma UnpackPackProtection(p: ProtectionStatus)
    ensures UnpackProtection(PackProtection(p)) == p
  {
    var f := PackProtection(p);
    assert Bit8(f, 0) == ProtectionFlag(p, 0) && Bit8(f, 1) == ProtectionFlag(p, 1);
    assert Bit8(f, 2) == ProtectionFlag(p, 2) && Bit8(f, 3) == ProtectionFlag(p, 3);
    assert Bit8(f, 4) == ProtectionFlag(p, 4) && Bit8(f, 5) == ProtectionFlag(p, 5);
    assert Bit8(f, 6) == ProtectionFlag(p, 6);
  }

  /** Every byte whose bit 7 is clear is the packing of exactly one status. */
  lemma PackUnpackProtection(f: bv8)
    requires !Bit8(f, 7)
    ensures PackProtection(UnpackProtection(f)) == f
  {
  }

  lemma UnpackPackFet(s: FetState)
    ensures UnpackFet(PackFet(s)) == s
  {
  }

  lemma PackUnpackFet(f: bv8)
    requires forall i :: 2 <= i < 8 ==> !Bit8(f, i)
    ensures PackFet(UnpackFet(f)) == f
  {
    assert !Bit8(f, 2) && !Bit8(f, 3) && !Bit8(f, 4) && !Bit8(f, 5) && !Bit8(f, 6) && !Bit8(f, 7);
  }

  /**
   * The snapshot after `UpdateSharedData(r)` starting from `prev`: everything is
   * taken from the reading except the timestamp, which is left as it was.
   */
  function Updated(prev: Snapshot, r: Reading): (s: Snapshot)
    ensures s.cellVoltages == r.cellVoltages && s.temperatures == r.temperatures
    ensures s.packVoltage == r.stackVoltage && s.current == r.current
    ensures s.soc == r.soc && s.numCells == r.numCells
    ensures s.balancingStatus == r.balancingCells
    ensures UnpackProtection(s.protectionFlags) == r.protectionStatus && !Bit8(s.protectionFlags, 7)
    ensures UnpackFet(s.fetStatus) == r.fetStatus
    ensures forall i :: 2 <= i < 8 ==> !Bit8(s.fetStatus, i)
    ensures s.timestamp == prev.timestamp
  {
    UnpackPackProtection(r.protectionStatus);
    UnpackPackFet(r.fetStatus);
    Snapshot(r.cellVoltages, r.stackVoltage, r.current, r.temperatures, r.soc, r.numCells,
             PackProtection(r.protectionStatus), PackFet(r.fetStatus), r.balancingCells, prev.timestamp)
  }

  /** The update overwrites in full: the previous snapshot survives only in the timestamp. */
  lemma UpdatedForgetsPrevious(p1: Snapshot, p2: Snapshot, r: Reading)
    ensures Updated(p1, r) == Updated(p2, r).(timestamp := p1.timestamp)
  {
  }

  /** Applying the same reading twice is the same as applying it once. */
  lemma UpdatedIdempotent(p: Snapshot, r: Reading)
    ensures Updated(Updated(p, r), r) == Updated(p, r)
  {
  }
}
