/** What the two kinds of row show through GET, and the traps they send. */
module Rules {
  import opened Items
  import opened Oids

  datatype Kind = Sensor | Inventory

  /** The arguments of a table's constructor, with the template argument as `kind`. */
  datatype Config = Config(kind: Kind, folder: string, interfaces: seq<string>)

  datatype Binding = Binding(oid: Oid, value: int)
  datatype Trap = Trap(notify: Oid, bindings: seq<Binding>)

  const SENSOR_SCHEMA: Schema := [
    Column("Value", TDouble),
    Column("WarningLow", TDouble),
    Column("WarningAlarmLow", TBool),
    Column("WarningHigh", TDouble),
    Column("WarningAlarmHigh", TBool),
    Column("CriticalLow", TDouble),
    Column("CriticalAlarmLow", TBool),
    Column("CriticalHigh", TDouble),
    Column("CriticalAlarmHigh", TBool)
  ]

  /** Rows of both kinds have nine fields. */
  const FIELD_COUNT: nat := 9

  const FIELD_WARNLOW_ALARM: nat := 2
  const FIELD_WARNHI_ALARM: nat := 4
  const FIELD_CRITLOW_ALARM: nat := 6
  const FIELD_CRITHI_ALARM: nat := 8

  const INVENTORY_SCHEMA: Schema := [
    Column("PrettyName", TText),
    Column("Manufacturer", TText),
    Column("BuildDate", TText),
    Column("Model", TText),
    Column("PartNumber", TText),
    Column("SerialNumber", TText),
    Column("Version", TText),
    Column("Present", TBool),
    Column("Functional", TBool)
  ]

  const FIELD_PRESENT: nat := 7
  const FIELD_FUNCTIONAL: nat := 8

  function SchemaOf(kind: Kind): Schema {
    if kind.Sensor? then SENSOR_SCHEMA else INVENTORY_SCHEMA
  }

  /** What the row constructors put in the fields. */
  function DefaultData(kind: Kind): (d: Data)
    ensures |d| == FIELD_COUNT
  {
    match kind
    case Sensor =>
      [Double(0.0), Double(0.0), Bool(false), Double(0.0), Bool(false),
       Double(0.0), Bool(false), Double(0.0), Bool(false)]
    case Inventory =>
      [Text(""), Text(""), Text(""), Text(""), Text(""), Text(""), Text(""), Bool(false), Bool(false)]
  }

  lemma DefaultDataIsTyped(kind: Kind)
    ensures Typed(SchemaOf(kind), DefaultData(kind))
  {
  }

  const E_DISABLED := 0
  const E_NORMAL := 1
  const E_WARNING_LOW := 2
  const E_WARNING_HIGH := 3
  const E_CRITICAL_LOW := 4
  const E_CRITICAL_HIGH := 5

  predicate Flag(d: Data, i: nat) {
    i < |d| && d[i] == Bool(true)
  }

  /** `Sensor::getState`; a low warning is reported before a low critical alarm. */
  function StateOf(d: Data): int {
    if Flag(d, FIELD_CRITHI_ALARM) then E_CRITICAL_HIGH
    else if Flag(d, FIELD_WARNHI_ALARM) then E_WARNING_HIGH
    else if Flag(d, FIELD_WARNLOW_ALARM) then E_WARNING_LOW
    else if Flag(d, FIELD_CRITLOW_ALARM) then E_CRITICAL_LOW
    else E_NORMAL
  }

  /** The alarms in the order in which they are asked for, with the states they stand for. */
  const ALARMS: seq<(nat, int)> := [
    (FIELD_CRITHI_ALARM, E_CRITICAL_HIGH),
    (FIELD_WARNHI_ALARM, E_WARNING_HIGH),
    (FIELD_WARNLOW_ALARM, E_WARNING_LOW),
    (FIELD_CRITLOW_ALARM, E_CRITICAL_LOW)
  ]

  /** An alarm is shown exactly when it is set and none before it is; the last one is the low critical alarm. */
  lemma StateIsFirstAlarmSet(d: Data, k: nat)
    requires k < |ALARMS|
    ensures StateOf(d) == ALARMS[k].1 <==> Flag(d, ALARMS[k].0) && forall j :: 0 <= j < k ==> !Flag(d, ALARMS[j].0)
    ensures StateOf(d) == E_NORMAL <==> forall j :: 0 <= j < |ALARMS| ==> !Flag(d, ALARMS[j].0)
  {
    assert ALARMS[0].0 == 8 && ALARMS[1].0 == 4 && ALARMS[2].0 == 2 && ALARMS[3].0 == 6;
  }

  /** `std::round` on reals: to the nearest integer, halves away from zero. */
  function Round(x: real): int {
    if x >= 0.0 then (x + 0.5).Floor else -((0.5 - x).Floor)
  }

  /** `Sensor::getValue` over the reals. */
  function Scaled(x: real, scale: real): int {
    Round(x * scale)
  }

  lemma RoundIsNearest(x: real)
    ensures x >= 0.0 ==> -0.5 < Round(x) as real - x <= 0.5
    ensures x <= 0.0 ==> -0.5 <= Round(x) as real - x < 0.5
    ensures Round(-x) == -Round(x)
  {
  }

  /** SNMP booleans: true is 1, false is 2. */
  function TruthValue(b: bool): int {
    if b then 1 else 2
  }

  /** The values that a row's traps carry. */
  function Shown(kind: Kind, d: Data): seq<int> {
    match kind
    case Sensor => [StateOf(d)]
    case Inventory => [TruthValue(Flag(d, FIELD_PRESENT)), TruthValue(Flag(d, FIELD_FUNCTIONAL))]
  }

  /** The cells that a row's traps report. */
  function Cells(kind: Kind, folder: string, name: string): seq<Oid> {
    match kind
    case Sensor => [SensorStateOid(folder, name)]
    case Inventory => [InventoryOid(COLUMN_PRESENT, name), InventoryOid(COLUMN_FUNCTIONAL, name)]
  }

  /** `send_notify`: nothing is sent when one of the OIDs is missing. */
  function SensorTraps(folder: string, name: string, state: int): seq<Trap> {
    var notify, cell := SensorNotifyOid(folder), SensorStateOid(folder, name);
    if notify != [] && cell != [] then [Trap(notify, [Binding(cell, state)])] else []
  }

  function InventoryTrap(name: string, present: bool, functional: bool): Trap {
    Trap(INVENTORY_NOTIFY,
         [Binding(InventoryOid(COLUMN_PRESENT, name), TruthValue(present)),
          Binding(InventoryOid(COLUMN_FUNCTIONAL, name), TruthValue(functional))])
  }

  /** `onCreate` */
  function CreateTraps(kind: Kind, folder: string, name: string): seq<Trap> {
    match kind
    case Sensor => SensorTraps(folder, name, E_NORMAL)
    case Inventory => []
  }

  /** The end of `setFields`, with the data before and after. */
  function ChangeTraps(kind: Kind, folder: string, name: string, before: Data, after: Data): seq<Trap> {
    match kind
    case Sensor =>
      if StateOf(before) != StateOf(after) then SensorTraps(folder, name, StateOf(after)) else []
    case Inventory =>
      if Flag(before, FIELD_PRESENT) != Flag(after, FIELD_PRESENT)
         || Flag(before, FIELD_FUNCTIONAL) != Flag(after, FIELD_FUNCTIONAL)
      then [InventoryTrap(name, Flag(after, FIELD_PRESENT), Flag(after, FIELD_FUNCTIONAL))]
      else []
  }

  /** `onDestroy` */
  function DestroyTraps(kind: Kind, folder: string, name: string, d: Data): seq<Trap> {
    match kind
    case Sensor => SensorTraps(folder, name, E_DISABLED)
    case Inventory =>
      if Flag(d, FIELD_PRESENT) || Flag(d, FIELD_FUNCTIONAL) then [InventoryTrap(name, false, false)] else []
  }
}
