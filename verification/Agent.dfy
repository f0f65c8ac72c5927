/** The agent: its tables, the one trap log they share, and how the bus drives them. */
module Agent {
  import opened Oids
  import opened Rules
  import opened TableSpec

  /** The tables that can send traps; the software table never does. */
  datatype TableId = Temperature | Voltage | FanTach | Current | Power | Stock

  const ALL: seq<TableId> := [Temperature, Voltage, FanTach, Current, Power, Stock]

  const PROJECT := "/xyz/openbmc_project/"
  const SENSORS := "/xyz/openbmc_project/sensors/"
  const SOFTWARE := "/xyz/openbmc_project/software"

  const SENSOR_INTERFACES: seq<string> := [
    "xyz.openbmc_project.Sensor.Value",
    "xyz.openbmc_project.Sensor.Threshold.Warning",
    "xyz.openbmc_project.Sensor.Threshold.Critical",
    "xyz.openbmc_project.Sensor.Threshold.Fatal"
  ]

  const INVENTORY_INTERFACES: seq<string> := [
    "xyz.openbmc_project.Inventory.Item",
    "xyz.openbmc_project.Inventory.Decorator.Asset",
    "xyz.openbmc_project.Inventory.Decorator.Revision",
    "xyz.openbmc_project.State.Decorator.OperationalStatus"
  ]

  function KindOf(t: TableId): Kind {
    if t.Stock? then Inventory else Sensor
  }

  function FolderOf(t: TableId): string {
    match t
    case Temperature => SENSORS + "temperature"
    case Voltage => SENSORS + "voltage"
    case FanTach => SENSORS + "fan_tach"
    case Current => SENSORS + "current"
    case Power => SENSORS + "power"
    case Stock => PROJECT + "inventory"
  }

  function TableOid(t: TableId): Oid {
    match t
    case Temperature => YADRO + [1, 2]
    case Voltage => YADRO + [1, 3]
    case FanTach => YADRO + [1, 4]
    case Current => YADRO + [1, 5]
    case Power => YADRO + [1, 6]
    case Stock => YADRO + [4]
  }

  function ConfigOf(t: TableId): Config {
    Config(KindOf(t), FolderOf(t), if t.Stock? then INVENTORY_INTERFACES else SENSOR_INTERFACES)
  }

  function CellsOf(t: TableId, name: string): (r: seq<Oid>)
    ensures |r| == if t.Stock? then 2 else 1
  {
    Cells(KindOf(t), FolderOf(t), name)
  }

  /** The notification under which a table's traps go out. */
  function NotifyOf(t: TableId): Oid {
    if t.Stock? then INVENTORY_NOTIFY else SensorNotifyOid(FolderOf(t))
  }

  /** The columns whose cells the traps report. */
  function ReportedColumn(t: TableId, i: nat): nat {
    if !t.Stock? then 7 else if i == 0 then COLUMN_PRESENT else COLUMN_FUNCTIONAL
  }

  /** The OID under which a GET finds a cell: table, entry 1, column, index. */
  function GetOid(t: TableId, column: nat, name: string): Oid {
    TableOid(t) + [1, column] + NameIndex(name)
  }

  /** The last component of the folder of a sensor table. */
  function Component(t: TableId): string {
    match t
    case Temperature => "temperature"
    case Voltage => "voltage"
    case FanTach => "fan_tach"
    case Current => "current"
    case _ => "power"
  }

  lemma SensorFolders(t: TableId)
    requires !t.Stock?
    ensures FolderOf(t) == SENSORS[..28] + "/" + Component(t)
    ensures '/' !in Component(t)
  {
    assert |SENSORS| == 29 && SENSORS[28] == '/';
    assert SENSORS == SENSORS[..28] + "/";
  }

  /** The last arc of a sensor table's notification is the last arc of the table's own OID. */
  lemma NotificationMatchesTable(t: TableId)
    requires !t.Stock?
    ensures SensorNotifyOid(FolderOf(t)) == YADRO + [0, TableOid(t)[8]]
  {
    hide FolderOf, SensorNotifyOid, SensorScale;
    SensorFolders(t);
    FolderDecides(SENSORS[..28], Component(t));
  }

  /** Tachometers are served as they are, the other sensors in thousandths. */
  lemma ScaleOfTable(t: TableId)
    requires !t.Stock?
    ensures SensorScale(FolderOf(t)) == if t.FanTach? then 1.0 else 1000.0
  {
    hide FolderOf, SensorNotifyOid, SensorScale;
    SensorFolders(t);
    FolderDecides(SENSORS[..28], Component(t));
  }

  /** A trap reports the very cell that GET serves, as long as its OID fits the parse buffer. */
  lemma TrapCellIsGetCell(t: TableId, name: string, i: nat)
    requires i < |CellsOf(t, name)|
    ensures CellsOf(t, name)[i] ==
            var oid := GetOid(t, ReportedColumn(t, i), name);
            if |oid| <= MAX_OID_LEN then oid else []
  {
    hide FolderOf, NameIndex, SensorNotifyOid;
    if t.Stock? {
      assert YADRO + [4, 1, ReportedColumn(t, i)] + NameIndex(name) == GetOid(t, ReportedColumn(t, i), name);
    } else {
      NotificationMatchesTable(t);
      assert YADRO + [1, TableOid(t)[8], 1, 7] == TableOid(t) + [1, 7];
    }
  }

  /** A cell belongs to one table, one column and one name. */
  lemma GetOidInjective(t: TableId, c: nat, name: string, u: TableId, d: nat, other: string)
    requires GetOid(t, c, name) == GetOid(u, d, other)
    ensures t == u && c == d && name == other
  {
    var p, q := TableOid(t) + [1, c], TableOid(u) + [1, d];
    var oid := GetOid(t, c, name);
    assert oid[7] == TableOid(t)[7] == TableOid(u)[7];
    if !t.Stock? {
      assert oid[8] == TableOid(t)[8] == TableOid(u)[8];
    }
    assert t == u;
    assert oid[|p| - 1] == c == d;
    assert oid[|p|..] == NameIndex(name) == NameIndex(other);
    NameIndexInjective(name, other);
  }

  /** The name is short enough for the OIDs of its traps. */
  predicate Fits(t: TableId, name: string) {
    |name| <= if t.Stock? then 117 else 116
  }

  /** Rows of this name can send traps: a sensor needs OIDs that fit. */
  predicate Speaks(t: TableId, name: string) {
    t.Stock? || Fits(t, name)
  }

  lemma FitsIsHavingCells(t: TableId, name: string, i: nat)
    requires i < |CellsOf(t, name)|
    ensures Fits(t, name) <==> CellsOf(t, name)[i] != []
    ensures Fits(t, name) <==> CellsOf(t, name)[i] == GetOid(t, ReportedColumn(t, i), name)
  {
    TrapCellIsGetCell(t, name, i);
  }

  /** Rows of different names, tables or columns never report the same cell. */
  lemma CellsAreDisjoint(t: TableId, name: string, i: nat, u: TableId, other: string, j: nat)
    requires i < |CellsOf(t, name)| && j < |CellsOf(u, other)| && Fits(t, name)
    requires CellsOf(t, name)[i] == CellsOf(u, other)[j]
    ensures t == u && name == other && i == j
  {
    FitsIsHavingCells(t, name, i);
    FitsIsHavingCells(u, other, j);
    GetOidInjective(t, ReportedColumn(t, i), name, u, ReportedColumn(u, j), other);
  }

  datatype Agent = Agent(tables: map<TableId, Rows>, log: seq<Trap>)

  ghost predicate Whole(ag: Agent) {
    forall t: TableId :: t in ag.tables
  }

  const EMPTY: Agent := Agent(map t: TableId :: map[], [])

  function View(ag: Agent, t: TableId): State
    requires t in ag.tables
  {
    State(ag.tables[t], ag.log)
  }

  function With(ag: Agent, t: TableId, st: State): Agent {
    Agent(ag.tables[t := st.rows], st.log)
  }

  type Signal = ev: Event | !ev.Refreshed? witness Removed("", [])

  /** An order in which the bus calls the tables' handlers: each table once. */
  predicate IsOrder(ts: seq<TableId>) {
    && Temperature in ts && Voltage in ts && FanTach in ts && Current in ts && Power in ts && Stock in ts
    && (forall i, j :: 0 <= i < j < |ts| ==> ts[i] != ts[j])
  }

  type Order = ts: seq<TableId> | IsOrder(ts) witness ALL

  /** A bus signal reaches every table, in some order; `update()` concerns one. */
  datatype Input = Bus(signal: Signal, order: Order) | Update(t: TableId, snapshot: seq<Entry>)

  ghost function Apply(ag: Agent, t: TableId, ev: Event): Agent
    requires Whole(ag)
    ensures Whole(Apply(ag, t, ev))
  {
    With(ag, t, Step(ConfigOf(t), View(ag, t), ev).st)
  }

  /** Each table's own match gets the signal, in turn. */
  ghost function Broadcast(ag: Agent, ts: seq<TableId>, signal: Signal): (r: Agent)
    requires Whole(ag)
    ensures Whole(r)
    decreases |ts|
  {
    if ts == [] then ag else Broadcast(Apply(ag, ts[0], signal), ts[1..], signal)
  }

  ghost function React(ag: Agent, input: Input): (r: Agent)
    requires Whole(ag)
    ensures Whole(r)
  {
    match input
    case Bus(signal, order) => Broadcast(ag, order, signal)
    case Update(t, snapshot) => Apply(ag, t, Refreshed(snapshot))
  }

  ghost function After(inputs: seq<Input>): (r: Agent)
    ensures Whole(r)
  {
    if inputs == [] then EMPTY else React(After(inputs[..|inputs| - 1]), inputs[|inputs| - 1])
  }

  // Isolation

  /** No two of the seven folders are prefixes of one path. */
  lemma FoldersAreIsolated(path: string, t: TableId, u: TableId)
    requires Accepts(FolderOf(t), path)
    ensures Accepts(FolderOf(u), path) ==> t == u
    ensures !Accepts(SOFTWARE, path)
  {
    assert |PROJECT| == 21 && |SENSORS| == 29;
    assert SENSORS[21] == 's' && SENSORS[22] == 'e' && SOFTWARE[21] == 's' && SOFTWARE[22] == 'o';
    assert path[21] == FolderOf(t)[21] && path[22] == FolderOf(t)[22];
    if Accepts(FolderOf(u), path) {
      assert path[21] == FolderOf(u)[21];
      if !t.Stock? && !u.Stock? {
        assert path[29] == FolderOf(t)[29] == FolderOf(u)[29];
      }
    }
  }

  /** A table is left alone by the signals of paths outside its folder. */
  lemma OutsideSignalsAreIgnored(t: TableId, st: State, signal: Signal)
    requires !Accepts(FolderOf(t), signal.path)
    ensures Step(ConfigOf(t), st, signal) == Result(st, true)
  {
    if signal.Changed? && RowName(FolderOf(t), signal.path).Some? {
      var name := RowName(FolderOf(t), signal.path).value;
      assert FolderOf(t) <= PathOf(ConfigOf(t), name);
    }
  }

  lemma {:induction false} BroadcastOutside(ag: Agent, ts: seq<TableId>, signal: Signal)
    requires Whole(ag)
    requires forall t :: t in ts ==> !Accepts(FolderOf(t), signal.path)
    ensures Broadcast(ag, ts, signal) == ag
    decreases |ts|
  {
    if ts != [] {
      OutsideSignalsAreIgnored(ts[0], View(ag, ts[0]), signal);
      assert Apply(ag, ts[0], signal) == ag;
      BroadcastOutside(ag, ts[1..], signal);
    }
  }

  lemma {:induction false} BroadcastInside(ag: Agent, ts: seq<TableId>, signal: Signal, t: TableId)
    requires Whole(ag) && Accepts(FolderOf(t), signal.path)
    requires t in ts && forall i, j :: 0 <= i < j < |ts| ==> ts[i] != ts[j]
    ensures Broadcast(ag, ts, signal) == Apply(ag, t, signal)
    decreases |ts|
  {
    if ts[0] == t {
      forall u | u in ts[1..]
        ensures !Accepts(FolderOf(u), signal.path)
      {
        FoldersAreIsolated(signal.path, t, u);
      }
      BroadcastOutside(Apply(ag, t, signal), ts[1..], signal);
    } else {
      FoldersAreIsolated(signal.path, t, ts[0]);
      OutsideSignalsAreIgnored(ts[0], View(ag, ts[0]), signal);
      assert Apply(ag, ts[0], signal) == ag;
      BroadcastInside(ag, ts[1..], signal, t);
    }
  }

  /** A signal is the business of at most one table: the one whose folder the path starts with. */
  lemma SignalsConcernOneTable(ag: Agent, signal: Signal, order: Order)
    requires Whole(ag)
    ensures forall t :: Accepts(FolderOf(t), signal.path) ==> React(ag, Bus(signal, order)) == Apply(ag, t, signal)
    ensures (forall t :: !Accepts(FolderOf(t), signal.path)) ==> React(ag, Bus(signal, order)) == ag
  {
    forall t | Accepts(FolderOf(t), signal.path)
      ensures React(ag, Bus(signal, order)) == Apply(ag, t, signal)
    {
      BroadcastInside(ag, order, signal, t);
    }
    if forall t :: !Accepts(FolderOf(t), signal.path) {
      BroadcastOutside(ag, order, signal);
    }
  }
}
