/**
 * The agent from outside, in object paths, property names, MIB columns and OID arcs, and
 * the rules of a row in these terms. The definitions here are not those by which the
 * model computes; the lemmas say that the two agree.
 */
module Terms {
  import opened Items
  import opened Oids
  import opened Row
  import opened Rules
  import opened TableSpec
  import opened Agent
  import opened Reconcile

  // The outside world's terms

  function Folder(t: TableId): string {
    match t
    case Temperature => "/xyz/openbmc_project/sensors/" + "temperature"
    case Voltage => "/xyz/openbmc_project/sensors/" + "voltage"
    case FanTach => "/xyz/openbmc_project/sensors/" + "fan_tach"
    case Current => "/xyz/openbmc_project/sensors/" + "current"
    case Power => "/xyz/openbmc_project/sensors/" + "power"
    case Stock => "/xyz/openbmc_project/" + "inventory"
  }

  function ObjectPath(t: TableId, name: string): string {
    Folder(t) + "/" + name
  }

  /** The interfaces by which a table knows its objects. */
  predicate Known(t: TableId, interface: string) {
    if t.Stock? then
      || interface == "xyz.openbmc_project.Inventory.Item"
      || interface == "xyz.openbmc_project.Inventory.Decorator.Asset"
      || interface == "xyz.openbmc_project.Inventory.Decorator.Revision"
      || interface == "xyz.openbmc_project.State.Decorator.OperationalStatus"
    else
      || interface == "xyz.openbmc_project.Sensor.Value"
      || interface == "xyz.openbmc_project.Sensor.Threshold.Warning"
      || interface == "xyz.openbmc_project.Sensor.Threshold.Critical"
      || interface == "xyz.openbmc_project.Sensor.Threshold.Fatal"
  }

  /** The bus property behind each field. */
  function Property(t: TableId, i: nat): string {
    if t.Stock? then
      match i
      case 0 => "PrettyName"
      case 1 => "Manufacturer"
      case 2 => "BuildDate"
      case 3 => "Model"
      case 4 => "PartNumber"
      case 5 => "SerialNumber"
      case 6 => "Version"
      case 7 => "Present"
      case _ => "Functional"
    else
      match i
      case 0 => "Value"
      case 1 => "WarningLow"
      case 2 => "WarningAlarmLow"
      case 3 => "WarningHigh"
      case 4 => "WarningAlarmHigh"
      case 5 => "CriticalLow"
      case 6 => "CriticalAlarmLow"
      case 7 => "CriticalHigh"
      case _ => "CriticalAlarmHigh"
  }

  /** The value has the type of the field. */
  predicate Suits(t: TableId, i: nat, v: Variant) {
    if t.Stock? then (if i < 7 then v.Text? else v.Bool?)
    else if i == 2 || i == 4 || i == 6 || i == 8 then v.Bool?
    else v.Double?
  }

  function Blank(t: TableId): (d: Data)
    ensures |d| == 9
  {
    if t.Stock? then
      [Text(""), Text(""), Text(""), Text(""), Text(""), Text(""), Text(""), Bool(false), Bool(false)]
    else
      [Double(0.0), Double(0.0), Bool(false), Double(0.0), Bool(false),
       Double(0.0), Bool(false), Double(0.0), Bool(false)]
  }

  /** Each field takes the value of its property, if that came with the field's type. */
  function Overwrite(t: TableId, d: Data, fields: Fields): (r: Data)
    requires |d| == 9
    ensures |r| == 9
  {
    seq(9, i requires 0 <= i < 9 =>
      if Property(t, i) in fields && Suits(t, i, fields[Property(t, i)]) then fields[Property(t, i)] else d[i])
  }

  function OverwriteAll(t: TableId, d: Data, maps: seq<Fields>): (r: Data)
    requires |d| == 9
    ensures |r| == 9
    decreases |maps|
  {
    if maps == [] then d else OverwriteAll(t, Overwrite(t, d, maps[0]), maps[1..])
  }

  function Truth(v: Variant): int {
    if v == Bool(true) then 1 else 2
  }

  /** What column 7 of a sensor, or columns 9 and 10 of an item, show. */
  function Visible(t: TableId, d: Data): seq<int>
    requires |d| == 9
  {
    if t.Stock? then [Truth(d[7]), Truth(d[8])]
    else if d[8] == Bool(true) then [5]
    else if d[4] == Bool(true) then [3]
    else if d[2] == Bool(true) then [2]
    else if d[6] == Bool(true) then [4]
    else [1]
  }

  /** A cell of a table: its OID, entry 1, the column, and the name with its length before it. */
  function TableCell(t: TableId, column: nat, name: string): Oid {
    [1, 3, 6, 1, 4, 1, 49769]
    + (match t
       case Temperature => [1, 2]
       case Voltage => [1, 3]
       case FanTach => [1, 4]
       case Current => [1, 5]
       case Power => [1, 6]
       case Stock => [4])
    + [1, column, |name|] + seq(|name|, i requires 0 <= i < |name| => name[i] as int)
  }

  function Notification(t: TableId): Oid {
    [1, 3, 6, 1, 4, 1, 49769, 0]
    + (match t
       case Temperature => [2]
       case Voltage => [3]
       case FanTach => [4]
       case Current => [5]
       case Power => [6]
       case Stock => [7])
  }

  /** A trap that reports values of a row; the cells of an item with a long name come out empty. */
  function Report(t: TableId, name: string, values: seq<int>): Trap
    requires |values| == if t.Stock? then 2 else 1
  {
    Trap(Notification(t),
         if !t.Stock? then [Binding(TableCell(t, 7, name), values[0])]
         else if |name| <= 117 then
           [Binding(TableCell(t, 9, name), values[0]), Binding(TableCell(t, 10, name), values[1])]
         else [Binding([], values[0]), Binding([], values[1])])
  }

  /** The report, unless the row is a sensor with a long name. */
  function Tell(t: TableId, name: string, values: seq<int>): seq<Trap>
    requires |values| == if t.Stock? then 2 else 1
  {
    if t.Stock? || |name| <= 116 then [Report(t, name, values)] else []
  }

  function Welcome(t: TableId, name: string): seq<Trap> {
    if t.Stock? then [] else Tell(t, name, [1])
  }

  function Farewell(t: TableId, name: string, d: Data): seq<Trap>
    requires |d| == 9
  {
    if !t.Stock? then Tell(t, name, [0]) else if Visible(t, d) == [2, 2] then [] else Tell(t, name, [2, 2])
  }

  /** One report for every map that changes what is visible. */
  function Changes(t: TableId, name: string, d: Data, maps: seq<Fields>): seq<Trap>
    requires |d| == 9
    decreases |maps|
  {
    if maps == [] then []
    else
      var next := Overwrite(t, d, maps[0]);
      (if Visible(t, d) == Visible(t, next) then [] else Tell(t, name, Visible(t, next)))
      + Changes(t, name, next, maps[1..])
  }

  ghost predicate Nine(rows: Rows) {
    forall n :: n in rows ==> |rows[n]| == 9
  }

  function Start(t: TableId, rows: Rows, name: string): (d: Data)
    requires name in rows ==> |rows[name]| == 9
    ensures |d| == 9
  {
    if name in rows then rows[name] else Blank(t)
  }

  /** The traps about a row that is made if it is missing and takes the maps in turn. */
  function Story(t: TableId, rows: Rows, name: string, maps: seq<Fields>): seq<Trap>
    requires name in rows ==> |rows[name]| == 9
  {
    (if name in rows then [] else Welcome(t, name)) + Changes(t, name, Start(t, rows, name), maps)
  }

  function MapsOf(data: seq<(string, Fields)>): seq<Fields> {
    seq(|data|, i requires 0 <= i < |data| => data[i].1)
  }

  // The model in those terms

  lemma FolderIs(t: TableId)
    ensures FolderOf(t) == Folder(t)
    ensures forall name :: PathOf(ConfigOf(t), name) == ObjectPath(t, name)
  {
  }

  lemma InterfacesAreKnown(t: TableId)
    ensures ConfigOf(t).interfaces != []
    ensures forall x :: x in ConfigOf(t).interfaces <==> Known(t, x)
  {
  }

  lemma FieldIs(t: TableId, i: nat, v: Variant)
    requires i < 9
    ensures |SchemaOf(KindOf(t))| == 9
    ensures SchemaOf(KindOf(t))[i].property == Property(t, i)
    ensures HoldsType(v, SchemaOf(KindOf(t))[i].ty) <==> Suits(t, i, v)
  {
    if t.Stock? {
      assert SchemaOf(KindOf(t))[i] == INVENTORY_SCHEMA[i];
    } else {
      assert SchemaOf(KindOf(t))[i] == SENSOR_SCHEMA[i];
    }
  }

  lemma MergeOverwrites(t: TableId, d: Data, fields: Fields)
    requires |d| == 9
    ensures Merge(SchemaOf(KindOf(t)), d, fields) == Overwrite(t, d, fields)
  {
    hide SchemaOf, Property, Suits, KindOf, HoldsType;
    forall i | 0 <= i < 9
      ensures Merge(SchemaOf(KindOf(t)), d, fields)[i] == Overwrite(t, d, fields)[i]
    {
      var p := Property(t, i);
      FieldIs(t, i, if p in fields then fields[p] else d[i]);
    }
  }

  lemma {:induction false} MergeAllOverwrites(t: TableId, d: Data, maps: seq<Fields>)
    requires |d| == 9
    ensures MergeAll(SchemaOf(KindOf(t)), d, maps) == OverwriteAll(t, d, maps)
    decreases |maps|
  {
    hide Merge, SchemaOf, Overwrite, KindOf;
    if maps != [] {
      MergeOverwrites(t, d, maps[0]);
      MergeAllOverwrites(t, Overwrite(t, d, maps[0]), maps[1..]);
    }
  }

  lemma ShownIsVisible(t: TableId, d: Data)
    requires |d| == 9
    ensures Shown(KindOf(t), d) == Visible(t, d)
  {
  }

  lemma CellIs(t: TableId, column: nat, name: string)
    ensures GetOid(t, column, name) == TableCell(t, column, name)
    ensures |TableCell(t, column, name)| == |name| + (if t.Stock? then 11 else 12)
  {
    assert Codes(name) == seq(|name|, i requires 0 <= i < |name| => name[i] as int);
  }

  lemma SensorTrapsTell(t: TableId, name: string, state: int)
    requires !t.Stock?
    ensures SensorTraps(FolderOf(t), name, state) == Tell(t, name, [state])
  {
    hide FolderOf, SensorNotifyOid, SensorStateOid, GetOid, TableCell, MakeOid, Fits;
    NotificationMatchesTable(t);
    FitsIsHavingCells(t, name, 0);
    LongNamesDoNotFit(t, name);
    CellIs(t, 7, name);
    assert CellsOf(t, name)[0] == SensorStateOid(FolderOf(t), name);
    assert SensorNotifyOid(FolderOf(t)) == Notification(t);
  }

  lemma LongNamesDoNotFit(t: TableId, name: string)
    ensures Fits(t, name) <==> |name| <= if t.Stock? then 117 else 116
  {
  }

  lemma InventoryTrapTells(name: string, present: bool, functional: bool)
    ensures [InventoryTrap(name, present, functional)]
         == Tell(Stock, name, [Truth(Bool(present)), Truth(Bool(functional))])
  {
    hide InventoryOid, GetOid, TableCell, MakeOid, Fits, Notification;
    FitsIsHavingCells(Stock, name, 0);
    FitsIsHavingCells(Stock, name, 1);
    LongNamesDoNotFit(Stock, name);
    CellIs(Stock, 9, name);
    CellIs(Stock, 10, name);
    assert CellsOf(Stock, name)[0] == InventoryOid(COLUMN_PRESENT, name);
    assert CellsOf(Stock, name)[1] == InventoryOid(COLUMN_FUNCTIONAL, name);
    InventoryNotificationIs();
  }

  lemma InventoryNotificationIs()
    ensures INVENTORY_NOTIFY == Notification(Stock)
  {
  }

  lemma CreateTrapsWelcome(t: TableId, name: string)
    ensures CreateTraps(KindOf(t), FolderOf(t), name) == Welcome(t, name)
  {
    hide FolderOf, SensorTraps, Tell;
    if !t.Stock? {
      SensorTrapsTell(t, name, 1);
    }
  }

  lemma DestroyTrapsFarewell(t: TableId, name: string, d: Data)
    requires |d| == 9
    ensures DestroyTraps(KindOf(t), FolderOf(t), name, d) == Farewell(t, name, d)
  {
    hide FolderOf, SensorTraps, InventoryTrap, Tell;
    if t.Stock? {
      InventoryTrapTells(name, false, false);
    } else {
      SensorTrapsTell(t, name, 0);
    }
  }

  lemma ChangeTrapsTell(t: TableId, name: string, d: Data, next: Data)
    requires |d| == |next| == 9
    ensures ChangeTraps(KindOf(t), FolderOf(t), name, d, next)
         == if Visible(t, d) == Visible(t, next) then [] else Tell(t, name, Visible(t, next))
  {
    hide FolderOf, SensorTraps, InventoryTrap, Tell;
    if t.Stock? {
      InventoryTrapTells(name, Flag(next, FIELD_PRESENT), Flag(next, FIELD_FUNCTIONAL));
    } else {
      SensorTrapsTell(t, name, StateOf(next));
      ShownIsVisible(t, d);
      ShownIsVisible(t, next);
    }
  }

  lemma {:induction false} SetTrapsAreChanges(t: TableId, name: string, d: Data, maps: seq<Fields>)
    requires |d| == 9
    ensures SetTraps(ConfigOf(t), name, d, maps) == Changes(t, name, d, maps)
    decreases |maps|
  {
    hide FolderOf, KindOf, SchemaOf, ChangeTraps, Merge, Visible, Overwrite, Tell;
    if maps != [] {
      var next := Overwrite(t, d, maps[0]);
      MergeOverwrites(t, d, maps[0]);
      ChangeTrapsTell(t, name, d, next);
      SetTrapsAreChanges(t, name, next, maps[1..]);
    }
  }

  lemma TouchedRow(t: TableId, st: State, name: string, d: Data)
    requires name in st.rows ==> |st.rows[name]| == 9
    ensures var touched := Touch(ConfigOf(t), st, name);
            && name in touched.rows && touched.rows[name] == Start(t, st.rows, name)
            && touched.rows[name := d] == st.rows[name := d]
            && touched.log == st.log + (if name in st.rows then [] else Welcome(t, name))
  {
    hide FolderOf, KindOf, CreateTraps, Welcome, Blank, DefaultData;
    DefaultIsBlank(t);
    CreateTrapsWelcome(t, name);
  }

  /** A row is made if it is missing, takes the maps in turn, and its story is told. */
  lemma WritingARow(t: TableId, st: State, name: string, maps: seq<Fields>)
    requires name in st.rows ==> |st.rows[name]| == 9
    ensures AssignAll(ConfigOf(t), Touch(ConfigOf(t), st, name), name, maps) ==
            State(st.rows[name := OverwriteAll(t, Start(t, st.rows, name), maps)],
                  st.log + Story(t, st.rows, name, maps))
  {
    hide FolderOf, KindOf, SchemaOf, SetTraps, MergeAll, OverwriteAll, Welcome, Changes, Start, Touch;
    var touched, d := Touch(ConfigOf(t), st, name), Start(t, st.rows, name);
    TouchedRow(t, st, name, OverwriteAll(t, d, maps));
    AssignAllResult(ConfigOf(t), touched, name, maps);
    SetTrapsAreChanges(t, name, d, maps);
    MergeAllOverwrites(t, d, maps);
    var welcome := if name in st.rows then [] else Welcome(t, name);
    assert (st.log + welcome) + Changes(t, name, d, maps) == st.log + (welcome + Changes(t, name, d, maps));
  }

  lemma DefaultIsBlank(t: TableId)
    ensures DefaultData(KindOf(t)) == Blank(t)
  {
  }

  lemma OwnedIsKnown(t: TableId, names: seq<string>)
    ensures Owned(ConfigOf(t), names) <==> exists x :: x in names && Known(t, x)
  {
    hide Known, ConfigOf;
    InterfacesAreKnown(t);
  }

  lemma NotificationIs(t: TableId)
    ensures NotifyOf(t) == Notification(t)
  {
    hide FolderOf, SensorNotifyOid;
    if !t.Stock? {
      NotificationMatchesTable(t);
    }
  }

  lemma CellsAre(t: TableId, name: string)
    ensures !t.Stock? && |name| <= 116 ==> CellsOf(t, name) == [TableCell(t, 7, name)]
    ensures t.Stock? ==> CellsOf(t, name) == if |name| <= 117 then [TableCell(t, 9, name), TableCell(t, 10, name)]
                                             else [[], []]
  {
    hide CellsOf, GetOid, TableCell, Fits;
    LongNamesDoNotFit(t, name);
    FitsIsHavingCells(t, name, 0);
    CellIs(t, ReportedColumn(t, 0), name);
    if t.Stock? {
      FitsIsHavingCells(t, name, 1);
      CellIs(t, ReportedColumn(t, 1), name);
    }
  }

  // GET

  /** The integer nearest to a number; of two, the one farther from zero. */
  predicate Nearest(n: int, x: real) {
    var off := n as real - x;
    -0.5 <= off <= 0.5 && (off == 0.5 ==> x > 0.0) && (off == -0.5 ==> x < 0.0)
  }

  /** Sensors are served in thousandths, tachometers in whole turns. */
  lemma NumbersAreNearest(t: TableId, x: real)
    requires !t.Stock?
    ensures Nearest(Scaled(x, SensorScale(FolderOf(t))), x * (if t.FanTach? then 1.0 else 1000.0))
  {
    hide FolderOf, SensorScale;
    ScaleOfTable(t);
  }

  lemma NearestIsUnique(m: int, n: int, x: real)
    requires Nearest(m, x) && Nearest(n, x)
    ensures m == n
  {
  }

  predicate IsOn(fields: Fields, property: string, before: Variant) {
    if property in fields && fields[property].Bool? then fields[property].b else before == Bool(true)
  }

  /** The state that column 7 serves once a map is stored: the first alarm that is on then. */
  lemma SensorStateAfterStoring(d: Data, fields: Fields)
    requires |d| == 9
    ensures StateOf(Merge(SchemaOf(Sensor), d, fields)) ==
            if IsOn(fields, "CriticalAlarmHigh", d[8]) then 5
            else if IsOn(fields, "WarningAlarmHigh", d[4]) then 3
            else if IsOn(fields, "WarningAlarmLow", d[2]) then 2
            else if IsOn(fields, "CriticalAlarmLow", d[6]) then 4
            else 1
  {
    hide SchemaOf, Merge;
    MergeOverwrites(Temperature, d, fields);
    ShownIsVisible(Temperature, Overwrite(Temperature, d, fields));
  }

  /** What a GET of a column answers for a row. */
  ghost predicate Answers(reply: Reply, t: TableId, name: string, d: Data, column: nat)
    requires |d| == 9
  {
    if column == 1 then reply == Octets(name)
    else if t.Stock? && 2 <= column <= 8 then d[column - 2].Text? && reply == Octets(d[column - 2].s)
    else if t.Stock? && 9 <= column <= 10 then reply == Integer(Visible(t, d)[column - 9])
    else if !t.Stock? && 2 <= column <= 6 then
      var v := d[[0, 1, 3, 5, 7][column - 2]];
      v.Double? && reply.Integer? && Nearest(reply.i, v.d * (if t.FanTach? then 1.0 else 1000.0))
    else if !t.Stock? && column == 7 then reply == Integer(Visible(t, d)[0])
    else reply == NoSuchObject
  }
}
