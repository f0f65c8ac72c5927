/** The trap guarantees over every run of the agent. */
module Runs {
  import opened Wrappers
  import opened Names
  import opened Items
  import opened Oids
  import opened Rules
  import opened TableSpec
  import opened Agent
  import opened Mirror

  // Every input keeps the invariant

  /** The invariant, with one table's part taken from a state in the middle of an operation. */
  ghost predicate Amid(ag: Agent, t: TableId, st: State, seen: RowSet) {
    Inv(With(ag, t, st), seen)
  }

  lemma WithTwice(ag: Agent, t: TableId, st: State, next: State)
    ensures With(With(ag, t, st), t, next) == With(ag, t, next)
    ensures View(With(ag, t, st), t) == st
  {
  }

  lemma TouchAmid(ag: Agent, t: TableId, st: State, seen: RowSet, name: string)
    requires Amid(ag, t, st, seen)
    ensures Amid(ag, t, Touch(ConfigOf(t), st, name), seen)
  {
    var next := Touch(ConfigOf(t), st, name);
    WithTwice(ag, t, st, next);
    TouchKeepsInv(With(ag, t, st), seen, t, name);
  }

  lemma AssignAmid(ag: Agent, t: TableId, st: State, seen: RowSet, name: string, fields: Fields)
    requires Amid(ag, t, st, seen) && name in st.rows
    ensures Amid(ag, t, Assign(ConfigOf(t), st, name, fields), seen)
  {
    var next := Assign(ConfigOf(t), st, name, fields);
    WithTwice(ag, t, st, next);
    AssignKeepsInv(With(ag, t, st), seen, t, name, fields);
  }

  lemma DropAmid(ag: Agent, t: TableId, st: State, seen: RowSet, name: string)
    requires Amid(ag, t, st, seen) && (name in st.rows ==> (t, name) in seen)
    ensures Amid(ag, t, Drop(ConfigOf(t), st, name), seen)
  {
    var next := Drop(ConfigOf(t), st, name);
    WithTwice(ag, t, st, next);
    DropKeepsInv(With(ag, t, st), seen, t, name);
  }

  lemma {:induction false} AssignAllAmid(ag: Agent, t: TableId, st: State, seen: RowSet, name: string,
                                         maps: seq<Fields>)
    requires Amid(ag, t, st, seen) && name in st.rows
    ensures Amid(ag, t, AssignAll(ConfigOf(t), st, name, maps), seen)
    decreases |maps|
  {
    if maps != [] {
      AssignAmid(ag, t, st, seen, name, maps[0]);
      AssignAllAmid(ag, t, Assign(ConfigOf(t), st, name, maps[0]), seen, name, maps[1..]);
    }
  }

  lemma {:induction false} DropVanishedAmid(ag: Agent, t: TableId, st: State, seen: RowSet, names: seq<string>,
                                            paths: set<string>)
    requires Amid(ag, t, st, seen)
    requires forall n :: n in names ==> (t, n) in seen
    ensures Amid(ag, t, DropVanished(ConfigOf(t), st, names, paths), seen)
    decreases |names|
  {
    if names != [] {
      DropAmid(ag, t, st, seen, names[0]);
      var next := if PathOf(ConfigOf(t), names[0]) in paths then st else Drop(ConfigOf(t), st, names[0]);
      DropVanishedAmid(ag, t, next, seen, names[1..], paths);
    }
  }

  lemma {:induction false} PopulateEntryAmid(ag: Agent, t: TableId, st: State, seen: RowSet, path: string,
                                             services: seq<Fields>)
    requires Amid(ag, t, st, seen)
    ensures Amid(ag, t, PopulateEntry(ConfigOf(t), st, path, services).st, seen)
    decreases |services|
  {
    var name := RowName(FolderOf(t), path);
    if services != [] && name.Some? {
      TouchAmid(ag, t, st, seen, name.value);
      var touched := Touch(ConfigOf(t), st, name.value);
      AssignAmid(ag, t, touched, seen, name.value, services[0]);
      PopulateEntryAmid(ag, t, Assign(ConfigOf(t), touched, name.value, services[0]), seen, path, services[1..]);
    }
  }

  lemma {:induction false} PopulateAmid(ag: Agent, t: TableId, st: State, seen: RowSet, snapshot: seq<Entry>)
    requires Amid(ag, t, st, seen)
    ensures Amid(ag, t, Populate(ConfigOf(t), st, snapshot).st, seen)
    decreases |snapshot|
  {
    if snapshot != [] {
      PopulateEntryAmid(ag, t, st, seen, snapshot[0].path, snapshot[0].services);
      var r := PopulateEntry(ConfigOf(t), st, snapshot[0].path, snapshot[0].services);
      if r.ok {
        PopulateAmid(ag, t, r.st, seen, snapshot[1..]);
      }
    }
  }

  ghost predicate SeenAll(ag: Agent, seen: RowSet) {
    forall t, n :: t in ag.tables && n in ag.tables[t] ==> (t, n) in seen
  }

  lemma ApplyKeepsInv(ag: Agent, seen: RowSet, t: TableId, ev: Event)
    requires Inv(ag, seen) && SeenAll(ag, seen)
    ensures Inv(Apply(ag, t, ev), seen)
  {
    var st, cfg := View(ag, t), ConfigOf(t);
    assert With(ag, t, st) == ag;
    match ev
    case Added(path, data) =>
      var name := RowName(FolderOf(t), path);
      if Accepts(FolderOf(t), path) && Owned(cfg, FirstOf(data)) && name.Some? {
        TouchAmid(ag, t, st, seen, name.value);
        AssignAllAmid(ag, t, Touch(cfg, st, name.value), seen, name.value, SecondOf(data));
      }
    case Removed(path, names) =>
      var name := RowName(FolderOf(t), path);
      if Accepts(FolderOf(t), path) && Owned(cfg, names) && name.Some? {
        DropAmid(ag, t, st, seen, name.value);
      }
    case Changed(path, fields) =>
      var name := RowName(FolderOf(t), path);
      if name.Some? && path == PathOf(cfg, name.value) && name.value in st.rows {
        AssignAmid(ag, t, st, seen, name.value, fields);
      }
    case Refreshed(snapshot) =>
      SortedElements(st.rows.Keys);
      DropVanishedAmid(ag, t, st, seen, Sorted(st.rows.Keys), PathsOf(snapshot));
      PopulateAmid(ag, t, DropVanished(cfg, st, Sorted(st.rows.Keys), PathsOf(snapshot)), seen, snapshot);
  }

  /** The rows that are there. */
  ghost function LiveRows(ag: Agent): RowSet {
    set t, n | t in ag.tables && n in ag.tables[t] :: (t, n)
  }

  /** The rows that have been there after some prefix of the run. */
  ghost function Seen(inputs: seq<Input>): RowSet {
    (if inputs == [] then {} else Seen(inputs[..|inputs| - 1])) + LiveRows(After(inputs))
  }

  /** Only whether a missing row was seen matters to the invariant. */
  lemma SeenMayGrow(ag: Agent, seen: RowSet)
    requires Inv(ag, seen)
    ensures Inv(ag, seen + LiveRows(ag))
  {
    assert forall t, name {:trigger TypedAt(ag, t, name)} :: TypedAt(ag, t, name);
    forall t, name | Fits(t, name)
      ensures MirrorsAt(ag, seen + LiveRows(ag), t, name)
    {
      assert MirrorsAt(ag, seen, t, name);
    }
  }

  lemma ReactKeepsInv(ag: Agent, seen: RowSet, input: Input)
    requires Inv(ag, seen) && SeenAll(ag, seen)
    ensures Inv(React(ag, input), seen)
  {
    match input
    case Update(t, snapshot) => ApplyKeepsInv(ag, seen, t, Refreshed(snapshot));
    case Bus(signal, order) =>
      SignalsConcernOneTable(ag, signal, order);
      if t :| Accepts(FolderOf(t), signal.path) {
        ApplyKeepsInv(ag, seen, t, signal);
      }
  }

  lemma {:induction false} EveryRunKeepsInv(inputs: seq<Input>)
    ensures Inv(After(inputs), Seen(inputs))
    decreases |inputs|
  {
    if inputs == [] {
      assert forall t, name :: MirrorsAt(EMPTY, Seen([]), t, name);
    } else {
      var front, last := inputs[..|inputs| - 1], inputs[|inputs| - 1];
      EveryRunKeepsInv(front);
      ReactKeepsInv(After(front), Seen(front), last);
      SeenMayGrow(After(inputs), Seen(front));
    }
  }

  // The guarantees

  /** What a receiver of all the traps so far has stored. */
  ghost function ToldBy(inputs: seq<Input>): map<Oid, int> {
    Received(After(inputs).log)
  }

  lemma AfterRun(inputs: seq<Input>, t: TableId, name: string, i: nat)
    requires i < |CellsOf(t, name)| && Fits(t, name)
    ensures MirrorsAt(After(inputs), Seen(inputs), t, name)
    ensures GetOid(t, ReportedColumn(t, i), name) == CellsOf(t, name)[i]
    ensures
      var cell, heard := CellsOf(t, name)[i], Heard(After(inputs).log, CellsOf(t, name));
      && (cell in ToldBy(inputs) <==> heard != [])
      && (heard != [] ==> i < |heard[|heard| - 1]| && ToldBy(inputs)[cell] == heard[|heard| - 1][i])
  {
    hide CellsOf, GetOid, Heard, Received, Seen, After;
    EveryRunKeepsInv(inputs);
    assert MirrorsAt(After(inputs), Seen(inputs), t, name);
    FitsIsHavingCells(t, name, i);
    ReceivedIsLastHeard(After(inputs).log, t, name, i);
  }

  /** A trap reports one of the agent's cells, and never one that is too long. */
  lemma {:induction false} ReceivedCellsFit(log: seq<Trap>, cell: Oid)
    requires Attributed(log) && |cell| > MAX_OID_LEN
    ensures cell !in Received(log)
    decreases |log|
  {
    if log != [] {
      var front, last := log[..|log| - 1], log[|log| - 1];
      assert IsReport(log[|log| - 1]);
      assert forall k :: 0 <= k < |front| ==> IsReport(log[k]) && front[k] == log[k];
      ReceivedCellsFit(front, cell);
      var u, other :| Says(last, u, other) && Speaks(u, other);
      forall k | 0 <= k < |last.bindings|
        ensures last.bindings[k].oid != cell
      {
        assert OidsOf(last)[k] == last.bindings[k].oid == CellsOf(u, other)[k];
        TrapCellIsGetCell(u, other, k);
      }
      StoreElsewhere(Received(front), last.bindings, cell);
    }
  }

  /**
   * For every sensor, a receiver of traps holds under the OID of the state column: the
   * state that GET serves now if the row is there, disabled if it was there once, and
   * nothing if it never was, or if the name is too long for an OID.
   */
  lemma SensorTrapsMirrorRows(inputs: seq<Input>, t: TableId, name: string)
    requires !t.Stock?
    ensures
      var rows, told, cell := After(inputs).tables[t], ToldBy(inputs), GetOid(t, 7, name);
      && (cell in told <==> Fits(t, name) && (t, name) in Seen(inputs))
      && (Fits(t, name) && name in rows ==> cell in told && told[cell] == StateOf(rows[name]))
      && (Fits(t, name) && name !in rows && (t, name) in Seen(inputs) ==> told[cell] == E_DISABLED)
  {
    hide CellsOf, GetOid, Heard, Received, After, Fits;
    assert name in After(inputs).tables[t] ==> (t, name) in LiveRows(After(inputs));
    if Fits(t, name) {
      AfterRun(inputs, t, name, 0);
    } else {
      OverlongCellsAreNotTold(inputs, t, name, 0);
    }
  }

  lemma OverlongCellsAreNotTold(inputs: seq<Input>, t: TableId, name: string, i: nat)
    requires !Fits(t, name) && i < |CellsOf(t, name)|
    ensures GetOid(t, ReportedColumn(t, i), name) !in ToldBy(inputs)
  {
    hide After, Received, CellsOf;
    EveryRunKeepsInv(inputs);
    ReceivedCellsFit(After(inputs).log, GetOid(t, ReportedColumn(t, i), name));
  }

  /** Traps keep a receiver in step with a live sensor exactly when the sensor's name fits. */
  lemma TrapsReachGetExactlyWhenNameFits(inputs: seq<Input>, t: TableId, name: string)
    requires !t.Stock? && name in After(inputs).tables[t]
    ensures
      var told, cell := ToldBy(inputs), GetOid(t, 7, name);
      (cell in told && told[cell] == StateOf(After(inputs).tables[t][name])) <==> |name| <= 116
  {
    hide GetOid, Received, After;
    SensorTrapsMirrorRows(inputs, t, name);
    assert (t, name) in LiveRows(After(inputs));
  }

  /** A sensor whose name gives no OID is never heard. */
  lemma {:induction false} SilentNamesAreNotHeard(log: seq<Trap>, t: TableId, name: string)
    requires Attributed(log) && !Speaks(t, name)
    ensures Heard(log, CellsOf(t, name)) == []
    decreases |log|
  {
    hide CellsOf, GetOid;
    if log != [] {
      var front, last := log[..|log| - 1], log[|log| - 1];
      assert IsReport(log[|log| - 1]);
      assert forall k :: 0 <= k < |front| ==> IsReport(log[k]) && front[k] == log[k];
      SilentNamesAreNotHeard(front, t, name);
      var u, other :| Says(last, u, other) && Speaks(u, other);
      FitsIsHavingCells(t, name, 0);
      FitsIsHavingCells(u, other, 0);
      assert |CellsOf(u, other)| == 2 || CellsOf(u, other)[0] != CellsOf(t, name)[0];
    }
  }

  /** The traps of one sensor: normal first, no value twice in a row, disabled only before normal. */
  lemma SensorTrapsAreDisciplined(inputs: seq<Input>, t: TableId, name: string)
    requires !t.Stock?
    ensures Disciplined(Heard(After(inputs).log, CellsOf(t, name)))
  {
    hide CellsOf, GetOid, Heard, Received, After;
    if Fits(t, name) {
      AfterRun(inputs, t, name, 0);
    } else {
      EveryRunKeepsInv(inputs);
      SilentNamesAreNotHeard(After(inputs).log, t, name);
    }
  }

  function ToldOr(told: map<Oid, int>, cell: Oid, default: int): int {
    if cell in told then told[cell] else default
  }

  /**
   * A receiver that takes every inventory item for neither present nor functional until
   * told otherwise agrees with every row, and keeps that default for missing ones and for
   * names that are too long for an OID.
   */
  lemma InventoryTrapsMirrorRows(inputs: seq<Input>, name: string)
    ensures
      var rows, told := After(inputs).tables[Stock], ToldBy(inputs);
      var present := ToldOr(told, GetOid(Stock, COLUMN_PRESENT, name), TruthValue(false));
      var functional := ToldOr(told, GetOid(Stock, COLUMN_FUNCTIONAL, name), TruthValue(false));
      && present == TruthValue(Fits(Stock, name) && name in rows && Flag(rows[name], FIELD_PRESENT))
      && functional == TruthValue(Fits(Stock, name) && name in rows && Flag(rows[name], FIELD_FUNCTIONAL))
  {
    hide CellsOf, GetOid, Heard, Received, After;
    if Fits(Stock, name) {
      AfterRun(inputs, Stock, name, 0);
      AfterRun(inputs, Stock, name, 1);
    } else {
      OverlongCellsAreNotTold(inputs, Stock, name, 0);
      OverlongCellsAreNotTold(inputs, Stock, name, 1);
    }
  }

  /** Two traps in a row about one item never say the same, nor does the first say the default. */
  lemma InventoryTrapsAlternate(inputs: seq<Input>, name: string)
    requires Fits(Stock, name)
    ensures Alternating(Heard(After(inputs).log, CellsOf(Stock, name)))
  {
    hide CellsOf, GetOid, Heard, Received, After;
    AfterRun(inputs, Stock, name, 0);
  }

  /** For an item whose name is too long the traps name no cell, so the receiver keeps its default. */
  lemma InventoryTrapsReachGetExactlyWhen(inputs: seq<Input>, name: string)
    requires name in After(inputs).tables[Stock]
    ensures
      var d, told := After(inputs).tables[Stock][name], ToldBy(inputs);
      var present := ToldOr(told, GetOid(Stock, COLUMN_PRESENT, name), TruthValue(false));
      var functional := ToldOr(told, GetOid(Stock, COLUMN_FUNCTIONAL, name), TruthValue(false));
      (present == TruthValue(Flag(d, FIELD_PRESENT)) && functional == TruthValue(Flag(d, FIELD_FUNCTIONAL)))
      <==> |name| <= 117 || (!Flag(d, FIELD_PRESENT) && !Flag(d, FIELD_FUNCTIONAL))
  {
    hide CellsOf, Heard, Received, Seen, After;
    InventoryTrapsMirrorRows(inputs, name);
  }

  /** Values of a wrong type never reach a row. */
  lemma RowsStayTyped(inputs: seq<Input>, t: TableId, name: string)
    requires name in After(inputs).tables[t]
    ensures Typed(SchemaOf(KindOf(t)), After(inputs).tables[t][name])
  {
    EveryRunKeepsInv(inputs);
    assert TypedAt(After(inputs), t, name);
  }

  // Names that are too long do occur

  /** The signal that announces an object with its first owned interface. */
  function Announcement(t: TableId, name: string, fields: Fields): Signal {
    Added(PathOf(ConfigOf(t), name), [(ConfigOf(t).interfaces[0], fields)])
  }

  /** The row that the announcement of a new object makes. */
  function AnnouncedData(t: TableId, fields: Fields): Data {
    Merge(SchemaOf(KindOf(t)), DefaultData(KindOf(t)), fields)
  }

  lemma AnnouncementIsOwned(t: TableId, name: string, fields: Fields)
    ensures Owned(ConfigOf(t), FirstOf(Announcement(t, name, fields).data))
    ensures SecondOf(Announcement(t, name, fields).data) == [fields]
    ensures RowName(FolderOf(t), Announcement(t, name, fields).path) == Some(name)
    ensures Accepts(FolderOf(t), Announcement(t, name, fields).path)
  {
    hide FolderOf;
    var cfg := ConfigOf(t);
    RowNameInvertsPathOf(cfg, name);
    var names := FirstOf(Announcement(t, name, fields).data);
    assert names == [cfg.interfaces[0]];
    assert names[0] in cfg.interfaces && names[0] in names;
  }

  lemma AnnouncementSteps(t: TableId, st: State, name: string, fields: Fields)
    requires name !in st.rows
    ensures Step(ConfigOf(t), st, Announcement(t, name, fields)).st ==
            State(st.rows[name := AnnouncedData(t, fields)],
                  st.log + CreateTraps(KindOf(t), FolderOf(t), name)
                  + ChangeTraps(KindOf(t), FolderOf(t), name, DefaultData(KindOf(t)), AnnouncedData(t, fields)))
  {
    hide FolderOf, CreateTraps, ChangeTraps, Merge, DefaultData, SchemaOf, Owned, FirstOf, SecondOf, RowName, Accepts,
         KindOf;
    var cfg := ConfigOf(t);
    AnnouncementIsOwned(t, name, fields);
    var touched := Touch(cfg, st, name);
    AssignOne(cfg, touched, name, fields);
    assert touched.rows[name := AnnouncedData(t, fields)] == st.rows[name := AnnouncedData(t, fields)];
  }

  lemma AnnouncementAddsRow(ag: Agent, t: TableId, name: string, fields: Fields)
    requires Whole(ag) && name !in ag.tables[t]
    ensures React(ag, Bus(Announcement(t, name, fields), ALL)) ==
            Agent(ag.tables[t := ag.tables[t][name := AnnouncedData(t, fields)]],
                  ag.log + CreateTraps(KindOf(t), FolderOf(t), name)
                  + ChangeTraps(KindOf(t), FolderOf(t), name, DefaultData(KindOf(t)), AnnouncedData(t, fields)))
  {
    hide FolderOf, CreateTraps, ChangeTraps, AnnouncedData, DefaultData, React, Announcement, Accepts, KindOf, Step;
    AnnouncementIsOwned(t, name, fields);
    SignalsConcernOneTable(ag, Announcement(t, name, fields), ALL);
    AnnouncementSteps(t, View(ag, t), name, fields);
  }

  lemma AssignOne(cfg: Config, st: State, name: string, fields: Fields)
    requires name in st.rows
    ensures AssignAll(cfg, st, name, [fields]) == Assign(cfg, st, name, fields)
  {
    hide ChangeTraps, Merge;
    assert [fields][1..] == [];
  }

  /** The run in which the objects are announced one after the other. */
  function Announced(t: TableId, names: seq<string>, fields: Fields): seq<Input> {
    seq(|names|, k requires 0 <= k < |names| => Bus(Announcement(t, names[k], fields), ALL))
  }

  lemma AfterNext(inputs: seq<Input>, input: Input)
    ensures After(inputs + [input]) == React(After(inputs), input)
  {
    hide React;
    assert (inputs + [input])[..|inputs|] == inputs;
  }

  lemma AfterOne(t: TableId, name: string, fields: Fields)
    ensures After(Announced(t, [name], fields)) == React(EMPTY, Bus(Announcement(t, name, fields), ALL))
  {
    hide React, Announcement, EMPTY;
    var input := Bus(Announcement(t, name, fields), ALL);
    assert Announced(t, [name], fields) == [] + [input];
    AfterNext([], input);
    assert After([]) == EMPTY;
  }

  /** A sensor of any long name can be live; GET serves its state and no trap has told it. */
  lemma LongSensorNamesAreReachable(t: TableId, name: string)
    requires !t.Stock? && |name| > 116
    ensures var run := Announced(t, [name], map[]);
            name in After(run).tables[t] && GetOid(t, 7, name) !in ToldBy(run)
  {
    hide After, Received, CellsOf, GetOid, React, FolderOf, CreateTraps, ChangeTraps;
    AfterOne(t, name, map[]);
    AnnouncementAddsRow(EMPTY, t, name, map[]);
    OverlongCellsAreNotTold(Announced(t, [name], map[]), t, name, 0);
  }

  const PRESENCE: Fields := map["Present" := Bool(true)]

  lemma PresenceIsShown()
    ensures Flag(AnnouncedData(Stock, PRESENCE), FIELD_PRESENT)
    ensures !Flag(AnnouncedData(Stock, PRESENCE), FIELD_FUNCTIONAL)
  {
  }

  /** An item of any long name can be present without a receiver being told. */
  lemma LongItemNamesAreReachable(name: string)
    requires |name| > 117
    ensures var run := Announced(Stock, [name], PRESENCE);
            && name in After(run).tables[Stock] && Flag(After(run).tables[Stock][name], FIELD_PRESENT)
            && GetOid(Stock, COLUMN_PRESENT, name) !in ToldBy(run)
  {
    hide After, Received, CellsOf, GetOid, React, FolderOf, CreateTraps, ChangeTraps, AnnouncedData;
    AfterOne(Stock, name, PRESENCE);
    AnnouncementAddsRow(EMPTY, Stock, name, PRESENCE);
    PresenceIsShown();
    OverlongCellsAreNotTold(Announced(Stock, [name], PRESENCE), Stock, name, 0);
  }

  /** The traps of two items with long names carry the same empty OIDs, so one seems to speak twice. */
  lemma LongItemNamesAreNotToldApart(name: string)
    requires |name| > 117
    ensures !Alternating(Heard(After(Announced(Stock, [name, name + "x"], PRESENCE)).log, CellsOf(Stock, name)))
  {
    hide After, CellsOf, Heard, Alternating, InventoryTrap, Announced;
    TwoItemsAnnounced(name, name + "x");
    TwoHeard(name, name + "x");
  }

  lemma OneItemAnnounced(name: string)
    ensures var ag := After(Announced(Stock, [name], PRESENCE));
            ag.log == [InventoryTrap(name, true, false)] && ag.tables[Stock].Keys == {name}
  {
    hide After, React, InventoryTrap, Announcement, AnnouncedData, PRESENCE;
    AfterOne(Stock, name, PRESENCE);
    PresentItemIsAnnounced(EMPTY, name);
  }

  lemma TwoItemsAnnounced(name: string, other: string)
    requires name != other
    ensures After(Announced(Stock, [name, other], PRESENCE)).log
         == [InventoryTrap(name, true, false), InventoryTrap(other, true, false)]
  {
    hide After, React, InventoryTrap, Announcement, AnnouncedData, PRESENCE, EMPTY, Whole;
    var first, second := Announced(Stock, [name], PRESENCE), Bus(Announcement(Stock, other, PRESENCE), ALL);
    OneItemAnnounced(name);
    assert Announced(Stock, [name, other], PRESENCE) == first + [second];
    AfterNext(first, second);
    PresentItemIsAnnounced(After(first), other);
  }

  lemma PresentItemIsAnnounced(ag: Agent, name: string)
    requires Whole(ag) && name !in ag.tables[Stock]
    ensures var next := React(ag, Bus(Announcement(Stock, name, PRESENCE), ALL));
            && next.log == ag.log + [InventoryTrap(name, true, false)]
            && next.tables == ag.tables[Stock := ag.tables[Stock][name := AnnouncedData(Stock, PRESENCE)]]
  {
    hide React, FolderOf, CreateTraps, ChangeTraps, AnnouncedData, InventoryTrap, Announcement;
    AnnouncementAddsRow(ag, Stock, name, PRESENCE);
    NoItemCreationTraps(name);
    PresenceTraps(name);
    assert ag.log + [] == ag.log;
  }

  lemma NoItemCreationTraps(name: string)
    ensures CreateTraps(Inventory, FolderOf(Stock), name) == []
  {
  }

  lemma PresenceTraps(name: string)
    ensures ChangeTraps(Inventory, FolderOf(Stock), name, DefaultData(Inventory), AnnouncedData(Stock, PRESENCE))
         == [InventoryTrap(name, true, false)]
  {
    hide AnnouncedData, FolderOf, InventoryTrap;
    PresenceIsShown();
  }

  lemma TwoHeard(name: string, other: string)
    requires |name| > 117 && |other| > 117
    ensures var log := [InventoryTrap(name, true, false), InventoryTrap(other, true, false)];
            !Alternating(Heard(log, CellsOf(Stock, name)))
  {
    hide InventoryOid;
    var first, second := InventoryTrap(name, true, false), InventoryTrap(other, true, false);
    assert InventoryOid(COLUMN_PRESENT, name) == InventoryOid(COLUMN_PRESENT, other) by {
      FitsIsHavingCells(Stock, name, 0);
      FitsIsHavingCells(Stock, other, 0);
    }
    assert InventoryOid(COLUMN_FUNCTIONAL, name) == InventoryOid(COLUMN_FUNCTIONAL, other) by {
      FitsIsHavingCells(Stock, name, 1);
      FitsIsHavingCells(Stock, other, 1);
    }
    var cells, log := CellsOf(Stock, name), [first, second];
    assert OidsOf(first) == cells && OidsOf(second) == cells;
    assert ValuesOf(first) == [1, 2] && ValuesOf(second) == [1, 2];
    assert log[..1] == [first] && [first][..0] == [];
    assert Heard([first], cells) == [] + [[1, 2]];
    assert Heard(log, cells) == [[1, 2]] + [[1, 2]];
    var heard := Heard(log, cells);
    assert heard[0] == heard[1];
  }

  /** Traps about an item alternate in every run exactly when its name fits. */
  lemma InventoryTrapsAlternateExactlyWhen(name: string)
    ensures (forall inputs :: Alternating(Heard(After(inputs).log, CellsOf(Stock, name)))) <==> |name| <= 117
  {
    hide After, Heard, CellsOf, Alternating;
    if |name| <= 117 {
      forall inputs
        ensures Alternating(Heard(After(inputs).log, CellsOf(Stock, name)))
      {
        InventoryTrapsAlternate(inputs, name);
      }
    } else {
      LongItemNamesAreNotToldApart(name);
    }
  }
}
