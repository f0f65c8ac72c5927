/** What repeating `update()` does, and when it is silent. */
module Repeat {
  import opened Names
  import opened Items
  import opened Rules
  import opened TableSpec
  import opened Agent
  import opened Runs
  import opened Reconcile

  // Repeating `update()`

  lemma NamesAreDistinct(cfg: Config, snapshot: seq<Entry>)
    requires WellFormed(cfg, snapshot)
    ensures forall d, e :: d in snapshot && e in snapshot && NameOf(cfg, d) == NameOf(cfg, e) ==> d == e
  {
    forall j, k | 0 <= j < k < |snapshot|
      ensures NameOf(cfg, snapshot[j]) != NameOf(cfg, snapshot[k])
    {
      assert Below(cfg, snapshot[j]) && Below(cfg, snapshot[k]);
    }
  }

  /** The same snapshot again leaves the same rows, whether or not its services agree. */
  lemma UpdateTwiceSameRows(cfg: Config, st: State, snapshot: seq<Entry>)
    requires WellFormed(cfg, snapshot)
    ensures var once := StepRefreshed(cfg, st, snapshot).st;
            StepRefreshed(cfg, once, snapshot).st.rows == once.rows
  {
    hide StepRefreshed, UpdateTraps, SchemaOf;
    var once := StepRefreshed(cfg, st, snapshot).st;
    UpdateReconciles(cfg, st, snapshot);
    UpdateReconciles(cfg, once, snapshot);
    var twice := StepRefreshed(cfg, once, snapshot).st;
    NamesAreDistinct(cfg, snapshot);
    forall n | n in once.rows
      ensures n in twice.rows && twice.rows[n] == once.rows[n]
    {
      var e :| e in snapshot && NameOf(cfg, e) == n && Leaves(cfg, st.rows, e);
      assert Leaves(cfg, once.rows, e);
      MergeAllTwice(SchemaOf(cfg.kind), Base(cfg, st.rows, n), e.services);
    }
    forall n | n in twice.rows
      ensures n in once.rows
    {
      var e :| e in snapshot && NameOf(cfg, e) == n && Leaves(cfg, once.rows, e);
      if e.services == [] {
        var d :| d in snapshot && NameOf(cfg, d) == n && Leaves(cfg, st.rows, d);
      } else {
        assert Leaves(cfg, st.rows, e);
      }
    }
  }

  lemma {:induction false} NoVanishTraps(cfg: Config, rows: Rows, names: seq<string>, paths: set<string>)
    requires forall n :: n in names ==> PathOf(cfg, n) in paths
    ensures VanishTraps(cfg, rows, names, paths) == []
    decreases |names|
  {
    if names != [] {
      assert names[0] in names;
      NoVanishTraps(cfg, rows, names[1..], paths);
    }
  }

  lemma NoChangeNoTraps(cfg: Config, name: string, d: Data)
    ensures ChangeTraps(cfg.kind, cfg.folder, name, d, d) == []
  {
  }

  lemma {:induction false} NoSetTraps(cfg: Config, name: string, d: Data, maps: seq<Fields>)
    requires forall m :: m in maps ==> Merge(SchemaOf(cfg.kind), d, m) == d
    ensures SetTraps(cfg, name, d, maps) == []
    decreases |maps|
  {
    hide ChangeTraps, Merge, SchemaOf;
    if maps != [] {
      assert maps[0] in maps;
      NoChangeNoTraps(cfg, name, d);
      NoSetTraps(cfg, name, d, maps[1..]);
    }
  }

  lemma {:induction false} NoEntriesTraps(cfg: Config, rows: Rows, snapshot: seq<Entry>)
    requires forall e :: e in snapshot ==> EntryTraps(cfg, rows, e) == []
    ensures EntriesTraps(cfg, rows, snapshot) == []
    decreases |snapshot|
  {
    if snapshot != [] {
      assert snapshot[0] in snapshot;
      NoEntriesTraps(cfg, rows, snapshot[1..]);
    }
  }

  /** The names left by an `update()` are all in its snapshot, so the next one drops nothing. */
  lemma RepeatedUpdateDropsNothing(cfg: Config, st: State, snapshot: seq<Entry>)
    requires WellFormed(cfg, snapshot)
    ensures var rows := StepRefreshed(cfg, st, snapshot).st.rows;
            VanishTraps(cfg, rows, Sorted(rows.Keys), PathsOf(snapshot)) == []
  {
    hide StepRefreshed, UpdateTraps, PathsOf;
    UpdateReconciles(cfg, st, snapshot);
    var rows := StepRefreshed(cfg, st, snapshot).st.rows;
    SortedElements(rows.Keys);
    forall n | n in Sorted(rows.Keys)
      ensures PathOf(cfg, n) in PathsOf(snapshot)
    {
      PathsAreNames(cfg, snapshot, n);
    }
    NoVanishTraps(cfg, rows, Sorted(rows.Keys), PathsOf(snapshot));
  }

  /** When the services of each object agree, the same snapshot again sends no trap. */
  lemma UpdateTwiceIsSilent(cfg: Config, st: State, snapshot: seq<Entry>)
    requires WellFormed(cfg, snapshot)
    requires forall e :: e in snapshot ==> Agree(SchemaOf(cfg.kind), e.services)
    ensures var once := StepRefreshed(cfg, st, snapshot).st;
            StepRefreshed(cfg, once, snapshot) == Result(once, true)
  {
    hide StepRefreshed, PathsOf, SchemaOf, VanishTraps, Sorted;
    var once := StepRefreshed(cfg, st, snapshot).st;
    UpdateTwiceSameRows(cfg, st, snapshot);
    RepeatedUpdateDropsNothing(cfg, st, snapshot);
    UpdateReconciles(cfg, once, snapshot);
    forall e | e in snapshot
      ensures EntryTraps(cfg, once.rows, e) == []
    {
      RepeatedEntryIsSilent(cfg, st, snapshot, e);
    }
    NoEntriesTraps(cfg, once.rows, snapshot);
    assert once.log + ([] + []) == once.log;
  }

  lemma RepeatedEntryIsSilent(cfg: Config, st: State, snapshot: seq<Entry>, e: Entry)
    requires WellFormed(cfg, snapshot) && e in snapshot
    requires Agree(SchemaOf(cfg.kind), e.services)
    ensures EntryTraps(cfg, StepRefreshed(cfg, st, snapshot).st.rows, e) == []
  {
    hide StepRefreshed, UpdateTraps, SchemaOf, SetTraps, CreateTraps, Merge, MergeAll, Agree;
    if e.services != [] {
      UpdateReconciles(cfg, st, snapshot);
      var name := NameOf(cfg, e);
      assert Leaves(cfg, st.rows, e);
      var base := Base(cfg, st.rows, name);
      forall m | m in e.services
        ensures Merge(SchemaOf(cfg.kind), Final(cfg, st.rows, e), m) == Final(cfg, st.rows, e)
      {
        AgreeingMapsAreStable(SchemaOf(cfg.kind), base, e.services, m);
      }
      NoSetTraps(cfg, name, Final(cfg, st.rows, e), e.services);
    }
  }

  // When exactly a repeated update is silent

  /** Applied in turn, none of the maps changes what the row shows. */
  predicate Steady(kind: Kind, d: Data, maps: seq<Fields>)
    decreases |maps|
  {
    maps == [] ||
    var next := Merge(SchemaOf(kind), d, maps[0]);
    Shown(kind, next) == Shown(kind, d) && Steady(kind, next, maps[1..])
  }

  lemma ChangeTrapsExactly(t: TableId, name: string, before: Data, after: Data)
    ensures ChangeTraps(KindOf(t), FolderOf(t), name, before, after) == []
       <==> !Speaks(t, name) || Shown(KindOf(t), before) == Shown(KindOf(t), after)
  {
    if !t.Stock? {
      NotificationMatchesTable(t);
      FitsIsHavingCells(t, name, 0);
    }
  }

  lemma {:induction false} SetTrapsExactly(t: TableId, name: string, d: Data, maps: seq<Fields>)
    ensures SetTraps(ConfigOf(t), name, d, maps) == [] <==> !Speaks(t, name) || Steady(KindOf(t), d, maps)
    decreases |maps|
  {
    hide ChangeTraps, Merge, SchemaOf, Shown, FolderOf, Speaks;
    if maps != [] {
      var next := Merge(SchemaOf(KindOf(t)), d, maps[0]);
      ChangeTrapsExactly(t, name, d, next);
      SetTrapsExactly(t, name, next, maps[1..]);
    }
  }

  lemma {:induction false} EntriesTrapsExactly(cfg: Config, rows: Rows, snapshot: seq<Entry>)
    ensures EntriesTraps(cfg, rows, snapshot) == [] <==> forall e :: e in snapshot ==> EntryTraps(cfg, rows, e) == []
    decreases |snapshot|
  {
    if snapshot != [] {
      assert snapshot == [snapshot[0]] + snapshot[1..];
      EntriesTrapsExactly(cfg, rows, snapshot[1..]);
    }
  }

  lemma RepeatedEntryTraps(t: TableId, st: State, snapshot: seq<Entry>, e: Entry)
    requires WellFormed(ConfigOf(t), snapshot) && e in snapshot
    ensures
      var cfg := ConfigOf(t);
      EntryTraps(cfg, StepRefreshed(cfg, st, snapshot).st.rows, e) == []
      <==> !Speaks(t, NameOf(cfg, e)) || Steady(KindOf(t), Final(cfg, st.rows, e), e.services)
  {
    hide StepRefreshed, UpdateTraps, SchemaOf, SetTraps, CreateTraps, Merge, MergeAll, FolderOf, Speaks;
    var cfg := ConfigOf(t);
    if e.services != [] {
      UpdateReconciles(cfg, st, snapshot);
      assert Leaves(cfg, st.rows, e);
      SetTrapsExactly(t, NameOf(cfg, e), Final(cfg, st.rows, e), e.services);
    }
  }

  /** The same snapshot again is silent exactly when no service's answer moves what its row shows. */
  lemma UpdateTwiceIsSilentExactlyWhen(t: TableId, st: State, snapshot: seq<Entry>)
    requires WellFormed(ConfigOf(t), snapshot)
    ensures
      var cfg := ConfigOf(t);
      var once := StepRefreshed(cfg, st, snapshot).st;
      StepRefreshed(cfg, once, snapshot).st.log == once.log
      <==> forall e :: e in snapshot && Speaks(t, NameOf(cfg, e)) ==>
             Steady(KindOf(t), Final(cfg, st.rows, e), e.services)
  {
    hide StepRefreshed, PathsOf, SchemaOf, VanishTraps, Sorted, Steady, Speaks, FolderOf, Final, EntryTraps, NameOf;
    var cfg := ConfigOf(t);
    var once := StepRefreshed(cfg, st, snapshot).st;
    RepeatedUpdateDropsNothing(cfg, st, snapshot);
    UpdateReconciles(cfg, once, snapshot);
    EntriesTrapsExactly(cfg, once.rows, snapshot);
    forall e | e in snapshot
      ensures EntryTraps(cfg, once.rows, e) == []
         <==> !Speaks(t, NameOf(cfg, e)) || Steady(KindOf(t), Final(cfg, st.rows, e), e.services)
    {
      RepeatedEntryTraps(t, st, snapshot, e);
    }
    var traps := EntriesTraps(cfg, once.rows, snapshot);
    assert |once.log + ([] + traps)| == |once.log| + |traps|;
    assert once.log + ([] + []) == once.log;
  }

  /**
   * The boolean columns that what a row shows depends on: both of an item, and of a sensor
   * the alarms that are asked for, up to and including the first one that is set.
   */
  predicate Watches(kind: Kind, d: Data, i: int) {
    match kind
    case Inventory => i == FIELD_PRESENT || i == FIELD_FUNCTIONAL
    case Sensor =>
      || i == FIELD_CRITHI_ALARM
      || (!Flag(d, FIELD_CRITHI_ALARM)
          && (|| i == FIELD_WARNHI_ALARM
              || (!Flag(d, FIELD_WARNHI_ALARM)
                  && (|| i == FIELD_WARNLOW_ALARM
                      || (!Flag(d, FIELD_WARNLOW_ALARM) && i == FIELD_CRITLOW_ALARM)))))
  }

  /** The column belongs to the row, and is a boolean. */
  lemma WatchedColumns(kind: Kind, d: Data, i: int)
    requires Watches(kind, d, i)
    ensures 0 <= i < FIELD_COUNT == |SchemaOf(kind)| && SchemaOf(kind)[i].ty == TBool
  {
  }

  /** Two rows show the same exactly when they agree on the watched columns, and then watch the same ones. */
  lemma ShownIsWatched(kind: Kind, c: Data, d: Data)
    ensures Shown(kind, c) == Shown(kind, d) <==>
            forall i: nat {:trigger Watches(kind, d, i)} :: Watches(kind, d, i) ==> Flag(c, i) == Flag(d, i)
    ensures Shown(kind, c) == Shown(kind, d) ==>
            forall i {:trigger Watches(kind, d, i)} :: Watches(kind, c, i) <==> Watches(kind, d, i)
  {
    assert Watches(kind, d, FIELD_CRITHI_ALARM) || kind.Inventory?;
    assert Watches(kind, d, FIELD_WARNHI_ALARM) <==> kind.Sensor? && !Flag(d, FIELD_CRITHI_ALARM);
    if kind.Sensor? {
      assert Shown(kind, c) == Shown(kind, d) <==> Shown(kind, c)[0] == Shown(kind, d)[0];
      assert Watches(kind, d, FIELD_WARNLOW_ALARM) <==>
             !Flag(d, FIELD_CRITHI_ALARM) && !Flag(d, FIELD_WARNHI_ALARM);
      assert Watches(kind, d, FIELD_CRITLOW_ALARM) <==>
             !Flag(d, FIELD_CRITHI_ALARM) && !Flag(d, FIELD_WARNHI_ALARM) && !Flag(d, FIELD_WARNLOW_ALARM);
    } else {
      assert Watches(kind, d, FIELD_PRESENT) && Watches(kind, d, FIELD_FUNCTIONAL);
      assert Shown(kind, c) == Shown(kind, d) <==>
             Shown(kind, c)[0] == Shown(kind, d)[0] && Shown(kind, c)[1] == Shown(kind, d)[1];
    }
  }

  /** Where the map supplies the column, it says what the row says. */
  predicate EchoesAt(kind: Kind, m: Fields, d: Data, i: nat)
    requires i < |SchemaOf(kind)|
  {
    Supplies(m, SchemaOf(kind)[i]) ==> m[SchemaOf(kind)[i].property] == Bool(Flag(d, i))
  }

  /** So it does on every watched column. */
  ghost predicate Echoes(kind: Kind, m: Fields, d: Data) {
    forall i: nat {:trigger Watches(kind, d, i)} ::
      i < |SchemaOf(kind)| && Watches(kind, d, i) ==> EchoesAt(kind, m, d, i)
  }

  lemma MergedFlag(kind: Kind, d: Data, m: Fields, i: nat)
    requires |d| == FIELD_COUNT && Watches(kind, d, i)
    ensures i < |SchemaOf(kind)|
    ensures Flag(Merge(SchemaOf(kind), d, m), i) == Flag(d, i) <==> EchoesAt(kind, m, d, i)
  {
    WatchedColumns(kind, d, i);
  }

  lemma EchoesKeepShown(kind: Kind, d: Data, m: Fields)
    requires |d| == FIELD_COUNT
    ensures Shown(kind, Merge(SchemaOf(kind), d, m)) == Shown(kind, d) <==> Echoes(kind, m, d)
  {
    hide Merge, SchemaOf, Shown, Watches, EchoesAt, Flag;
    var next := Merge(SchemaOf(kind), d, m);
    ShownIsWatched(kind, next, d);
    forall i: nat | Watches(kind, d, i)
      ensures i < |SchemaOf(kind)|
      ensures Flag(next, i) == Flag(d, i) <==> EchoesAt(kind, m, d, i)
    {
      MergedFlag(kind, d, m, i);
    }
  }

  lemma EchoesOfAlikes(kind: Kind, m: Fields, c: Data, d: Data)
    requires Shown(kind, c) == Shown(kind, d)
    ensures Echoes(kind, m, c) <==> Echoes(kind, m, d)
  {
    hide Shown, Watches, Supplies, SchemaOf;
    ShownIsWatched(kind, c, d);
    ShownIsWatched(kind, d, c);
  }

  lemma {:induction false} SteadyExactlyWhenEchoed(kind: Kind, d: Data, maps: seq<Fields>)
    requires |d| == FIELD_COUNT
    ensures Steady(kind, d, maps) <==> forall m :: m in maps ==> Echoes(kind, m, d)
    decreases |maps|
  {
    hide Merge, SchemaOf, Shown, Echoes;
    if maps != [] {
      assert maps == [maps[0]] + maps[1..];
      var next := Merge(SchemaOf(kind), d, maps[0]);
      EchoesKeepShown(kind, d, maps[0]);
      SteadyExactlyWhenEchoed(kind, next, maps[1..]);
      if Shown(kind, next) == Shown(kind, d) {
        forall m | m in maps
          ensures Echoes(kind, m, next) <==> Echoes(kind, m, d)
        {
          EchoesOfAlikes(kind, m, next, d);
        }
      } else {
        assert maps[0] in maps && !Echoes(kind, maps[0], d);
      }
    }
  }

  /** Every map says of the column what all of them leave in it exactly when no two of them disagree. */
  lemma EchoedAtExactlyWhenAgreed(kind: Kind, base: Data, maps: seq<Fields>, i: nat)
    requires |base| == FIELD_COUNT
    requires Watches(kind, MergeAll(SchemaOf(kind), base, maps), i)
    ensures i < |SchemaOf(kind)|
    ensures (forall m :: m in maps ==> EchoesAt(kind, m, MergeAll(SchemaOf(kind), base, maps), i))
       <==> AgreeOn(maps, SchemaOf(kind)[i])
  {
    hide MergeAll, LastSupply, Watches, SchemaOf;
    WatchedColumns(kind, MergeAll(SchemaOf(kind), base, maps), i);
    MergeAllAt(SchemaOf(kind), base, maps, i);
    LastSupplyIsASupply(maps, SchemaOf(kind)[i]);
  }

  /** No two services disagree on a column that decides what the row shows in the end. */
  ghost predicate AgreeOnWatched(kind: Kind, d: Data, maps: seq<Fields>) {
    forall i: nat {:trigger Watches(kind, d, i)} ::
      i < |SchemaOf(kind)| && Watches(kind, d, i) ==> AgreeOn(maps, SchemaOf(kind)[i])
  }

  /** A second pass over the answers is steady exactly when they agree on the watched columns. */
  lemma SteadyExactlyWhenAgreed(kind: Kind, base: Data, maps: seq<Fields>)
    requires |base| == FIELD_COUNT
    ensures var d := MergeAll(SchemaOf(kind), base, maps);
            Steady(kind, d, maps) <==> AgreeOnWatched(kind, d, maps)
  {
    hide MergeAll, Watches, SchemaOf, EchoesAt, AgreeOn, Steady;
    var d := MergeAll(SchemaOf(kind), base, maps);
    SteadyExactlyWhenEchoed(kind, d, maps);
    forall i: nat | Watches(kind, d, i)
      ensures i < |SchemaOf(kind)|
      ensures (forall m :: m in maps ==> EchoesAt(kind, m, d, i)) <==> AgreeOn(maps, SchemaOf(kind)[i])
    {
      EchoedAtExactlyWhenAgreed(kind, base, maps, i);
    }
  }

  /** For inventory items that means: the services agree on Present and on Functional. */
  lemma InventoryIsSteadyExactlyWhenAgreed(base: Data, maps: seq<Fields>)
    requires |base| == FIELD_COUNT
    ensures Steady(Inventory, MergeAll(INVENTORY_SCHEMA, base, maps), maps)
       <==> AgreeOn(maps, INVENTORY_SCHEMA[FIELD_PRESENT]) && AgreeOn(maps, INVENTORY_SCHEMA[FIELD_FUNCTIONAL])
  {
    hide MergeAll, Steady, AgreeOn;
    SteadyExactlyWhenAgreed(Inventory, base, maps);
    var d := MergeAll(INVENTORY_SCHEMA, base, maps);
    assert Watches(Inventory, d, FIELD_PRESENT) && Watches(Inventory, d, FIELD_FUNCTIONAL);
  }

  /**
   * For sensors: they agree on every alarm that is asked for once all answers are in. A
   * disagreement on a later alarm stays hidden.
   */
  lemma SensorIsSteadyExactlyWhenAgreed(base: Data, maps: seq<Fields>)
    requires |base| == FIELD_COUNT
    ensures var d := MergeAll(SENSOR_SCHEMA, base, maps);
            Steady(Sensor, d, maps) <==>
            forall k :: 0 <= k < |ALARMS| && (forall j :: 0 <= j < k ==> !Flag(d, ALARMS[j].0)) ==>
              AgreeOn(maps, SENSOR_SCHEMA[ALARMS[k].0])
  {
    hide MergeAll, Steady, AgreeOn;
    SteadyExactlyWhenAgreed(Sensor, base, maps);
    var d := MergeAll(SENSOR_SCHEMA, base, maps);
    assert ALARMS[0].0 == 8 && ALARMS[1].0 == 4 && ALARMS[2].0 == 2 && ALARMS[3].0 == 6;
    assert Watches(Sensor, d, 8) && (Watches(Sensor, d, 4) <==> !Flag(d, 8));
    assert Watches(Sensor, d, 2) <==> !Flag(d, 8) && !Flag(d, 4);
    assert Watches(Sensor, d, 6) <==> !Flag(d, 8) && !Flag(d, 4) && !Flag(d, 2);
  }

  /** Every row of the table has its nine fields, as rows do. */
  ghost predicate Sized(rows: Rows) {
    forall n :: n in rows ==> |rows[n]| == FIELD_COUNT
  }

  /**
   * The same snapshot again sends nothing exactly when, for every object whose row can
   * send traps, the services agree on the columns that decide what its row shows.
   */
  lemma UpdateTwiceIsSilentExactlyWhenAgreed(t: TableId, st: State, snapshot: seq<Entry>)
    requires WellFormed(ConfigOf(t), snapshot) && Sized(st.rows)
    ensures
      var cfg := ConfigOf(t);
      var once := StepRefreshed(cfg, st, snapshot).st;
      StepRefreshed(cfg, once, snapshot).st.log == once.log
      <==> forall e :: e in snapshot && Speaks(t, NameOf(cfg, e)) ==>
             AgreeOnWatched(KindOf(t), Final(cfg, st.rows, e), e.services)
  {
    hide StepRefreshed, SchemaOf, Steady, Speaks, FolderOf, NameOf, AgreeOnWatched, MergeAll;
    var cfg := ConfigOf(t);
    UpdateTwiceIsSilentExactlyWhen(t, st, snapshot);
    forall e | e in snapshot
      ensures Steady(KindOf(t), Final(cfg, st.rows, e), e.services)
         <==> AgreeOnWatched(KindOf(t), Final(cfg, st.rows, e), e.services)
    {
      SteadyExactlyWhenAgreed(KindOf(t), Base(cfg, st.rows, NameOf(cfg, e)), e.services);
    }
  }

  /** So it is after every run of the agent. */
  lemma RepeatedUpdateIsSilentExactlyWhenAgreed(inputs: seq<Input>, t: TableId, snapshot: seq<Entry>)
    requires WellFormed(ConfigOf(t), snapshot)
    ensures
      var cfg, rows, once := ConfigOf(t), After(inputs).tables[t], inputs + [Update(t, snapshot)];
      After(once + [Update(t, snapshot)]).log == After(once).log
      <==> forall e :: e in snapshot && Speaks(t, NameOf(cfg, e)) ==>
             AgreeOnWatched(KindOf(t), Final(cfg, rows, e), e.services)
  {
    hide After, StepRefreshed, AgreeOnWatched, Speaks, Final, FolderOf;
    UpdateLast(inputs, t, snapshot);
    UpdateLast(inputs + [Update(t, snapshot)], t, snapshot);
    ReachableRowsAreSized(inputs, t);
    UpdateTwiceIsSilentExactlyWhenAgreed(t, View(After(inputs), t), snapshot);
  }

  lemma ReachableRowsAreSized(inputs: seq<Input>, t: TableId)
    ensures Sized(After(inputs).tables[t])
  {
    hide After;
    forall name | name in After(inputs).tables[t]
      ensures |After(inputs).tables[t][name]| == FIELD_COUNT
    {
      RowsStayTyped(inputs, t, name);
    }
  }

  /** A pair of answers for which every further update sends traps, whatever the row was. */
  lemma DisagreeingServicesAreNeverSteady(d: Data)
    requires |d| == FIELD_COUNT
    ensures var maps: seq<Fields> := [map["CriticalAlarmHigh" := Bool(true)], map["CriticalAlarmHigh" := Bool(false)]];
            !Steady(Sensor, MergeAll(SENSOR_SCHEMA, d, maps), maps)
  {
    hide MergeAll, Steady;
    var maps: seq<Fields> := [map["CriticalAlarmHigh" := Bool(true)], map["CriticalAlarmHigh" := Bool(false)]];
    var c := SENSOR_SCHEMA[FIELD_CRITHI_ALARM];
    SensorIsSteadyExactlyWhenAgreed(d, maps);
    assert ALARMS[0].0 == FIELD_CRITHI_ALARM;
    assert !AgreeOn(maps, c) by {
      assert maps[0] in maps && maps[1] in maps;
      assert Supplies(maps[0], c) && Supplies(maps[1], c);
    }
  }

  /** A pair of answers that disagree where no trap shows it: on the low alarm of a sensor that is critically high. */
  lemma HiddenDisagreementIsSteady(d: Data)
    requires |d| == FIELD_COUNT && Flag(d, FIELD_CRITHI_ALARM)
    ensures var maps: seq<Fields> := [map["CriticalAlarmLow" := Bool(true)], map["CriticalAlarmLow" := Bool(false)]];
            Steady(Sensor, MergeAll(SENSOR_SCHEMA, d, maps), maps)
  {
    hide MergeAll, Steady, LastSupply;
    var maps: seq<Fields> := [map["CriticalAlarmLow" := Bool(true)], map["CriticalAlarmLow" := Bool(false)]];
    var c := SENSOR_SCHEMA[FIELD_CRITHI_ALARM];
    SensorIsSteadyExactlyWhenAgreed(d, maps);
    assert ALARMS[0].0 == FIELD_CRITHI_ALARM;
    assert forall m :: m in maps ==> !Supplies(m, c);
    LastSupplyIsASupply(maps, c);
    MergeAllAt(SENSOR_SCHEMA, d, maps, FIELD_CRITHI_ALARM);
  }

  // Convergence

  ghost predicate SuppliesAll(schema: Schema, maps: seq<Fields>) {
    forall i :: 0 <= i < |schema| ==> exists m :: m in maps && Supplies(m, schema[i])
  }

  /** Fields that are all supplied do not remember what was there before. */
  lemma SuppliedRowsForget(schema: Schema, c: Data, d: Data, maps: seq<Fields>)
    requires |c| == |d| == |schema| && SuppliesAll(schema, maps)
    ensures MergeAll(schema, c, maps) == MergeAll(schema, d, maps)
  {
    forall i | 0 <= i < |d|
      ensures MergeAll(schema, c, maps)[i] == MergeAll(schema, d, maps)[i]
    {
      MergeAllAt(schema, c, maps, i);
      MergeAllAt(schema, d, maps, i);
      LastSupplyIsASupply(maps, schema[i]);
    }
  }

  lemma ReachableRowsHaveAllFields(inputs: seq<Input>, t: TableId, name: string)
    ensures |Base(ConfigOf(t), After(inputs).tables[t], name)| == |SchemaOf(KindOf(t))|
  {
    if name in After(inputs).tables[t] {
      RowsStayTyped(inputs, t, name);
    }
  }

  lemma UpdateLast(inputs: seq<Input>, t: TableId, snapshot: seq<Entry>)
    ensures After(inputs + [Update(t, snapshot)]) == Apply(After(inputs), t, Refreshed(snapshot))
  {
    var all := inputs + [Update(t, snapshot)];
    assert all[..|all| - 1] == inputs;
  }

  lemma SuppliedFinalsAreEqual(inputs: seq<Input>, others: seq<Input>, t: TableId, e: Entry)
    requires SuppliesAll(SchemaOf(KindOf(t)), e.services)
    ensures Final(ConfigOf(t), After(inputs).tables[t], e) == Final(ConfigOf(t), After(others).tables[t], e)
  {
    hide After, SuppliesAll, Base, MergeAll, FolderOf;
    var cfg, name := ConfigOf(t), NameOf(ConfigOf(t), e);
    ReachableRowsHaveAllFields(inputs, t, name);
    ReachableRowsHaveAllFields(others, t, name);
    SuppliedRowsForget(SchemaOf(KindOf(t)), Base(cfg, After(inputs).tables[t], name),
                       Base(cfg, After(others).tables[t], name), e.services);
  }

  lemma EqualFinalsEqualRows(cfg: Config, a: State, b: State, snapshot: seq<Entry>)
    requires WellFormed(cfg, snapshot)
    requires forall e :: e in snapshot ==> e.services != [] && Final(cfg, a.rows, e) == Final(cfg, b.rows, e)
    ensures StepRefreshed(cfg, a, snapshot).st.rows == StepRefreshed(cfg, b, snapshot).st.rows
  {
    hide StepRefreshed, UpdateTraps, Final, NameOf;
    UpdateReconciles(cfg, a, snapshot);
    UpdateReconciles(cfg, b, snapshot);
    var p, q := StepRefreshed(cfg, a, snapshot).st.rows, StepRefreshed(cfg, b, snapshot).st.rows;
    assert forall n :: n in p ==> n in q && p[n] == q[n];
    assert forall n :: n in q ==> n in p;
  }

  /** Whatever happened before, one complete snapshot leaves the same table. */
  lemma UpdatesConverge(inputs: seq<Input>, others: seq<Input>, t: TableId, snapshot: seq<Entry>)
    requires WellFormed(ConfigOf(t), snapshot)
    requires forall e :: e in snapshot ==> SuppliesAll(SchemaOf(KindOf(t)), e.services)
    ensures After(inputs + [Update(t, snapshot)]).tables[t] == After(others + [Update(t, snapshot)]).tables[t]
  {
    hide After, StepRefreshed, SuppliesAll, Final, FolderOf;
    forall e | e in snapshot
      ensures e.services != []
      ensures Final(ConfigOf(t), After(inputs).tables[t], e) == Final(ConfigOf(t), After(others).tables[t], e)
    {
      SuppliesAllNeedsServices(KindOf(t), e.services);
      SuppliedFinalsAreEqual(inputs, others, t, e);
    }
    EqualFinalsEqualRows(ConfigOf(t), View(After(inputs), t), View(After(others), t), snapshot);
    UpdateLast(inputs, t, snapshot);
    UpdateLast(others, t, snapshot);
  }

  lemma SuppliesAllNeedsServices(kind: Kind, maps: seq<Fields>)
    requires SuppliesAll(SchemaOf(kind), maps)
    ensures maps != []
  {
    var c := SchemaOf(kind)[0];
    assert exists m :: m in maps && Supplies(m, c);
  }
}
