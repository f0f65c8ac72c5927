/** What every input does to the agent, in the terms of the world outside it. */
module Outcomes {
  import opened Names
  import opened Items
  import opened Rules
  import opened TableSpec
  import opened Agent
  import opened Reconcile
  import opened Runs
  import opened Terms

  lemma ReachableRowsHaveNineFields(inputs: seq<Input>, t: TableId)
    ensures Nine(After(inputs).tables[t])
  {
    hide After;
    forall n | n in After(inputs).tables[t]
      ensures |After(inputs).tables[t][n]| == 9
    {
      RowsStayTyped(inputs, t, n);
      FieldIs(t, 0, Bool(false));
    }
  }

  // Signals

  /** A change of properties reaches the live row whose path is named, and no other. */
  ghost function ChangedIn(t: TableId, st: State, path: string, fields: Fields): State
    requires Folder(t) <= path && Nine(st.rows)
  {
    if |Folder(t)| < |path| && path[|Folder(t)| + 1..] in st.rows && path[|Folder(t)|] == '/' then
      var name := path[|Folder(t)| + 1..];
      State(st.rows[name := Overwrite(t, st.rows[name], fields)], st.log + Changes(t, name, st.rows[name], [fields]))
    else st
  }

  /**
   * Added interfaces matter if the table knows one of them and the path goes on behind the
   * folder. Then the row is there, made if it was missing, with the properties of all the
   * interfaces, known or not, taken in turn.
   */
  ghost function AddedTo(t: TableId, st: State, path: string, data: seq<(string, Fields)>): State
    requires Folder(t) <= path && Nine(st.rows)
  {
    if |Folder(t)| < |path| && exists k :: 0 <= k < |data| && Known(t, data[k].0) then
      var name := path[|Folder(t)| + 1..];
      State(st.rows[name := OverwriteAll(t, Start(t, st.rows, name), MapsOf(data))],
            st.log + Story(t, st.rows, name, MapsOf(data)))
    else st
  }

  /** With an interface that the table knows goes the row, if it is there, and its farewell is sent. */
  ghost function RemovedFrom(t: TableId, st: State, path: string, names: seq<string>): State
    requires Folder(t) <= path && Nine(st.rows)
  {
    if |Folder(t)| < |path| && path[|Folder(t)| + 1..] in st.rows && exists x :: x in names && Known(t, x) then
      var name := path[|Folder(t)| + 1..];
      State(st.rows - {name}, st.log + Farewell(t, name, st.rows[name]))
    else st
  }

  ghost function Outcome(t: TableId, st: State, signal: Signal): State
    requires Folder(t) <= signal.path && Nine(st.rows)
  {
    match signal
    case Added(path, data) => AddedTo(t, st, path, data)
    case Removed(path, names) => RemovedFrom(t, st, path, names)
    case Changed(path, fields) => ChangedIn(t, st, path, fields)
  }

  lemma ChangedIsObserved(t: TableId, st: State, path: string, fields: Fields)
    requires Folder(t) <= path && Nine(st.rows)
    ensures Step(ConfigOf(t), st, Changed(path, fields)).st == ChangedIn(t, st, path, fields)
  {
    hide FolderOf, Folder, Visible, Overwrite, Tell, ChangeTraps, Merge, SchemaOf, KindOf;
    FolderIs(t);
    if |Folder(t)| < |path| && path[|Folder(t)| + 1..] in st.rows {
      SlashFollows(t, path);
      var name := path[|Folder(t)| + 1..];
      var d := st.rows[name];
      MergeOverwrites(t, d, fields);
      ChangeTrapsTell(t, name, d, Overwrite(t, d, fields));
      OneChange(t, name, d, fields);
    }
  }

  lemma SlashFollows(t: TableId, path: string)
    requires Folder(t) <= path && |Folder(t)| < |path|
    ensures path == ObjectPath(t, path[|Folder(t)| + 1..]) <==> path[|Folder(t)|] == '/'
  {
    hide Folder;
    assert path == Folder(t) + [path[|Folder(t)|]] + path[|Folder(t)| + 1..];
    assert ObjectPath(t, path[|Folder(t)| + 1..])[|Folder(t)|] == '/';
  }

  lemma OneChange(t: TableId, name: string, d: Data, fields: Fields)
    requires |d| == 9
    ensures Changes(t, name, d, [fields]) ==
            var next := Overwrite(t, d, fields);
            if Visible(t, d) == Visible(t, next) then [] else Tell(t, name, Visible(t, next))
  {
    hide Visible, Overwrite, Tell;
    assert [fields][1..] == [];
  }

  lemma AddedIsObserved(t: TableId, st: State, path: string, data: seq<(string, Fields)>)
    requires Folder(t) <= path && Nine(st.rows)
    ensures Step(ConfigOf(t), st, Added(path, data)).st == AddedTo(t, st, path, data)
  {
    hide FolderOf, Folder, AssignAll, Touch, Known, Start, Story, OverwriteAll, Owned;
    FolderIs(t);
    OwnedIsKnown(t, FirstOf(data));
    assert forall k :: 0 <= k < |data| ==> FirstOf(data)[k] == data[k].0;
    assert MapsOf(data) == SecondOf(data);
    if |Folder(t)| < |path| {
      WritingARow(t, st, path[|Folder(t)| + 1..], MapsOf(data));
    }
  }

  lemma RemovedIsObserved(t: TableId, st: State, path: string, names: seq<string>)
    requires Folder(t) <= path && Nine(st.rows)
    ensures Step(ConfigOf(t), st, Removed(path, names)).st == RemovedFrom(t, st, path, names)
  {
    hide FolderOf, Folder, DestroyTraps, Known, Farewell, Owned, KindOf;
    FolderIs(t);
    OwnedIsKnown(t, names);
    if |Folder(t)| < |path| && path[|Folder(t)| + 1..] in st.rows {
      DestroyTrapsFarewell(t, path[|Folder(t)| + 1..], st.rows[path[|Folder(t)| + 1..]]);
    }
  }

  lemma StepIsObserved(t: TableId, st: State, signal: Signal)
    requires Folder(t) <= signal.path && Nine(st.rows)
    ensures Step(ConfigOf(t), st, signal).st == Outcome(t, st, signal)
  {
    hide Step, Folder, FolderOf, AddedTo, RemovedFrom, ChangedIn;
    match signal
    case Added(path, data) => AddedIsObserved(t, st, path, data);
    case Removed(path, names) => RemovedIsObserved(t, st, path, names);
    case Changed(path, fields) => ChangedIsObserved(t, st, path, fields);
  }

  /**
   * After any run a signal has its outcome in the one table whose folder its path starts
   * with, whatever the order of the handlers, and no effect if there is none.
   */
  lemma SignalsHaveTheirOutcome(inputs: seq<Input>, signal: Signal, order: Order)
    ensures forall t :: Nine(After(inputs).tables[t])
    ensures
      var ag, next := After(inputs), After(inputs + [Bus(signal, order)]);
      && (forall t :: Folder(t) <= signal.path ==>
            var st := Outcome(t, View(ag, t), signal);
            next == Agent(ag.tables[t := st.rows], st.log))
      && ((forall t :: !(Folder(t) <= signal.path)) ==> next == ag)
  {
    hide After, React, Step, FolderOf, Folder, Outcome, Accepts;
    var ag := After(inputs);
    AfterNext(inputs, Bus(signal, order));
    SignalsConcernOneTable(ag, signal, order);
    forall t
      ensures Nine(ag.tables[t])
      ensures Folder(t) <= signal.path <==> Accepts(FolderOf(t), signal.path)
      ensures Folder(t) <= signal.path ==>
                Step(ConfigOf(t), View(ag, t), signal).st == Outcome(t, View(ag, t), signal)
    {
      ReachableRowsHaveNineFields(inputs, t);
      FolderIsPrefix(t, signal.path);
      if Folder(t) <= signal.path {
        StepIsObserved(t, View(ag, t), signal);
      }
    }
  }

  lemma FolderIsPrefix(t: TableId, path: string)
    ensures Folder(t) <= path <==> Accepts(FolderOf(t), path)
  {
    hide FolderOf, Folder;
    FolderIs(t);
  }

  // Updates

  ghost predicate InSnapshot(t: TableId, snapshot: seq<Entry>, name: string) {
    exists e :: e in snapshot && e.path == ObjectPath(t, name)
  }

  /** What the mapper promises: objects of the table, none of them twice. */
  ghost predicate IsSnapshot(t: TableId, snapshot: seq<Entry>) {
    && (forall e :: e in snapshot ==> |Folder(t)| < |e.path| && e.path == ObjectPath(t, e.path[|Folder(t)| + 1..]))
    && (forall j, k :: 0 <= j < k < |snapshot| ==> snapshot[j].path != snapshot[k].path)
  }

  ghost function Farewells(t: TableId, rows: Rows, names: seq<string>, snapshot: seq<Entry>): seq<Trap>
    requires Nine(rows) && forall n :: n in names ==> n in rows
    decreases |names|
  {
    if names == [] then []
    else (if InSnapshot(t, snapshot, names[0]) then [] else Farewell(t, names[0], rows[names[0]]))
         + Farewells(t, rows, names[1..], snapshot)
  }

  /** The stories of the objects of a snapshot, in its order; one that no service answers for has none. */
  ghost function Stories(t: TableId, rows: Rows, snapshot: seq<Entry>): seq<Trap>
    requires Nine(rows) && forall e :: e in snapshot ==> |Folder(t)| < |e.path|
    decreases |snapshot|
  {
    if snapshot == [] then []
    else
      var e := snapshot[0];
      (if e.services == [] then [] else Story(t, rows, e.path[|Folder(t)| + 1..], e.services))
      + Stories(t, rows, snapshot[1..])
  }

  lemma SnapshotIsWellFormed(t: TableId, snapshot: seq<Entry>)
    requires IsSnapshot(t, snapshot)
    ensures WellFormed(ConfigOf(t), snapshot)
    ensures forall e :: e in snapshot ==> NameOf(ConfigOf(t), e) == e.path[|Folder(t)| + 1..]
  {
    hide FolderOf, Folder;
    FolderIs(t);
    forall k | 0 <= k < |snapshot|
      ensures Below(ConfigOf(t), snapshot[k])
    {
      assert snapshot[k] in snapshot;
    }
  }

  lemma {:induction false} VanishTrapsAreFarewells(t: TableId, rows: Rows, names: seq<string>, snapshot: seq<Entry>)
    requires Nine(rows) && forall n :: n in names ==> n in rows
    ensures VanishTraps(ConfigOf(t), rows, names, PathsOf(snapshot)) == Farewells(t, rows, names, snapshot)
    decreases |names|
  {
    hide FolderOf, Folder, KindOf, DestroyTraps, Farewell, PathsOf, PathOf, ObjectPath;
    if names != [] {
      FolderIs(t);
      PathsOfMembers(snapshot, PathOf(ConfigOf(t), names[0]));
      DestroyTrapsFarewell(t, names[0], rows[names[0]]);
      VanishTrapsAreFarewells(t, rows, names[1..], snapshot);
    }
  }

  lemma EntryTrapsAreAStory(t: TableId, rows: Rows, e: Entry)
    requires Nine(rows) && e.services != []
    ensures EntryTraps(ConfigOf(t), rows, e) == Story(t, rows, NameOf(ConfigOf(t), e), e.services)
  {
    hide FolderOf, KindOf, CreateTraps, SetTraps, Welcome, Changes, Blank, DefaultData, NameOf;
    var name := NameOf(ConfigOf(t), e);
    DefaultIsBlank(t);
    CreateTrapsWelcome(t, name);
    SetTrapsAreChanges(t, name, Start(t, rows, name), e.services);
  }

  lemma {:induction false} EntriesTrapsAreStories(t: TableId, rows: Rows, snapshot: seq<Entry>)
    requires Nine(rows) && forall e :: e in snapshot ==> |Folder(t)| < |e.path|
    requires forall e :: e in snapshot ==> NameOf(ConfigOf(t), e) == e.path[|Folder(t)| + 1..]
    ensures EntriesTraps(ConfigOf(t), rows, snapshot) == Stories(t, rows, snapshot)
    decreases |snapshot|
  {
    hide FolderOf, Folder, Story, NameOf;
    if snapshot != [] {
      assert snapshot[0] in snapshot;
      if snapshot[0].services != [] {
        EntryTrapsAreAStory(t, rows, snapshot[0]);
      }
      EntriesTrapsAreStories(t, rows, snapshot[1..]);
    }
  }

  lemma FinalIsOverwritten(t: TableId, rows: Rows, e: Entry)
    requires Nine(rows)
    ensures Final(ConfigOf(t), rows, e) == OverwriteAll(t, Start(t, rows, NameOf(ConfigOf(t), e)), e.services)
  {
    hide FolderOf, SchemaOf, MergeAll, OverwriteAll, NameOf, Blank, DefaultData, KindOf;
    DefaultIsBlank(t);
    MergeAllOverwrites(t, Start(t, rows, NameOf(ConfigOf(t), e)), e.services);
  }

  /**
   * After an update the table has the snapshot's objects (of those that no service answers
   * for, the ones it had), each with the answers taken in turn.
   */
  ghost predicate RowsAreUpdated(t: TableId, rows: Rows, snapshot: seq<Entry>, after: Rows)
    requires Nine(rows)
  {
    && (forall n :: n in after <==>
          exists e :: e in snapshot && e.path == ObjectPath(t, n) && (e.services != [] || n in rows))
    && (forall n, e :: n in after && e in snapshot && e.path == ObjectPath(t, n) ==>
          after[n] == OverwriteAll(t, Start(t, rows, n), e.services))
  }

  /** First the rows that vanish are told, in the order of their names, then the objects of the snapshot. */
  ghost predicate UpdateIsSent(t: TableId, rows: Rows, snapshot: seq<Entry>, before: seq<Trap>, after: seq<Trap>)
    requires Nine(rows) && IsSnapshot(t, snapshot)
  {
    && (forall n :: n in Sorted(rows.Keys) <==> n in rows)
    && after == before + Farewells(t, rows, Sorted(rows.Keys), snapshot) + Stories(t, rows, snapshot)
  }

  lemma UpdateWrites(t: TableId, st: State, snapshot: seq<Entry>)
    requires Nine(st.rows) && IsSnapshot(t, snapshot)
    ensures RowsAreUpdated(t, st.rows, snapshot, StepRefreshed(ConfigOf(t), st, snapshot).st.rows)
  {
    hide FolderOf, Folder, OverwriteAll, Start, Final, StepRefreshed, UpdateTraps, KindOf, ObjectPath, NameOf,
         IsSnapshot, WellFormed;
    var cfg, rows := ConfigOf(t), st.rows;
    var after := StepRefreshed(cfg, st, snapshot).st.rows;
    SnapshotIsWellFormed(t, snapshot);
    UpdateReconciles(cfg, st, snapshot);
    forall e, n | e in snapshot
      ensures e.path == ObjectPath(t, n) <==> NameOf(cfg, e) == n
    {
      NamesArePaths(t, snapshot, e, n);
    }
    forall n
      ensures n in after <==>
                exists e :: e in snapshot && e.path == ObjectPath(t, n) && (e.services != [] || n in rows)
    {
      if n in after {
        var e :| e in snapshot && NameOf(cfg, e) == n && Leaves(cfg, rows, e);
        assert e.path == ObjectPath(t, n);
      }
      forall e | e in snapshot && e.path == ObjectPath(t, n) && (e.services != [] || n in rows)
        ensures n in after
      {
        assert NameOf(cfg, e) == n && Leaves(cfg, rows, e);
      }
    }
    forall n, e | n in after && e in snapshot && e.path == ObjectPath(t, n)
      ensures after[n] == OverwriteAll(t, Start(t, rows, n), e.services)
    {
      assert NameOf(cfg, e) == n;
      FinalIsOverwritten(t, rows, e);
      LeavesIfThere(t, st, snapshot, e);
    }
  }

  /** Two objects of a snapshot have two names. */
  lemma LeavesIfThere(t: TableId, st: State, snapshot: seq<Entry>, e: Entry)
    requires WellFormed(ConfigOf(t), snapshot) && e in snapshot
    requires NameOf(ConfigOf(t), e) in StepRefreshed(ConfigOf(t), st, snapshot).st.rows
    ensures Leaves(ConfigOf(t), st.rows, e)
  {
    hide FolderOf, KindOf, StepRefreshed, UpdateTraps, Final;
    var cfg := ConfigOf(t);
    UpdateReconciles(cfg, st, snapshot);
    var f :| f in snapshot && NameOf(cfg, f) == NameOf(cfg, e) && Leaves(cfg, st.rows, f);
    assert Below(cfg, e) && Below(cfg, f);
    assert e == f;
  }

  lemma UpdateSends(t: TableId, st: State, snapshot: seq<Entry>)
    requires Nine(st.rows) && IsSnapshot(t, snapshot)
    ensures UpdateIsSent(t, st.rows, snapshot, st.log, StepRefreshed(ConfigOf(t), st, snapshot).st.log)
  {
    hide FolderOf, Folder, Farewells, Stories, StepRefreshed, Sorted, PathsOf, VanishTraps, EntriesTraps, KindOf,
         ObjectPath, NameOf, WellFormed, Final, Leaves;
    var cfg, names := ConfigOf(t), Sorted(st.rows.Keys);
    SortedElements(st.rows.Keys);
    SnapshotIsWellFormed(t, snapshot);
    UpdateReconciles(cfg, st, snapshot);
    VanishTrapsAreFarewells(t, st.rows, names, snapshot);
    EntriesTrapsAreStories(t, st.rows, snapshot);
    var gone, told := Farewells(t, st.rows, names, snapshot), Stories(t, st.rows, snapshot);
    assert st.log + (gone + told) == st.log + gone + told;
  }

  /** After any run an update has this outcome in its table, and none in the others. */
  lemma UpdatesHaveTheirOutcome(inputs: seq<Input>, t: TableId, snapshot: seq<Entry>)
    requires IsSnapshot(t, snapshot)
    ensures Nine(After(inputs).tables[t])
    ensures
      var ag, next := After(inputs), After(inputs + [Update(t, snapshot)]);
      && next.tables == ag.tables[t := next.tables[t]]
      && RowsAreUpdated(t, ag.tables[t], snapshot, next.tables[t])
      && UpdateIsSent(t, ag.tables[t], snapshot, ag.log, next.log)
  {
    hide After, FolderOf, Folder, RowsAreUpdated, UpdateIsSent, StepRefreshed, KindOf, IsSnapshot;
    ReachableRowsHaveNineFields(inputs, t);
    AfterNext(inputs, Update(t, snapshot));
    UpdateWrites(t, View(After(inputs), t), snapshot);
    UpdateSends(t, View(After(inputs), t), snapshot);
  }

  lemma NamesArePaths(t: TableId, snapshot: seq<Entry>, e: Entry, name: string)
    requires IsSnapshot(t, snapshot) && e in snapshot
    ensures e.path == ObjectPath(t, name) <==> NameOf(ConfigOf(t), e) == name
  {
    hide FolderOf, Folder;
    SnapshotIsWellFormed(t, snapshot);
    assert ObjectPath(t, name)[|Folder(t)| + 1..] == name;
  }
}
