/** What `update()` does to a table, in closed form. */
module Reconcile {
  import opened Wrappers
  import opened Names
  import opened Items
  import opened Rules
  import opened TableSpec

  function NameOf(cfg: Config, e: Entry): string {
    RowName(cfg.folder, e.path).GetOr("")
  }

  /** What the mapper promises: paths below the folder, no path twice. */
  ghost predicate WellFormed(cfg: Config, snapshot: seq<Entry>) {
    && (forall k :: 0 <= k < |snapshot| ==> Below(cfg, snapshot[k]))
    && (forall j, k :: 0 <= j < k < |snapshot| ==> snapshot[j].path != snapshot[k].path)
  }

  predicate Below(cfg: Config, e: Entry) {
    RowName(cfg.folder, e.path).Some? && e.path == PathOf(cfg, NameOf(cfg, e))
  }

  /** The row that the services' answers are written over. */
  function Base(cfg: Config, rows: Rows, name: string): Data {
    if name in rows then rows[name] else DefaultData(cfg.kind)
  }

  function Final(cfg: Config, rows: Rows, e: Entry): Data {
    MergeAll(SchemaOf(cfg.kind), Base(cfg, rows, NameOf(cfg, e)), e.services)
  }

  /** The traps of applying field maps in turn to one row. */
  function SetTraps(cfg: Config, name: string, d: Data, maps: seq<Fields>): seq<Trap>
    decreases |maps|
  {
    if maps == [] then []
    else
      var next := Merge(SchemaOf(cfg.kind), d, maps[0]);
      ChangeTraps(cfg.kind, cfg.folder, name, d, next) + SetTraps(cfg, name, next, maps[1..])
  }

  /** The traps for one object: creation if the row is new, then one per visible change. */
  function EntryTraps(cfg: Config, rows: Rows, e: Entry): seq<Trap> {
    var name := NameOf(cfg, e);
    if e.services == [] then []
    else (if name in rows then [] else CreateTraps(cfg.kind, cfg.folder, name))
         + SetTraps(cfg, name, Base(cfg, rows, name), e.services)
  }

  function EntriesTraps(cfg: Config, rows: Rows, snapshot: seq<Entry>): seq<Trap> {
    if snapshot == [] then [] else EntryTraps(cfg, rows, snapshot[0]) + EntriesTraps(cfg, rows, snapshot[1..])
  }

  /** The traps for the rows that vanish, in the order of their names. */
  function VanishTraps(cfg: Config, rows: Rows, names: seq<string>, paths: set<string>): seq<Trap> {
    if names == [] then []
    else (if PathOf(cfg, names[0]) in paths || names[0] !in rows then []
          else DestroyTraps(cfg.kind, cfg.folder, names[0], rows[names[0]]))
         + VanishTraps(cfg, rows, names[1..], paths)
  }

  // The two loops

  lemma {:induction false} VanishTrapsOnlyLookUp(cfg: Config, rows: Rows, other: Rows, names: seq<string>,
                                                 paths: set<string>)
    requires forall n :: n in names ==> (n in rows <==> n in other) && (n in rows ==> rows[n] == other[n])
    ensures VanishTraps(cfg, rows, names, paths) == VanishTraps(cfg, other, names, paths)
    decreases |names|
  {
    if names != [] {
      assert names[0] in names;
      VanishTrapsOnlyLookUp(cfg, rows, other, names[1..], paths);
    }
  }

  lemma {:induction false} DropVanishedLog(cfg: Config, st: State, names: seq<string>, paths: set<string>)
    requires forall i, j :: 0 <= i < j < |names| ==> names[i] != names[j]
    ensures DropVanished(cfg, st, names, paths).log == st.log + VanishTraps(cfg, st.rows, names, paths)
    decreases |names|
  {
    hide DestroyTraps, PathOf;
    if names != [] {
      var next := if PathOf(cfg, names[0]) in paths then st else Drop(cfg, st, names[0]);
      DropVanishedLog(cfg, next, names[1..], paths);
      VanishTrapsOnlyLookUp(cfg, st.rows, next.rows, names[1..], paths);
      var first := if PathOf(cfg, names[0]) in paths || names[0] !in st.rows then []
                   else DestroyTraps(cfg.kind, cfg.folder, names[0], st.rows[names[0]]);
      var rest := VanishTraps(cfg, st.rows, names[1..], paths);
      assert next.log == st.log + first;
      assert (st.log + first) + rest == st.log + (first + rest);
    }
  }

  lemma {:induction false} AssignAllResult(cfg: Config, st: State, name: string, maps: seq<Fields>)
    requires name in st.rows
    ensures AssignAll(cfg, st, name, maps).rows
         == st.rows[name := MergeAll(SchemaOf(cfg.kind), st.rows[name], maps)]
    ensures AssignAll(cfg, st, name, maps).log == st.log + SetTraps(cfg, name, st.rows[name], maps)
    decreases |maps|
  {
    if maps != [] {
      AssignAllResult(cfg, Assign(cfg, st, name, maps[0]), name, maps[1..]);
    }
  }

  lemma {:induction false} PopulateEntryIsAssignAll(cfg: Config, st: State, e: Entry, services: seq<Fields>)
    requires Below(cfg, e) && NameOf(cfg, e) in st.rows
    ensures PopulateEntry(cfg, st, e.path, services) == Result(AssignAll(cfg, st, NameOf(cfg, e), services), true)
    decreases |services|
  {
    if services != [] {
      PopulateEntryIsAssignAll(cfg, Assign(cfg, st, NameOf(cfg, e), services[0]), e, services[1..]);
    }
  }

  function Upsert(cfg: Config, rows: Rows, e: Entry): Rows {
    if e.services == [] then rows else rows[NameOf(cfg, e) := Final(cfg, rows, e)]
  }

  lemma PopulateEntryTouchesFirst(cfg: Config, st: State, e: Entry)
    requires Below(cfg, e) && e.services != []
    ensures PopulateEntry(cfg, st, e.path, e.services)
         == Result(AssignAll(cfg, Touch(cfg, st, NameOf(cfg, e)), NameOf(cfg, e), e.services), true)
  {
    var touched := Touch(cfg, st, NameOf(cfg, e));
    assert Touch(cfg, touched, NameOf(cfg, e)) == touched;
    assert PopulateEntry(cfg, st, e.path, e.services) == PopulateEntry(cfg, touched, e.path, e.services);
    PopulateEntryIsAssignAll(cfg, touched, e, e.services);
  }

  lemma PopulateEntryResult(cfg: Config, st: State, e: Entry)
    requires Below(cfg, e)
    ensures PopulateEntry(cfg, st, e.path, e.services)
         == Result(State(Upsert(cfg, st.rows, e), st.log + EntryTraps(cfg, st.rows, e)), true)
  {
    hide CreateTraps, ChangeTraps, Merge, SchemaOf, DefaultData;
    if e.services == [] {
      assert st.log + [] == st.log;
    } else {
      var name := NameOf(cfg, e);
      var touched := Touch(cfg, st, name);
      PopulateEntryTouchesFirst(cfg, st, e);
      AssignAllResult(cfg, touched, name, e.services);
      var created := if name in st.rows then [] else CreateTraps(cfg.kind, cfg.folder, name);
      assert touched.log == st.log + created;
      assert touched.rows[name] == Base(cfg, st.rows, name);
      assert touched.rows[name := Final(cfg, st.rows, e)] == Upsert(cfg, st.rows, e);
      var applied := SetTraps(cfg, name, Base(cfg, st.rows, name), e.services);
      assert (st.log + created) + applied == st.log + (created + applied);
    }
  }

  lemma {:induction false} EntriesTrapsOnlyLookUp(cfg: Config, rows: Rows, other: Rows, snapshot: seq<Entry>)
    requires forall e :: e in snapshot ==>
               var n := NameOf(cfg, e); (n in rows <==> n in other) && (n in rows ==> rows[n] == other[n])
    ensures EntriesTraps(cfg, rows, snapshot) == EntriesTraps(cfg, other, snapshot)
    decreases |snapshot|
  {
    if snapshot != [] {
      assert snapshot[0] in snapshot;
      EntriesTrapsOnlyLookUp(cfg, rows, other, snapshot[1..]);
    }
  }

  function UpsertAll(cfg: Config, rows: Rows, snapshot: seq<Entry>): Rows
    decreases |snapshot|
  {
    if snapshot == [] then rows else UpsertAll(cfg, Upsert(cfg, rows, snapshot[0]), snapshot[1..])
  }

  lemma WellFormedRest(cfg: Config, snapshot: seq<Entry>)
    requires WellFormed(cfg, snapshot) && snapshot != []
    ensures WellFormed(cfg, snapshot[1..]) && Below(cfg, snapshot[0])
    ensures forall d :: d in snapshot[1..] ==> NameOf(cfg, d) != NameOf(cfg, snapshot[0])
  {
    var rest := snapshot[1..];
    assert forall k :: 0 <= k < |rest| ==> rest[k] == snapshot[k + 1];
  }

  lemma {:induction false} PopulateResult(cfg: Config, st: State, snapshot: seq<Entry>)
    requires WellFormed(cfg, snapshot)
    ensures Populate(cfg, st, snapshot)
         == Result(State(UpsertAll(cfg, st.rows, snapshot), st.log + EntriesTraps(cfg, st.rows, snapshot)), true)
    decreases |snapshot|
  {
    hide CreateTraps, ChangeTraps, Merge, SchemaOf, DefaultData, PopulateEntry, EntryTraps;
    if snapshot == [] {
      assert st.log + [] == st.log;
    } else {
      var e, rest := snapshot[0], snapshot[1..];
      WellFormedRest(cfg, snapshot);
      PopulateEntryResult(cfg, st, e);
      var next := PopulateEntry(cfg, st, e.path, e.services).st;
      PopulateResult(cfg, next, rest);
      EntriesTrapsOnlyLookUp(cfg, st.rows, next.rows, rest);
      var first, others := EntryTraps(cfg, st.rows, e), EntriesTraps(cfg, st.rows, rest);
      assert (st.log + first) + others == st.log + (first + others);
    }
  }

  /** An entry of this name creates the row, or finds it there. */
  predicate Leaves(cfg: Config, rows: Rows, e: Entry) {
    e.services != [] || NameOf(cfg, e) in rows
  }

  ghost predicate Mentions(cfg: Config, snapshot: seq<Entry>, name: string) {
    exists e :: e in snapshot && NameOf(cfg, e) == name
  }

  /** Every entry writes its own row, and the other rows stay. */
  lemma {:induction false} UpsertAllResult(cfg: Config, rows: Rows, snapshot: seq<Entry>, name: string)
    requires WellFormed(cfg, snapshot)
    ensures !Mentions(cfg, snapshot, name) ==>
              && (name in UpsertAll(cfg, rows, snapshot) <==> name in rows)
              && (name in rows ==> UpsertAll(cfg, rows, snapshot)[name] == rows[name])
    ensures forall e :: e in snapshot && NameOf(cfg, e) == name ==>
              && (name in UpsertAll(cfg, rows, snapshot) <==> Leaves(cfg, rows, e))
              && (Leaves(cfg, rows, e) ==> UpsertAll(cfg, rows, snapshot)[name] == Final(cfg, rows, e))
    decreases |snapshot|
  {
    if snapshot != [] {
      var e, rest := snapshot[0], snapshot[1..];
      assert snapshot == [e] + rest;
      WellFormedRest(cfg, snapshot);
      UpsertAllResult(cfg, Upsert(cfg, rows, e), rest, name);
      if NameOf(cfg, e) == name {
        assert !Mentions(cfg, rest, name);
      } else {
        assert Mentions(cfg, snapshot, name) <==> Mentions(cfg, rest, name);
      }
    }
  }

  // `update()` as a whole

  lemma {:induction false} PathsOfMembers(snapshot: seq<Entry>, path: string)
    ensures path in PathsOf(snapshot) <==> exists e :: e in snapshot && e.path == path
    decreases |snapshot|
  {
    if snapshot != [] {
      assert snapshot == [snapshot[0]] + snapshot[1..];
      PathsOfMembers(snapshot[1..], path);
    }
  }

  /** Below the folder, paths and names are one and the same. */
  lemma PathsAreNames(cfg: Config, snapshot: seq<Entry>, name: string)
    requires WellFormed(cfg, snapshot)
    ensures PathOf(cfg, name) in PathsOf(snapshot) <==> Mentions(cfg, snapshot, name)
  {
    PathsOfMembers(snapshot, PathOf(cfg, name));
    assert RowName(cfg.folder, PathOf(cfg, name)) == Some(name);
    if Mentions(cfg, snapshot, name) {
      var e :| e in snapshot && NameOf(cfg, e) == name;
      assert Below(cfg, e);
    }
  }

  /** The rows that the first loop keeps. */
  function Kept(cfg: Config, rows: Rows, paths: set<string>): Rows {
    map n | n in rows && PathOf(cfg, n) in paths :: rows[n]
  }

  /** All traps of one `update()`: the vanished rows in name order, then the objects in snapshot order. */
  ghost function UpdateTraps(cfg: Config, rows: Rows, snapshot: seq<Entry>): seq<Trap> {
    VanishTraps(cfg, rows, Sorted(rows.Keys), PathsOf(snapshot)) + EntriesTraps(cfg, rows, snapshot)
  }

  lemma UpdateIsUpsertOfKept(cfg: Config, st: State, snapshot: seq<Entry>)
    requires WellFormed(cfg, snapshot)
    ensures StepRefreshed(cfg, st, snapshot)
         == Result(State(UpsertAll(cfg, Kept(cfg, st.rows, PathsOf(snapshot)), snapshot),
                         st.log + UpdateTraps(cfg, st.rows, snapshot)), true)
  {
    hide DropVanished, Populate, EntriesTraps, UpsertAll, VanishTraps, Sorted;
    var names, paths := Sorted(st.rows.Keys), PathsOf(snapshot);
    SortedElements(st.rows.Keys);
    IncreasingDistinct(names);
    DropVanishedKeeps(cfg, st, names, paths);
    DropVanishedLog(cfg, st, names, paths);
    var dropped := DropVanished(cfg, st, names, paths);
    assert dropped.rows == Kept(cfg, st.rows, paths);
    PopulateResult(cfg, dropped, snapshot);
    forall e | e in snapshot
      ensures PathOf(cfg, NameOf(cfg, e)) in paths
    {
      PathsAreNames(cfg, snapshot, NameOf(cfg, e));
    }
    EntriesTrapsOnlyLookUp(cfg, dropped.rows, st.rows, snapshot);
    var gone, entries := VanishTraps(cfg, st.rows, names, paths), EntriesTraps(cfg, st.rows, snapshot);
    assert (st.log + gone) + entries == st.log + (gone + entries);
  }

  /**
   * After `update()` the table has a row for exactly the snapshot's objects (an object that
   * no service answers for keeps a row but gets none), each with the answers written over
   * what was there, or over the defaults; nothing is thrown, and the traps are known.
   */
  lemma UpdateReconciles(cfg: Config, st: State, snapshot: seq<Entry>)
    requires WellFormed(cfg, snapshot)
    ensures var r := StepRefreshed(cfg, st, snapshot);
            && r.ok
            && (forall n :: n in r.st.rows <==>
                  exists e :: e in snapshot && NameOf(cfg, e) == n && Leaves(cfg, st.rows, e))
            && (forall e :: e in snapshot && Leaves(cfg, st.rows, e) ==>
                  r.st.rows[NameOf(cfg, e)] == Final(cfg, st.rows, e))
            && r.st.log == st.log + UpdateTraps(cfg, st.rows, snapshot)
  {
    hide UpsertAll, StepRefreshed, Final, UpdateTraps, PathsOf;
    UpdateIsUpsertOfKept(cfg, st, snapshot);
    var kept := Kept(cfg, st.rows, PathsOf(snapshot));
    var rows := StepRefreshed(cfg, st, snapshot).st.rows;
    forall n
      ensures n in rows <==> exists e :: e in snapshot && NameOf(cfg, e) == n && Leaves(cfg, st.rows, e)
    {
      UpsertAllResult(cfg, kept, snapshot, n);
      PathsAreNames(cfg, snapshot, n);
      assert forall e :: e in snapshot && NameOf(cfg, e) == n ==> Leaves(cfg, kept, e) == Leaves(cfg, st.rows, e);
    }
    forall e | e in snapshot && Leaves(cfg, st.rows, e)
      ensures rows[NameOf(cfg, e)] == Final(cfg, st.rows, e)
    {
      UpsertAllResult(cfg, kept, snapshot, NameOf(cfg, e));
      PathsAreNames(cfg, snapshot, NameOf(cfg, e));
      SameBaseSameFinal(cfg, kept, st.rows, e);
    }
  }

  lemma SameBaseSameFinal(cfg: Config, rows: Rows, other: Rows, e: Entry)
    requires Base(cfg, rows, NameOf(cfg, e)) == Base(cfg, other, NameOf(cfg, e))
    ensures Final(cfg, rows, e) == Final(cfg, other, e)
  {
  }

  // Snapshots that the mapper does not give

  lemma {:induction false} PopulateEntryOk(cfg: Config, st: State, path: string, services: seq<Fields>)
    ensures PopulateEntry(cfg, st, path, services).ok <==> services == [] || |cfg.folder| < |path|
    ensures services != [] && |path| <= |cfg.folder| ==> PopulateEntry(cfg, st, path, services).st == st
    decreases |services|
  {
    hide Touch, Assign;
    var name := RowName(cfg.folder, path);
    if services != [] && name.Some? {
      PopulateEntryOk(cfg, Assign(cfg, Touch(cfg, st, name.value), name.value, services[0]), path, services[1..]);
    }
  }

  /** Answered for, but not longer than the folder: `substr` throws. */
  predicate Throws(cfg: Config, e: Entry) {
    e.services != [] && |e.path| <= |cfg.folder|
  }

  lemma {:induction false} PopulateStopsAtTheFirst(cfg: Config, st: State, snapshot: seq<Entry>, k: nat)
    requires k <= |snapshot| && forall j :: 0 <= j < k ==> !Throws(cfg, snapshot[j])
    requires k < |snapshot| ==> Throws(cfg, snapshot[k])
    ensures Populate(cfg, st, snapshot[..k]).ok
    ensures Populate(cfg, st, snapshot) == Result(Populate(cfg, st, snapshot[..k]).st, k == |snapshot|)
    decreases |snapshot|
  {
    hide PopulateEntry;
    if snapshot != [] {
      PopulateEntryOk(cfg, st, snapshot[0].path, snapshot[0].services);
      if k > 0 {
        var r := PopulateEntry(cfg, st, snapshot[0].path, snapshot[0].services);
        assert snapshot[..k][1..] == snapshot[1..][..k - 1];
        PopulateStopsAtTheFirst(cfg, r.st, snapshot[1..], k - 1);
      }
    }
  }

  /**
   * For every snapshot: an update throws exactly when an object that a service answers for
   * has a path that is not longer than the folder. The objects before the first such one
   * are written, and no other.
   */
  lemma UpdateThrowsExactlyWhen(cfg: Config, st: State, snapshot: seq<Entry>, k: nat)
    requires k <= |snapshot|
    requires forall j :: 0 <= j < k ==> snapshot[j].services == [] || |cfg.folder| < |snapshot[j].path|
    requires k < |snapshot| ==> snapshot[k].services != [] && |snapshot[k].path| <= |cfg.folder|
    ensures Step(cfg, st, Refreshed(snapshot)).ok <==> k == |snapshot|
    ensures var kept := DropVanished(cfg, st, Sorted(st.rows.Keys), PathsOf(snapshot));
            Step(cfg, st, Refreshed(snapshot)).st == Populate(cfg, kept, snapshot[..k]).st
  {
    hide DropVanished, Populate, Sorted, PathsOf;
    PopulateStopsAtTheFirst(cfg, DropVanished(cfg, st, Sorted(st.rows.Keys), PathsOf(snapshot)), snapshot, k);
  }

  /** With an answer for every object, the names are exactly the snapshot's. */
  lemma UpdateLeavesTheSnapshotsNames(cfg: Config, st: State, snapshot: seq<Entry>)
    requires WellFormed(cfg, snapshot)
    requires forall e :: e in snapshot ==> e.services != []
    ensures forall n :: n in StepRefreshed(cfg, st, snapshot).st.rows <==> Mentions(cfg, snapshot, n)
  {
    hide StepRefreshed, UpdateTraps;
    UpdateReconciles(cfg, st, snapshot);
  }

  /** A property that no service supplies keeps its value in a row that survives. */
  lemma UnsuppliedFieldsSurvive(cfg: Config, st: State, snapshot: seq<Entry>, e: Entry, i: nat)
    requires WellFormed(cfg, snapshot) && e in snapshot && NameOf(cfg, e) in st.rows
    requires i < |SchemaOf(cfg.kind)| && i < |st.rows[NameOf(cfg, e)]|
    requires forall m :: m in e.services ==> !Supplies(m, SchemaOf(cfg.kind)[i])
    ensures var rows := StepRefreshed(cfg, st, snapshot).st.rows;
            && NameOf(cfg, e) in rows && i < |rows[NameOf(cfg, e)]|
            && rows[NameOf(cfg, e)][i] == st.rows[NameOf(cfg, e)][i]
  {
    hide StepRefreshed, UpdateTraps, SchemaOf;
    UpdateReconciles(cfg, st, snapshot);
    MergeAllAt(SchemaOf(cfg.kind), st.rows[NameOf(cfg, e)], e.services, i);
    LastSupplyIsASupply(e.services, SchemaOf(cfg.kind)[i]);
  }
}
