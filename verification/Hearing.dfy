/** What a receiver hears of one row when `update()` runs. */
module Hearing {
  import opened Wrappers
  import opened Names
  import opened Items
  import opened Oids
  import opened Rules
  import opened TableSpec
  import opened Agent
  import opened Mirror
  import opened Reconcile

  lemma {:induction false} HeardOfBoth(a: seq<Trap>, b: seq<Trap>, cells: seq<Oid>)
    ensures Heard(a + b, cells) == Heard(a, cells) + Heard(b, cells)
    decreases |b|
  {
    if b == [] {
      assert a + b == a;
    } else {
      var front := b[..|b| - 1];
      assert (a + b)[..|a + b| - 1] == a + front;
      HeardOfBoth(a, front, cells);
    }
  }

  /** Of the traps about one row, its own receiver hears the values and no other hears anything. */
  lemma HeardOfTraps(traps: seq<Trap>, u: TableId, other: string, t: TableId, name: string)
    requires About(traps, u, other) && Fits(t, name)
    ensures Heard(traps, CellsOf(t, name)) == if (t, name) == (u, other) then AllValues(traps) else []
  {
    hide CellsOf, About, AllValues;
    HeardAppend([], traps, u, other, t, name);
    assert [] + traps == traps;
    assert [] + AllValues(traps) == AllValues(traps);
  }

  /** The values told while the maps are applied in turn. */
  function Moves(kind: Kind, d: Data, maps: seq<Fields>): seq<seq<int>>
    decreases |maps|
  {
    if maps == [] then []
    else
      var next := Merge(SchemaOf(kind), d, maps[0]);
      ChangedValues(kind, Some(Shown(kind, d)), Some(Shown(kind, next))) + Moves(kind, next, maps[1..])
  }

  lemma {:induction false} HeardOfSet(t: TableId, other: string, d: Data, maps: seq<Fields>, name: string)
    requires Fits(t, name)
    ensures Heard(SetTraps(ConfigOf(t), other, d, maps), CellsOf(t, name))
         == if other == name then Moves(KindOf(t), d, maps) else []
    decreases |maps|
  {
    hide CellsOf, ChangeTraps, Merge, SchemaOf, FolderOf, KindOf, About, AllValues, Shown, ChangedValues, Heard, Fits;
    if maps == [] {
      NothingHeard(CellsOf(t, name));
    } else {
      var next := Merge(SchemaOf(KindOf(t)), d, maps[0]);
      var first := ChangeTraps(KindOf(t), FolderOf(t), other, d, next);
      ChangeTrapsReport(t, other, d, next);
      HeardOfTraps(first, t, other, t, name);
      HeardOfSet(t, other, next, maps[1..], name);
      HeardOfBoth(first, SetTraps(ConfigOf(t), other, next, maps[1..]), CellsOf(t, name));
    }
  }

  lemma NothingHeard(cells: seq<Oid>)
    ensures Heard([], cells) == []
  {
  }

  /** What the object of an entry says: its creation if it is new, then its changes. */
  function EntryValues(t: TableId, rows: Rows, e: Entry): seq<seq<int>> {
    if e.services == [] then []
    else
      var base := Base(ConfigOf(t), rows, NameOf(ConfigOf(t), e));
      ChangedValues(KindOf(t), Live(rows, KindOf(t), NameOf(ConfigOf(t), e)), Some(Shown(KindOf(t), base)))
      + Moves(KindOf(t), base, e.services)
  }

  lemma HeardOfEntry(t: TableId, rows: Rows, e: Entry, name: string)
    requires Fits(t, name)
    ensures Heard(EntryTraps(ConfigOf(t), rows, e), CellsOf(t, name))
         == if NameOf(ConfigOf(t), e) == name then EntryValues(t, rows, e) else []
  {
    hide CellsOf, CreateTraps, SetTraps, FolderOf, KindOf, About, AllValues, Shown, Heard, Fits, Moves, NameOf,
         DefaultData;
    NothingHeard(CellsOf(t, name));
    if e.services != [] {
      var other := NameOf(ConfigOf(t), e);
      var base := Base(ConfigOf(t), rows, other);
      var created := if other in rows then [] else CreateTraps(KindOf(t), FolderOf(t), other);
      HeardOfCreation(t, rows, other, name);
      HeardOfSet(t, other, base, e.services, name);
      HeardOfBoth(created, SetTraps(ConfigOf(t), other, base, e.services), CellsOf(t, name));
    }
  }

  lemma HeardOfCreation(t: TableId, rows: Rows, other: string, name: string)
    requires Fits(t, name)
    ensures Heard(if other in rows then [] else CreateTraps(KindOf(t), FolderOf(t), other), CellsOf(t, name))
         == if other == name
            then ChangedValues(KindOf(t), Live(rows, KindOf(t), name),
                               Some(Shown(KindOf(t), Base(ConfigOf(t), rows, name))))
            else []
  {
    hide CellsOf, CreateTraps, FolderOf, KindOf, About, AllValues, Shown, Heard, Fits, DefaultData;
    NothingHeard(CellsOf(t, name));
    if other !in rows {
      CreateTrapsReport(t, other);
      HeardOfTraps(CreateTraps(KindOf(t), FolderOf(t), other), t, other, t, name);
    }
  }

  lemma {:induction false} HeardOfEntries(t: TableId, rows: Rows, snapshot: seq<Entry>, name: string)
    requires Fits(t, name) && WellFormed(ConfigOf(t), snapshot)
    ensures !Mentions(ConfigOf(t), snapshot, name) ==>
              Heard(EntriesTraps(ConfigOf(t), rows, snapshot), CellsOf(t, name)) == []
    ensures forall e :: e in snapshot && NameOf(ConfigOf(t), e) == name ==>
              Heard(EntriesTraps(ConfigOf(t), rows, snapshot), CellsOf(t, name)) == EntryValues(t, rows, e)
    decreases |snapshot|
  {
    hide CellsOf, EntryTraps, EntryValues, FolderOf, Heard, Fits, NameOf;
    var cfg := ConfigOf(t);
    if snapshot == [] {
      NothingHeard(CellsOf(t, name));
    } else {
      var e, rest := snapshot[0], snapshot[1..];
      assert snapshot == [e] + rest;
      WellFormedRest(cfg, snapshot);
      HeardOfEntry(t, rows, e, name);
      HeardOfEntries(t, rows, rest, name);
      HeardOfBoth(EntryTraps(cfg, rows, e), EntriesTraps(cfg, rows, rest), CellsOf(t, name));
      if NameOf(cfg, e) == name {
        assert !Mentions(cfg, rest, name);
      } else {
        assert Mentions(cfg, snapshot, name) <==> Mentions(cfg, rest, name);
      }
    }
  }

  lemma {:induction false} HeardOfVanished(t: TableId, rows: Rows, names: seq<string>, paths: set<string>, name: string)
    requires Fits(t, name) && forall i, j :: 0 <= i < j < |names| ==> names[i] != names[j]
    ensures Heard(VanishTraps(ConfigOf(t), rows, names, paths), CellsOf(t, name))
         == if name in names && name in rows && PathOf(ConfigOf(t), name) !in paths
            then ChangedValues(KindOf(t), Live(rows, KindOf(t), name), None) else []
    decreases |names|
  {
    hide CellsOf, DestroyTraps, FolderOf, KindOf, About, AllValues, Shown, Heard, Fits, PathOf, ChangedValues;
    NothingHeard(CellsOf(t, name));
    if names != [] {
      var cfg, other, rest := ConfigOf(t), names[0], names[1..];
      assert names == [other] + rest;
      HeardOfVanished(t, rows, rest, paths, name);
      if PathOf(cfg, other) in paths || other !in rows {
        assert [] + VanishTraps(cfg, rows, rest, paths) == VanishTraps(cfg, rows, rest, paths);
      } else {
        DestroyTrapsReport(t, other, rows[other]);
        var first := DestroyTraps(KindOf(t), FolderOf(t), other, rows[other]);
        HeardOfTraps(first, t, other, t, name);
        HeardOfBoth(first, VanishTraps(cfg, rows, rest, paths), CellsOf(t, name));
      }
    }
  }

  /**
   * What one `update()` adds to what is heard of a row: its destruction if it vanishes,
   * its creation and changes if the snapshot has it, and nothing otherwise.
   */
  lemma UpdateIsHeard(t: TableId, st: State, snapshot: seq<Entry>, name: string)
    requires WellFormed(ConfigOf(t), snapshot) && Fits(t, name)
    ensures
      var cfg, kind, cells := ConfigOf(t), KindOf(t), CellsOf(t, name);
      var before, after := Heard(st.log, cells), Heard(StepRefreshed(cfg, st, snapshot).st.log, cells);
      && (!Mentions(cfg, snapshot, name) && name in st.rows ==>
           after == before + ChangedValues(kind, Live(st.rows, kind, name), None))
      && (!Mentions(cfg, snapshot, name) && name !in st.rows ==> after == before)
      && (forall e :: e in snapshot && NameOf(cfg, e) == name ==> after == before + EntryValues(t, st.rows, e))
  {
    hide CellsOf, EntryValues, FolderOf, KindOf, Heard, Fits, NameOf, StepRefreshed, Sorted, PathsOf, VanishTraps,
         EntriesTraps, ChangedValues, PathOf, Live;
    var cfg, names, cells := ConfigOf(t), Sorted(st.rows.Keys), CellsOf(t, name);
    UpdateReconciles(cfg, st, snapshot);
    SortedElements(st.rows.Keys);
    IncreasingDistinct(names);
    PathsAreNames(cfg, snapshot, name);
    HeardOfVanished(t, st.rows, names, PathsOf(snapshot), name);
    HeardOfEntries(t, st.rows, snapshot, name);
    var gone, entries := VanishTraps(cfg, st.rows, names, PathsOf(snapshot)), EntriesTraps(cfg, st.rows, snapshot);
    HeardOfBoth(st.log, gone + entries, cells);
    HeardOfBoth(gone, entries, cells);
  }

  /** A change of fields is never told as a disappearance. */
  lemma {:induction false} MovesAreStates(d: Data, maps: seq<Fields>)
    ensures [E_DISABLED] !in Moves(Sensor, d, maps)
    decreases |maps|
  {
    hide Merge, SchemaOf;
    if maps != [] {
      MovesAreStates(Merge(SchemaOf(Sensor), d, maps[0]), maps[1..]);
    }
  }

  /**
   * For sensors: one that vanishes is told disabled once; one that is new is told normal
   * once and then its changes; one that stays is told its changes only, and no change is
   * disabled; the others are told nothing.
   */
  lemma SensorsHearUpdate(t: TableId, st: State, snapshot: seq<Entry>, name: string)
    requires !t.Stock? && WellFormed(ConfigOf(t), snapshot) && Fits(t, name)
    ensures
      var cfg, cells := ConfigOf(t), CellsOf(t, name);
      var before, after := Heard(st.log, cells), Heard(StepRefreshed(cfg, st, snapshot).st.log, cells);
      && (!Mentions(cfg, snapshot, name) ==> after == before + (if name in st.rows then [[E_DISABLED]] else []))
      && forall e :: e in snapshot && NameOf(cfg, e) == name ==>
           var moves := Moves(Sensor, Base(cfg, st.rows, name), e.services);
           && [E_DISABLED] !in moves
           && after == before + (if Leaves(cfg, st.rows, e) && name !in st.rows then [[E_NORMAL]] else []) + moves
  {
    hide CellsOf, FolderOf, Heard, Fits, NameOf, StepRefreshed, Mentions;
    var cfg := ConfigOf(t);
    UpdateIsHeard(t, st, snapshot, name);
    assert Heard(st.log, CellsOf(t, name)) + [] == Heard(st.log, CellsOf(t, name));
    forall e | e in snapshot && NameOf(cfg, e) == name
      ensures [E_DISABLED] !in Moves(Sensor, Base(cfg, st.rows, name), e.services)
      ensures EntryValues(t, st.rows, e) == (if Leaves(cfg, st.rows, e) && name !in st.rows then [[E_NORMAL]] else [])
                                          + Moves(Sensor, Base(cfg, st.rows, name), e.services)
    {
      MovesAreStates(Base(cfg, st.rows, name), e.services);
    }
  }
}
