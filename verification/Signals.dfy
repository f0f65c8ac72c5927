/** What one InterfacesAdded or InterfacesRemoved signal does to the rows of a table. */
module Signals {
  import opened Items
  import opened Rules
  import opened TableSpec
  import opened Agent
  import opened Reconcile

  /** The table has no list of interfaces, or one of these is on it. */
  ghost predicate Takes(cfg: Config, interfaces: seq<string>) {
    cfg.interfaces == [] || exists i :: 0 <= i < |interfaces| && interfaces[i] in cfg.interfaces
  }

  lemma TakesIsOwned(cfg: Config, interfaces: seq<string>)
    ensures Takes(cfg, interfaces) <==> Owned(cfg, interfaces)
  {
  }

  /** The names of the interfaces that came with an object. */
  function InterfacesOf(data: seq<(string, Fields)>): seq<string> {
    seq(|data|, i requires 0 <= i < |data| => data[i].0)
  }

  // InterfacesAdded

  /**
   * For every table and every path behind its folder: an added object that the table takes
   * has a row afterwards; any other leaves rows and log as they were.
   */
  lemma AddedExactlyWhenTaken(cfg: Config, st: State, path: string, data: seq<(string, Fields)>)
    requires cfg.folder <= path && |cfg.folder| < |path|
    ensures var after, name := Step(cfg, st, Added(path, data)), path[|cfg.folder| + 1..];
            && after.ok
            && (Takes(cfg, InterfacesOf(data)) ==> after.st.rows.Keys == st.rows.Keys + {name})
            && (forall n :: n in st.rows && n != name ==> n in after.st.rows && after.st.rows[n] == st.rows[n])
            && (!Takes(cfg, InterfacesOf(data)) ==> after.st == st)
  {
    hide CreateTraps, ChangeTraps, Merge, MergeAll, DefaultData, Owned, Takes, SetTraps;
    assert InterfacesOf(data) == FirstOf(data);
    TakesIsOwned(cfg, InterfacesOf(data));
    var name := path[|cfg.folder| + 1..];
    if Takes(cfg, InterfacesOf(data)) {
      AssignAllResult(cfg, Touch(cfg, st, name), name, SecondOf(data));
    }
  }

  /** The interfaces of an added object, written one by one, amount to one write of their union. */
  lemma AddedInterfacesAmountToTheirUnion(cfg: Config, st: State, path: string, data: seq<(string, Fields)>,
                                          merged: Fields)
    requires cfg.folder <= path && |cfg.folder| < |path| && Takes(cfg, InterfacesOf(data))
    requires IsUnion(SchemaOf(cfg.kind), SecondOf(data), merged)
    ensures var name := path[|cfg.folder| + 1..];
            Step(cfg, st, Added(path, data)).st.rows ==
            st.rows[name := Merge(SchemaOf(cfg.kind), Base(cfg, st.rows, name), merged)]
  {
    hide Merge, MergeAll, IsUnion, SchemaOf;
    var name := RowName(cfg.folder, path).value;
    AssignAllResult(cfg, Touch(cfg, st, name), name, SecondOf(data));
    ApplyingOneByOneIsApplyingTheUnion(SchemaOf(cfg.kind), Base(cfg, st.rows, name), SecondOf(data), merged);
  }

  /** Agreeing interfaces may come in any order. */
  lemma AddedInterfacesInAnyOrder(cfg: Config, st: State, path: string, data: seq<(string, Fields)>,
                                  other: seq<(string, Fields)>)
    requires Agree(SchemaOf(cfg.kind), SecondOf(data)) && multiset(data) == multiset(other)
    ensures Step(cfg, st, Added(path, data)).st.rows == Step(cfg, st, Added(path, other)).st.rows
    ensures Step(cfg, st, Added(path, data)).ok == Step(cfg, st, Added(path, other)).ok
  {
    hide Merge, MergeAll, Agree, SchemaOf;
    assert forall p :: p in data <==> p in other by {
      assert forall p :: p in data <==> p in multiset(data);
      assert forall p :: p in other <==> p in multiset(other);
    }
    SameNamesSameMaps(data, other);
    SameNamesSameMaps(other, data);
    var name := RowName(cfg.folder, path);
    if name.Some? {
      AssignAllResult(cfg, Touch(cfg, st, name.value), name.value, SecondOf(data));
      AssignAllResult(cfg, Touch(cfg, st, name.value), name.value, SecondOf(other));
      OrderOfAgreeingMapsIsIrrelevant(SchemaOf(cfg.kind), Base(cfg, st.rows, name.value), SecondOf(data),
                                      SecondOf(other));
    }
  }

  lemma SameNamesSameMaps(data: seq<(string, Fields)>, other: seq<(string, Fields)>)
    requires forall p :: p in data ==> p in other
    ensures forall n :: n in FirstOf(data) ==> n in FirstOf(other)
    ensures forall m :: m in SecondOf(data) ==> m in SecondOf(other)
  {
    forall i | 0 <= i < |data|
      ensures FirstOf(data)[i] in FirstOf(other) && SecondOf(data)[i] in SecondOf(other)
    {
      assert data[i] in other;
      var j :| 0 <= j < |other| && other[j] == data[i];
      assert FirstOf(other)[j] == data[i].0 && SecondOf(other)[j] == data[i].1;
    }
  }

  // InterfacesRemoved

  /** A live row goes exactly when its object loses an interface that the table owns; no other row changes. */
  lemma RemovedExactlyWhenTaken(cfg: Config, st: State, name: string, names: seq<string>, other: string)
    requires name in st.rows
    ensures var rows := Step(cfg, st, Removed(cfg.folder + "/" + name, names)).st.rows;
            && (name !in rows <==> Takes(cfg, names))
            && (other != name ==> (other in rows <==> other in st.rows))
            && (other != name && other in rows ==> rows[other] == st.rows[other])
  {
    hide DestroyTraps, Owned, Takes;
    TakesIsOwned(cfg, names);
    RowNameInvertsPathOf(cfg, name);
  }

  /** Removing an object undoes adding it. */
  lemma RemovalUndoesAddition(cfg: Config, st: State, name: string, data: seq<(string, Fields)>, names: seq<string>)
    requires name !in st.rows && Takes(cfg, InterfacesOf(data)) && Takes(cfg, names)
    ensures var path := PathOf(cfg, name);
            Step(cfg, Step(cfg, st, Added(path, data)).st, Removed(path, names)).st.rows == st.rows
  {
    hide DestroyTraps, CreateTraps, ChangeTraps, Merge, MergeAll, DefaultData, Owned, SecondOf, Takes;
    assert InterfacesOf(data) == FirstOf(data);
    TakesIsOwned(cfg, InterfacesOf(data));
    TakesIsOwned(cfg, names);
    RowNameInvertsPathOf(cfg, name);
    AssignAllResult(cfg, Touch(cfg, st, name), name, SecondOf(data));
  }

  // Paths that are not a child of the folder

  /** A signal makes its handler throw exactly when it names the folder itself with an owned interface. */
  lemma SignalsThrowExactlyWhen(cfg: Config, st: State, path: string, data: seq<(string, Fields)>, names: seq<string>)
    ensures !Step(cfg, st, Added(path, data)).ok <==> path == cfg.folder && Takes(cfg, InterfacesOf(data))
    ensures !Step(cfg, st, Removed(path, names)).ok <==> path == cfg.folder && Takes(cfg, names)
    ensures !Step(cfg, st, Added(path, data)).ok ==> Step(cfg, st, Added(path, data)).st == st
    ensures !Step(cfg, st, Removed(path, names)).ok ==> Step(cfg, st, Removed(path, names)).st == st
  {
    hide AssignAll, Touch, Drop, Owned, Takes;
    assert InterfacesOf(data) == FirstOf(data);
    TakesIsOwned(cfg, InterfacesOf(data));
    TakesIsOwned(cfg, names);
  }

  /** The path's own row is acted on exactly when a slash follows the folder. */
  lemma OwnRowExactlyWhenSlash(cfg: Config, path: string)
    requires Accepts(cfg.folder, path) && |cfg.folder| < |path|
    ensures PathOf(cfg, RowName(cfg.folder, path).value) == path <==> path[|cfg.folder|] == '/'
  {
    var name := RowName(cfg.folder, path).value;
    assert path == cfg.folder + [path[|cfg.folder|]] + name;
    assert PathOf(cfg, name)[|cfg.folder|] == '/';
  }

  /** Which row an accepted signal drops: the one named by what follows the next character, slash or not. */
  lemma RemovedActsOnTail(cfg: Config, st: State, next: char, name: string, names: seq<string>)
    requires Takes(cfg, names)
    ensures Step(cfg, st, Removed(cfg.folder + [next] + name, names)).ok
    ensures Step(cfg, st, Removed(cfg.folder + [next] + name, names)).st.rows == st.rows - {name}
  {
    hide Owned, Takes, DestroyTraps;
    TakesIsOwned(cfg, names);
    var path := cfg.folder + [next] + name;
    assert path[|cfg.folder| + 1..] == name;
  }

  /** The removal of an object beside the folder drops a live row of another object. */
  lemma ForeignRemovalDropsRow(st: State)
    requires "ps0" in st.rows
    ensures var cfg := ConfigOf(Power);
            var path := cfg.folder + "X" + "ps0";
            && path != PathOf(cfg, "ps0")
            && "ps0" !in Step(cfg, st, Removed(path, [cfg.interfaces[0]])).st.rows
  {
    hide FolderOf, Takes, Step;
    var cfg := ConfigOf(Power);
    var path := cfg.folder + "X" + "ps0";
    assert path[|cfg.folder|] == 'X' && PathOf(cfg, "ps0")[|cfg.folder|] == '/';
    FirstInterfaceIsTaken(cfg);
    RemovedActsOnTail(cfg, st, 'X', "ps0", [cfg.interfaces[0]]);
  }

  lemma FirstInterfaceIsTaken(cfg: Config)
    requires cfg.interfaces != []
    ensures Takes(cfg, [cfg.interfaces[0]])
  {
    assert [cfg.interfaces[0]][0] in cfg.interfaces;
  }
}
