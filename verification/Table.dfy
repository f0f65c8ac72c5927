/** The table: a vector of heap rows kept sorted by name. */
module Table {
  import opened Names
  import opened Items
  import opened Rules
  import opened Row
  import opened TableSpec

  class Table {
    const cfg: Config
    const log: TrapLog
    var items: seq<Row>
    /** The rows as a set, their names in vector order, and the table as a map. */
    ghost var rows: set<Row>
    ghost var names: seq<string>
    ghost var contents: Rows

    ghost predicate Valid()
      reads this, rows
    {
      && |names| == |items|
      && (forall i :: 0 <= i < |items| ==> Holds(items[i], names[i]))
      && (forall r :: r in rows ==> r in items)
      && (forall n :: n in contents ==> n in names)
      && Increasing(names)
    }

    ghost predicate Holds(r: Row, name: string)
      reads this, rows
    {
      && r in rows && r.Valid() && r.kind == cfg.kind && r.folder == cfg.folder && r.name == name
      && name in contents && contents[name] == r.data
    }

    ghost function View(): State
      requires Valid()
      reads this, rows, log
    {
      State(contents, log.sent)
    }

    constructor (cfg: Config, log: TrapLog)
      ensures Valid() && this.cfg == cfg && this.log == log
      ensures items == [] && rows == {} && contents == map[]
    {
      this.cfg, this.log := cfg, log;
      items, rows, names, contents := [], {}, [], map[];
    }

    /** Names increase strictly, so no two rows share one. */
    lemma NamesIdentifyRows()
      requires Valid()
      ensures forall r, s :: r in rows && s in rows && r.name == s.name ==> r == s
    {
      IncreasingDistinct(names);
    }

    lemma ContentsNameRows()
      requires Valid()
      ensures forall n :: n in contents <==> exists r :: r in rows && r.name == n
    {
    }

    lemma NamesAreSorted()
      requires Valid()
      ensures names == Sorted(contents.Keys)
    {
      SortedUnique(names, contents.Keys);
    }

    /** `std::lower_bound`: the first position whose name is not below `name`. */
    method LowerBound(name: string) returns (first: nat)
      requires Valid()
      ensures first <= |items|
      ensures forall i :: 0 <= i < first ==> Less(items[i].name, name)
      ensures forall i :: first <= i < |items| ==> !Less(items[i].name, name)
    {
      first := 0;
      var len := |items|;
      while len > 0
        invariant 0 <= first <= first + len <= |items|
        invariant forall i :: 0 <= i < first ==> Less(items[i].name, name)
        invariant forall i :: first + len <= i < |items| ==> !Less(items[i].name, name)
      {
        var half := len / 2;
        var middle := first + half;
        if Less(items[middle].name, name) {
          forall i | 0 <= i < middle
            ensures Less(items[i].name, name)
          {
            assert Less(names[i], names[middle]);
            LessTransitive(items[i].name, items[middle].name, name);
          }
          first := middle + 1;
          len := len - half - 1;
        } else {
          forall i | middle < i < |items|
            ensures !Less(items[i].name, name)
          {
            assert Less(names[middle], names[i]);
            if Less(items[i].name, name) {
              LessTransitive(items[middle].name, items[i].name, name);
            }
          }
          len := half;
        }
      }
    }

    /** Where `LowerBound` finds another name or the end, the name is not in the table. */
    lemma NotAtLowerBound(name: string, first: nat)
      requires Valid() && first <= |items|
      requires forall i :: 0 <= i < first ==> Less(items[i].name, name)
      requires forall i :: first <= i < |items| ==> !Less(items[i].name, name)
      requires first < |items| ==> items[first].name != name
      ensures name !in contents
      ensures forall i :: first <= i < |items| ==> Less(name, items[i].name)
    {
      LessIrreflexive(name);
      forall i | first <= i < |items|
        ensures Less(name, items[i].name)
      {
        LessTotal(name, items[first].name);
        if first < i {
          assert Less(names[first], names[i]);
          LessTransitive(name, items[first].name, items[i].name);
        }
      }
    }

    /** Creates the row if needed; null stands for the exception of `substr`. */
    method GetItem(path: string) returns (row: Row?)
      requires Valid()
      modifies this, log
      ensures Valid()
      ensures row == null <==> RowName(cfg.folder, path).None?
      ensures row == null ==> View() == old(View()) && rows == old(rows)
      ensures row != null ==>
                var name := RowName(cfg.folder, path).value;
                && row in rows && row.name == name
                && rows == old(rows) + {row} && fresh(rows - old(rows))
                && (name in old(contents) ==> row in old(rows))
                && View() == Touch(cfg, old(View()), name)
    {
      hide Less, CreateTraps, ChangeTraps, DestroyTraps, Merge, DefaultData, Increasing;
      if |path| <= |cfg.folder| {
        return null;
      }
      var name := path[|cfg.folder| + 1..];
      var it := LowerBound(name);
      if it < |items| && items[it].name == name {
        return items[it];
      }
      NotAtLowerBound(name, it);
      row := new Row(cfg.kind, cfg.folder, name);
      Emplace(it, row);
      row.OnCreate(log);
    }

    /** `_items.emplace(it, row)` */
    method Emplace(it: nat, row: Row)
      requires Valid() && it <= |items|
      requires row.Valid() && row.kind == cfg.kind && row.folder == cfg.folder
      requires forall i :: 0 <= i < it ==> Less(items[i].name, row.name)
      requires forall i :: it <= i < |items| ==> Less(row.name, items[i].name)
      requires row.name !in contents
      modifies this
      ensures Valid() && rows == old(rows) + {row}
      ensures items == old(items)[..it] + [row] + old(items)[it..]
      ensures contents == old(contents)[row.name := row.data]
    {
      IncreasingInsert(names, it, row.name);
      items := items[..it] + [row] + items[it..];
      names := names[..it] + [row.name] + names[it..];
      contents, rows := contents[row.name := row.data], rows + {row};
      forall i | 0 <= i < |items|
        ensures Holds(items[i], names[i])
      {
        if i != it {
          var k := if i < it then i else i - 1;
          assert old(Holds(items[k], names[k]));
        }
      }
    }

    /** Drops the row at a position and returns the position of the row that followed it. */
    method DropAt(it: nat) returns (next: nat)
      requires Valid() && it <= |items|
      modifies this, log
      ensures Valid() && next == it
      ensures it == |old(items)| ==> items == old(items) && rows == old(rows) && View() == old(View())
      ensures it < |old(items)| ==>
                && items == old(items)[..it] + old(items)[it + 1..]
                && names[..it] == old(names)[..it] && names[it..] == old(names)[it + 1..]
                && rows == old(rows) - {old(items)[it]}
                && View() == Drop(cfg, old(View()), old(items)[it].name)
    {
      hide Less, CreateTraps, ChangeTraps, DestroyTraps, Merge, DefaultData;
      if it < |items| {
        items[it].OnDestroy(log);
        IncreasingRemove(names, it);
        contents, rows := contents - {names[it]}, rows - {items[it]};
        items := items[..it] + items[it + 1..];
        names := names[..it] + names[it + 1..];
        forall i | 0 <= i < |items|
          ensures Holds(items[i], names[i])
        {
          var k := if i < it then i else i + 1;
          assert old(Holds(items[k], names[k]));
        }
      }
      return it;
    }

    /** False stands for the exception of `substr`. */
    method DropItem(path: string) returns (ok: bool)
      requires Valid()
      modifies this, log
      ensures Valid()
      ensures ok == RowName(cfg.folder, path).Some?
      ensures rows <= old(rows)
      ensures View() == if ok then Drop(cfg, old(View()), RowName(cfg.folder, path).value) else old(View())
    {
      if |path| <= |cfg.folder| {
        return false;
      }
      var name := path[|cfg.folder| + 1..];
      var it := LowerBound(name);
      if it < |items| && items[it].name == name {
        var _ := DropAt(it);
      } else {
        NotAtLowerBound(name, it);
      }
      return true;
    }

    /** `row.setFields(fields)` seen from the table. */
    method AssignRow(row: Row, fields: Fields)
      requires Valid() && row in rows
      modifies this`contents, row, log
      ensures Valid()
      ensures View() == Assign(cfg, old(View()), row.name, fields)
    {
      hide Less, CreateTraps, ChangeTraps, DestroyTraps, Merge, DefaultData;
      IncreasingDistinct(names);
      row.SetFields(fields, log);
      contents := contents[row.name := row.data];
    }

    method OnInterfacesAdded(path: string, data: seq<(string, Fields)>) returns (ok: bool)
      requires Valid()
      modifies this, rows, log
      ensures Valid()
      ensures old(rows) <= rows && fresh(rows - old(rows))
      ensures Result(View(), ok) == StepAdded(cfg, old(View()), path, data)
    {
      hide Less, CreateTraps, ChangeTraps, DestroyTraps, Merge, DefaultData;
      if !(cfg.folder <= path) {
        return true;
      }
      var isOwned := cfg.interfaces == [];
      if !isOwned {
        isOwned := exists x :: x in cfg.interfaces && x in FirstOf(data);
      }
      if !isOwned {
        return true;
      }
      var item := GetItem(path);
      if item == null {
        return false;
      }
      AssignInterfaces(item, data);
      return true;
    }

    /** The loop over the interfaces of an added object. */
    method AssignInterfaces(item: Row, data: seq<(string, Fields)>)
      requires Valid() && item in rows
      modifies this`contents, item, log
      ensures Valid()
      ensures View() == AssignAll(cfg, old(View()), item.name, SecondOf(data))
    {
      hide Less, CreateTraps, ChangeTraps, DestroyTraps, Merge, DefaultData;
      ghost var maps := SecondOf(data);
      var k := 0;
      while k < |data|
        invariant k <= |data| && Valid()
        invariant item.name in contents
        invariant AssignAll(cfg, View(), item.name, maps[k..]) == AssignAll(cfg, old(View()), item.name, maps)
      {
        assert maps[k..][1..] == maps[k + 1..];
        AssignRow(item, data[k].1);
        k := k + 1;
      }
    }

    method OnInterfacesRemoved(path: string, names: seq<string>) returns (ok: bool)
      requires Valid()
      modifies this, log
      ensures Valid()
      ensures rows <= old(rows)
      ensures Result(View(), ok) == StepRemoved(cfg, old(View()), path, names)
    {
      if !(cfg.folder <= path) {
        return true;
      }
      var isOwned := cfg.interfaces == [];
      if !isOwned {
        isOwned := exists x :: x in cfg.interfaces && x in names;
      }
      if !isOwned {
        return true;
      }
      ok := DropItem(path);
    }

    /** The bus delivers a PropertiesChanged signal to the row whose own path it names. */
    method OnPropertiesChanged(path: string, fields: Fields)
      requires Valid()
      modifies this, rows, log
      ensures Valid() && items == old(items)
      ensures View() == StepChanged(cfg, old(View()), path, fields)
    {
      hide Less, CreateTraps, ChangeTraps, DestroyTraps, Merge, DefaultData;
      if |path| <= |cfg.folder| || path != cfg.folder + "/" + path[|cfg.folder| + 1..] {
        return;
      }
      var name := path[|cfg.folder| + 1..];
      var it := LowerBound(name);
      if it < |items| && items[it].name == name {
        AssignRow(items[it], fields);
      } else {
        NotAtLowerBound(name, it);
      }
    }

    /** First loop of `update()`: erases while iterating. */
    method DropRowsNotIn(paths: set<string>)
      requires Valid()
      modifies this, log
      ensures Valid()
      ensures rows <= old(rows)
      ensures View() == DropVanished(cfg, old(View()), old(names), paths)
    {
      var path := cfg.folder + "/";
      var it := 0;
      while it < |items|
        invariant it <= |items| && Valid()
        invariant rows <= old(rows)
        invariant DropVanished(cfg, View(), names[it..], paths)
               == DropVanished(cfg, old(View()), old(names), paths)
        decreases |items| - it
      {
        assert names[it..][1..] == names[it + 1..];
        assert items[it].name == names[it];
        if path + items[it].name !in paths {
          it := DropAt(it);
        } else {
          it := it + 1;
        }
      }
    }

    /** Second loop of `update()`; the snapshot carries the answers to GetAll. */
    method UpdateRowsFrom(snapshot: seq<Entry>) returns (ok: bool)
      requires Valid()
      modifies this, rows, log
      ensures Valid()
      ensures old(rows) <= rows && fresh(rows - old(rows))
      ensures Result(View(), ok) == Populate(cfg, old(View()), snapshot)
    {
      var k := 0;
      while k < |snapshot|
        invariant k <= |snapshot| && Valid()
        invariant old(rows) <= rows && fresh(rows - old(rows))
        invariant Populate(cfg, View(), snapshot[k..]) == Populate(cfg, old(View()), snapshot)
      {
        assert snapshot[k..][1..] == snapshot[k + 1..];
        ok := UpdateRow(snapshot[k].path, snapshot[k].services);
        if !ok {
          return;
        }
        k := k + 1;
      }
      return true;
    }

    method UpdateRow(path: string, services: seq<Fields>) returns (ok: bool)
      requires Valid()
      modifies this, rows, log
      ensures Valid()
      ensures old(rows) <= rows && fresh(rows - old(rows))
      ensures Result(View(), ok) == PopulateEntry(cfg, old(View()), path, services)
    {
      hide Less, CreateTraps, ChangeTraps, DestroyTraps, Merge, DefaultData;
      var k := 0;
      while k < |services|
        invariant k <= |services| && Valid()
        invariant old(rows) <= rows && fresh(rows - old(rows))
        invariant PopulateEntry(cfg, View(), path, services[k..]) == PopulateEntry(cfg, old(View()), path, services)
      {
        assert services[k..][1..] == services[k + 1..];
        var row := GetItem(path);
        if row == null {
          return false;
        }
        AssignRow(row, services[k]);
        k := k + 1;
      }
      return true;
    }

    method Update(snapshot: seq<Entry>) returns (ok: bool)
      requires Valid()
      modifies this, rows, log
      ensures Valid()
      ensures fresh(rows - old(rows))
      ensures forall r :: r in old(rows) ==> (r in rows <==> PathOf(cfg, r.name) in PathsOf(snapshot))
      ensures Result(View(), ok) == StepRefreshed(cfg, old(View()), snapshot)
    {
      NamesAreSorted();
      DropVanishedKeeps(cfg, View(), names, PathsOf(snapshot));
      NamesIdentifyRows();
      ContentsNameRows();
      DropRowsNotIn(PathsOf(snapshot));
      ContentsNameRows();
      forall r | r in old(rows)
        ensures r in rows <==> PathOf(cfg, r.name) in PathsOf(snapshot)
      {
        assert r.name in old(contents);
        assert r.name in contents <==> PathOf(cfg, r.name) in PathsOf(snapshot);
      }
      ok := UpdateRowsFrom(snapshot);
    }

    /** One event, as the bus or the owner of the table delivers it. */
    method Deliver(ev: Event) returns (ok: bool)
      requires Valid()
      modifies this, rows, log
      ensures Valid() && fresh(rows - old(rows))
      ensures Result(View(), ok) == Step(cfg, old(View()), ev)
    {
      match ev {
        case Added(path, data) => ok := OnInterfacesAdded(path, data);
        case Removed(path, names) => ok := OnInterfacesRemoved(path, names);
        case Changed(path, fields) => OnPropertiesChanged(path, fields); ok := true;
        case Refreshed(snapshot) => ok := Update(snapshot);
      }
    }

    method Run(events: seq<Event>)
      requires Valid()
      modifies this, rows, log
      ensures Valid()
      ensures View() == Exec(cfg, old(View()), events)
    {
      var k := 0;
      while k < |events|
        invariant k <= |events| && Valid() && fresh(rows - old(rows))
        invariant Exec(cfg, View(), events[k..]) == Exec(cfg, old(View()), events)
      {
        assert events[k..][1..] == events[k + 1..];
        var _ := Deliver(events[k]);
        k := k + 1;
      }
    }

    /** `get_first_data_point`: restart the loop context. */
    method GetFirstDataPoint() returns (row: Row?, index: string, context: nat)
      ensures row != null <==> |items| > 0
      ensures row != null ==> row == items[0] && index == row.name && context == 1
    {
      row, index, context := GetNextDataPoint(0);
    }

    /** `get_next_data_point`: null ends the walk. */
    method GetNextDataPoint(context: nat) returns (row: Row?, index: string, next: nat)
      ensures row != null <==> context < |items|
      ensures row != null ==> row == items[context] && index == row.name && next == context + 1
      ensures row == null ==> next == context
    {
      if context < |items| {
        return items[context], items[context].name, context + 1;
      }
      return null, "", context;
    }

    /** The first data point and then the next one until there is none. */
    method WalkRows() returns (visited: seq<Row>, indexes: seq<string>)
      ensures visited == items && |indexes| == |items|
      ensures forall k :: 0 <= k < |items| ==> indexes[k] == items[k].name
    {
      visited, indexes := [], [];
      var row, index, context := GetFirstDataPoint();
      while row != null
        invariant |visited| == |indexes| <= |items|
        invariant forall k :: 0 <= k < |visited| ==> visited[k] == items[k] && indexes[k] == items[k].name
        invariant row == null ==> |visited| == |items|
        invariant row != null ==> context == |visited| + 1 <= |items| && row == items[|visited|] && index == row.name
        decreases |items| - |visited|
      {
        visited, indexes := visited + [row], indexes + [index];
        row, index, context := GetNextDataPoint(context);
      }
    }

    /** A walk meets every row once, in increasing order of the names. */
    method Walk() returns (visited: seq<Row>, indexes: seq<string>)
      requires Valid()
      ensures visited == items && indexes == Sorted(contents.Keys) && |visited| == |indexes|
      ensures forall k :: 0 <= k < |visited| ==> visited[k] in rows && visited[k].name == indexes[k]
    {
      NamesAreSorted();
      visited, indexes := WalkRows();
      assert indexes == names;
    }
  }
}
