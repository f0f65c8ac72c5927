/**
 * A table as a map from row names to row data, with the trap log, and what each
 * event does to the two. The class `Table` is proved equal to this.
 */
module TableSpec {
  import opened Wrappers
  import opened Names
  import opened Items
  import opened Rules

  type Rows = map<string, Data>

  datatype State = State(rows: Rows, log: seq<Trap>)

  /** The state an operation leaves; `ok` is false when `std::out_of_range` escaped from it. */
  datatype Result = Result(st: State, ok: bool)

  /** One object of a bus snapshot: what each service answered to GetAll. */
  datatype Entry = Entry(path: string, services: seq<Fields>)

  datatype Event =
    | Added(path: string, data: seq<(string, Fields)>)
    | Removed(path: string, names: seq<string>)
    | Changed(path: string, fields: Fields)
    | Refreshed(snapshot: seq<Entry>)

  /** `0 == path.compare(0, folder.length(), folder)` */
  predicate Accepts(folder: string, path: string) {
    folder <= path
  }

  /** `path.substr(folder.length() + 1)`, which throws when the path is not longer than the folder. */
  function RowName(folder: string, path: string): Option<string> {
    if |folder| < |path| then Some(path[|folder| + 1..]) else None
  }

  function PathOf(cfg: Config, name: string): string {
    cfg.folder + "/" + name
  }

  lemma RowNameInvertsPathOf(cfg: Config, name: string)
    ensures Accepts(cfg.folder, PathOf(cfg, name)) && RowName(cfg.folder, PathOf(cfg, name)) == Some(name)
  {
  }

  /** The table has no interface filter, or one of its interfaces is listed. */
  predicate Owned(cfg: Config, names: seq<string>) {
    cfg.interfaces == [] || exists x :: x in cfg.interfaces && x in names
  }

  function FirstOf(data: seq<(string, Fields)>): seq<string> {
    seq(|data|, i requires 0 <= i < |data| => data[i].0)
  }

  function SecondOf(data: seq<(string, Fields)>): seq<Fields> {
    seq(|data|, i requires 0 <= i < |data| => data[i].1)
  }

  /** `getItem`: insert a default row if there is none. */
  function Touch(cfg: Config, st: State, name: string): (r: State)
    ensures name in r.rows
  {
    if name in st.rows then st
    else State(st.rows[name := DefaultData(cfg.kind)], st.log + CreateTraps(cfg.kind, cfg.folder, name))
  }

  /** `setFields` on a live row. */
  function Assign(cfg: Config, st: State, name: string, fields: Fields): State
    requires name in st.rows
  {
    var before := st.rows[name];
    var after := Merge(SchemaOf(cfg.kind), before, fields);
    State(st.rows[name := after], st.log + ChangeTraps(cfg.kind, cfg.folder, name, before, after))
  }

  function AssignAll(cfg: Config, st: State, name: string, maps: seq<Fields>): (r: State)
    requires name in st.rows
    ensures r.rows.Keys == st.rows.Keys
    decreases |maps|
  {
    if maps == [] then st else AssignAll(cfg, Assign(cfg, st, name, maps[0]), name, maps[1..])
  }

  /** `dropItem` */
  function Drop(cfg: Config, st: State, name: string): State {
    if name in st.rows
    then State(st.rows - {name}, st.log + DestroyTraps(cfg.kind, cfg.folder, name, st.rows[name]))
    else st
  }

  function StepAdded(cfg: Config, st: State, path: string, data: seq<(string, Fields)>): Result {
    if !Accepts(cfg.folder, path) || !Owned(cfg, FirstOf(data)) then Result(st, true)
    else match RowName(cfg.folder, path)
      case None => Result(st, false)
      case Some(name) => Result(AssignAll(cfg, Touch(cfg, st, name), name, SecondOf(data)), true)
  }

  function StepRemoved(cfg: Config, st: State, path: string, names: seq<string>): Result {
    if !Accepts(cfg.folder, path) || !Owned(cfg, names) then Result(st, true)
    else match RowName(cfg.folder, path)
      case None => Result(st, false)
      case Some(name) => Result(Drop(cfg, st, name), true)
  }

  /** A row subscribes to the changes of its own path only. */
  function StepChanged(cfg: Config, st: State, path: string, fields: Fields): State {
    match RowName(cfg.folder, path)
    case None => st
    case Some(name) =>
      if path == PathOf(cfg, name) && name in st.rows then Assign(cfg, st, name, fields) else st
  }

  /** The keys of the snapshot. */
  function PathsOf(snapshot: seq<Entry>): set<string> {
    if snapshot == [] then {} else {snapshot[0].path} + PathsOf(snapshot[1..])
  }

  /** First loop of `update()`: drop every row whose path the snapshot does not have. */
  function DropVanished(cfg: Config, st: State, names: seq<string>, paths: set<string>): State
    decreases |names|
  {
    if names == [] then st
    else
      var next := if PathOf(cfg, names[0]) in paths then st else Drop(cfg, st, names[0]);
      DropVanished(cfg, next, names[1..], paths)
  }

  lemma {:induction false} DropVanishedKeeps(cfg: Config, st: State, names: seq<string>, paths: set<string>)
    ensures DropVanished(cfg, st, names, paths).rows
         == map n | n in st.rows && (n !in names || PathOf(cfg, n) in paths) :: st.rows[n]
    decreases |names|
  {
    if names != [] {
      var next := if PathOf(cfg, names[0]) in paths then st else Drop(cfg, st, names[0]);
      DropVanishedKeeps(cfg, next, names[1..], paths);
      assert names == [names[0]] + names[1..];
    }
  }

  /** Inner part of the second loop: each service of one path in turn. */
  function PopulateEntry(cfg: Config, st: State, path: string, services: seq<Fields>): Result
    decreases |services|
  {
    if services == [] then Result(st, true)
    else match RowName(cfg.folder, path)
      case None => Result(st, false)
      case Some(name) => PopulateEntry(cfg, Assign(cfg, Touch(cfg, st, name), name, services[0]), path, services[1..])
  }

  function Populate(cfg: Config, st: State, snapshot: seq<Entry>): Result
    decreases |snapshot|
  {
    if snapshot == [] then Result(st, true)
    else
      var r := PopulateEntry(cfg, st, snapshot[0].path, snapshot[0].services);
      if r.ok then Populate(cfg, r.st, snapshot[1..]) else r
  }

  /** `update()`; the rows are visited in name order. */
  ghost function StepRefreshed(cfg: Config, st: State, snapshot: seq<Entry>): Result {
    Populate(cfg, DropVanished(cfg, st, Sorted(st.rows.Keys), PathsOf(snapshot)), snapshot)
  }

  ghost function Step(cfg: Config, st: State, ev: Event): Result {
    match ev
    case Added(path, data) => StepAdded(cfg, st, path, data)
    case Removed(path, names) => StepRemoved(cfg, st, path, names)
    case Changed(path, fields) => Result(StepChanged(cfg, st, path, fields), true)
    case Refreshed(snapshot) => StepRefreshed(cfg, st, snapshot)
  }

  ghost function Exec(cfg: Config, st: State, events: seq<Event>): State
    decreases |events|
  {
    if events == [] then st else Exec(cfg, Step(cfg, st, events[0]).st, events[1..])
  }
}
