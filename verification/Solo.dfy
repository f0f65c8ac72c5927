/** Each table runs as if it were alone, and the agent's log is made of the tables' own logs. */
module Solo {
  import opened Names
  import opened Items
  import opened Rules
  import opened TableSpec
  import opened Agent
  import Terms

  /** The events of a run that reach one table: every signal, and its own updates. */
  function EventsFor(t: TableId, inputs: seq<Input>): seq<Event> {
    if inputs == [] then []
    else EventsFor(t, inputs[..|inputs| - 1]) + Reaching(t, inputs[|inputs| - 1])
  }

  function Reaching(t: TableId, input: Input): seq<Event> {
    match input
    case Bus(signal, _) => [signal]
    case Update(u, snapshot) => if u == t then [Refreshed(snapshot)] else []
  }

  /** The traps under the notification of one table. */
  function Own(t: TableId, log: seq<Trap>): seq<Trap> {
    if log == [] then []
    else Own(t, log[..|log| - 1])
         + (if log[|log| - 1].notify == Terms.Notification(t) then [log[|log| - 1]] else [])
  }

  /** All the traps are the table's. */
  ghost predicate AllOwn(t: TableId, log: seq<Trap>) {
    forall k :: 0 <= k < |log| ==> log[k].notify == Terms.Notification(t)
  }

  // What a table adds to the log does not depend on what is there

  function Prepend(earlier: seq<Trap>, st: State): State {
    State(st.rows, earlier + st.log)
  }

  ghost predicate Shifts(t: TableId, earlier: seq<Trap>, st: State, next: State, shifted: State) {
    shifted == Prepend(earlier, next) && (AllOwn(t, st.log) ==> AllOwn(t, next.log))
  }

  lemma NotificationsAreOwn(t: TableId, name: string, before: Data, after: Data)
    ensures AllOwn(t, CreateTraps(KindOf(t), FolderOf(t), name))
    ensures AllOwn(t, ChangeTraps(KindOf(t), FolderOf(t), name, before, after))
    ensures AllOwn(t, DestroyTraps(KindOf(t), FolderOf(t), name, before))
  {
    hide FolderOf;
    Terms.NotificationIs(t);
  }

  lemma AppendShifts(t: TableId, earlier: seq<Trap>, log: seq<Trap>, traps: seq<Trap>)
    requires AllOwn(t, traps)
    ensures (earlier + log) + traps == earlier + (log + traps)
    ensures AllOwn(t, log) ==> AllOwn(t, log + traps)
  {
  }

  lemma TouchShifts(t: TableId, earlier: seq<Trap>, st: State, name: string)
    ensures Shifts(t, earlier, st, Touch(ConfigOf(t), st, name), Touch(ConfigOf(t), Prepend(earlier, st), name))
  {
    hide FolderOf, KindOf, CreateTraps, DefaultData, AllOwn;
    if name !in st.rows {
      NotificationsAreOwn(t, name, [], []);
      AppendShifts(t, earlier, st.log, CreateTraps(KindOf(t), FolderOf(t), name));
    }
  }

  lemma AssignShifts(t: TableId, earlier: seq<Trap>, st: State, name: string, fields: Fields)
    requires name in st.rows
    ensures Shifts(t, earlier, st, Assign(ConfigOf(t), st, name, fields),
                   Assign(ConfigOf(t), Prepend(earlier, st), name, fields))
  {
    hide FolderOf, KindOf, SchemaOf, ChangeTraps, Merge, AllOwn;
    var after := Merge(SchemaOf(KindOf(t)), st.rows[name], fields);
    NotificationsAreOwn(t, name, st.rows[name], after);
    AppendShifts(t, earlier, st.log, ChangeTraps(KindOf(t), FolderOf(t), name, st.rows[name], after));
  }

  lemma DropShifts(t: TableId, earlier: seq<Trap>, st: State, name: string)
    ensures Shifts(t, earlier, st, Drop(ConfigOf(t), st, name), Drop(ConfigOf(t), Prepend(earlier, st), name))
  {
    hide FolderOf, KindOf, DestroyTraps, AllOwn;
    if name in st.rows {
      NotificationsAreOwn(t, name, st.rows[name], []);
      AppendShifts(t, earlier, st.log, DestroyTraps(KindOf(t), FolderOf(t), name, st.rows[name]));
    }
  }

  lemma {:induction false} AssignAllShifts(t: TableId, earlier: seq<Trap>, st: State, name: string, maps: seq<Fields>)
    requires name in st.rows
    ensures Shifts(t, earlier, st, AssignAll(ConfigOf(t), st, name, maps),
                   AssignAll(ConfigOf(t), Prepend(earlier, st), name, maps))
    decreases |maps|
  {
    hide FolderOf, KindOf, SchemaOf, ChangeTraps, Merge, AllOwn;
    if maps != [] {
      AssignShifts(t, earlier, st, name, maps[0]);
      AssignAllShifts(t, earlier, Assign(ConfigOf(t), st, name, maps[0]), name, maps[1..]);
    }
  }

  lemma {:induction false} DropVanishedShifts(t: TableId, earlier: seq<Trap>, st: State, names: seq<string>,
                                              paths: set<string>)
    ensures Shifts(t, earlier, st, DropVanished(ConfigOf(t), st, names, paths),
                   DropVanished(ConfigOf(t), Prepend(earlier, st), names, paths))
    decreases |names|
  {
    hide FolderOf, KindOf, PathOf, Drop, AllOwn;
    if names != [] {
      DropShifts(t, earlier, st, names[0]);
      var next := if PathOf(ConfigOf(t), names[0]) in paths then st else Drop(ConfigOf(t), st, names[0]);
      DropVanishedShifts(t, earlier, next, names[1..], paths);
    }
  }

  lemma {:induction false} PopulateEntryShifts(t: TableId, earlier: seq<Trap>, st: State, path: string,
                                               services: seq<Fields>)
    ensures var r, s := PopulateEntry(ConfigOf(t), st, path, services),
                        PopulateEntry(ConfigOf(t), Prepend(earlier, st), path, services);
            r.ok == s.ok && Shifts(t, earlier, st, r.st, s.st)
    decreases |services|
  {
    hide FolderOf, KindOf, SchemaOf, CreateTraps, ChangeTraps, Merge, DefaultData, AllOwn, RowName;
    var name := RowName(FolderOf(t), path);
    if services != [] && name.Some? {
      var touched := Touch(ConfigOf(t), st, name.value);
      TouchShifts(t, earlier, st, name.value);
      AssignShifts(t, earlier, touched, name.value, services[0]);
      PopulateEntryShifts(t, earlier, Assign(ConfigOf(t), touched, name.value, services[0]), path, services[1..]);
    }
  }

  lemma {:induction false} PopulateShifts(t: TableId, earlier: seq<Trap>, st: State, snapshot: seq<Entry>)
    ensures var r, s := Populate(ConfigOf(t), st, snapshot), Populate(ConfigOf(t), Prepend(earlier, st), snapshot);
            r.ok == s.ok && Shifts(t, earlier, st, r.st, s.st)
    decreases |snapshot|
  {
    hide FolderOf, KindOf, PopulateEntry, AllOwn;
    if snapshot != [] {
      PopulateEntryShifts(t, earlier, st, snapshot[0].path, snapshot[0].services);
      var r := PopulateEntry(ConfigOf(t), st, snapshot[0].path, snapshot[0].services);
      if r.ok {
        PopulateShifts(t, earlier, r.st, snapshot[1..]);
      }
    }
  }

  /** A step adds the same traps whatever was sent before, and all of them are the table's. */
  lemma StepShifts(t: TableId, earlier: seq<Trap>, st: State, ev: Event)
    ensures Shifts(t, earlier, st, Step(ConfigOf(t), st, ev).st, Step(ConfigOf(t), Prepend(earlier, st), ev).st)
  {
    hide FolderOf, KindOf, AllOwn, Touch, Assign, Drop, DropVanished, Populate, RowName, Owned, Accepts, PathOf, Sorted;
    var cfg := ConfigOf(t);
    match ev
    case Added(path, data) =>
      var name := RowName(FolderOf(t), path);
      if name.Some? {
        TouchShifts(t, earlier, st, name.value);
        AssignAllShifts(t, earlier, Touch(cfg, st, name.value), name.value, SecondOf(data));
      }
    case Removed(path, names) =>
      var name := RowName(FolderOf(t), path);
      if name.Some? {
        DropShifts(t, earlier, st, name.value);
      }
    case Changed(path, fields) =>
      var name := RowName(FolderOf(t), path);
      if name.Some? && name.value in st.rows {
        AssignShifts(t, earlier, st, name.value, fields);
      }
    case Refreshed(snapshot) =>
      var names := Sorted(st.rows.Keys);
      DropVanishedShifts(t, earlier, st, names, PathsOf(snapshot));
      PopulateShifts(t, earlier, DropVanished(cfg, st, names, PathsOf(snapshot)), snapshot);
  }

  // Runs

  lemma {:induction false} ExecAppend(cfg: Config, st: State, events: seq<Event>, more: seq<Event>)
    ensures Exec(cfg, st, events + more) == Exec(cfg, Exec(cfg, st, events), more)
    decreases |events|
  {
    hide Step;
    if events == [] {
      assert events + more == more;
    } else {
      assert (events + more)[1..] == events[1..] + more;
      ExecAppend(cfg, Step(cfg, st, events[0]).st, events[1..], more);
    }
  }

  lemma ExecOne(cfg: Config, st: State, ev: Event)
    ensures Exec(cfg, st, [ev]) == Step(cfg, st, ev).st
  {
    hide Step;
    assert [ev][1..] == [];
  }

  lemma {:induction false} OwnAppend(t: TableId, log: seq<Trap>, u: TableId, more: seq<Trap>)
    requires AllOwn(u, more)
    ensures Own(t, log + more) == if t == u then Own(t, log) + more else Own(t, log)
    decreases |more|
  {
    if more == [] {
      assert log + more == log;
    } else {
      var front := more[..|more| - 1];
      assert (log + more)[..|log + more| - 1] == log + front;
      assert forall k :: 0 <= k < |front| ==> front[k] == more[k];
      OwnAppend(t, log, u, front);
      NotificationsDiffer(t, u);
      assert front + [more[|more| - 1]] == more;
    }
  }

  lemma NotificationsDiffer(t: TableId, u: TableId)
    ensures Terms.Notification(t) == Terms.Notification(u) <==> t == u
  {
    assert Terms.Notification(t)[8] == Terms.Notification(u)[8] <==> t == u;
  }

  /** What one table's step leaves of another, and of itself. */
  lemma ApplyAlone(ag: Agent, u: TableId, ev: Event, t: TableId)
    requires Whole(ag)
    ensures
      var next, st := Apply(ag, u, ev), State(ag.tables[t], Own(t, ag.log));
      State(next.tables[t], Own(t, next.log)) == if t == u then Step(ConfigOf(t), st, ev).st else st
  {
    hide Step, FolderOf, KindOf, Own, AllOwn;
    var still := State(ag.tables[u], []);
    var added := Step(ConfigOf(u), still, ev).st.log;
    StepShifts(u, ag.log, still, ev);
    StepShifts(u, Own(u, ag.log), still, ev);
    assert ag.log + [] == ag.log && Own(u, ag.log) + [] == Own(u, ag.log);
    NothingIsOwn(u);
    OwnAppend(t, ag.log, u, added);
  }

  lemma NothingIsOwn(t: TableId)
    ensures AllOwn(t, [])
  {
  }

  /** The signal moves a table in the agent as it moves the table alone. */
  lemma SignalAlone(ag: Agent, signal: Signal, order: Order, t: TableId)
    requires Whole(ag)
    ensures
      var next, st := React(ag, Bus(signal, order)), State(ag.tables[t], Own(t, ag.log));
      State(next.tables[t], Own(t, next.log)) == Step(ConfigOf(t), st, signal).st
  {
    hide Step, FolderOf, KindOf, Own, React, Accepts;
    var st := State(ag.tables[t], Own(t, ag.log));
    SignalsConcernOneTable(ag, signal, order);
    if Accepts(FolderOf(t), signal.path) {
      ApplyAlone(ag, t, signal, t);
    } else {
      OutsideSignalsAreIgnored(t, st, signal);
      if u :| Accepts(FolderOf(u), signal.path) {
        ApplyAlone(ag, u, signal, t);
      }
    }
  }

  /**
   * In every run, a table that is fed only what reaches it has the rows that it has in the
   * agent, and has sent exactly the agent's traps under its own notification, in order.
   */
  lemma {:induction false} TablesRunAsIfAlone(inputs: seq<Input>, t: TableId)
    ensures Exec(ConfigOf(t), State(map[], []), EventsFor(t, inputs))
         == State(After(inputs).tables[t], Own(t, After(inputs).log))
    decreases |inputs|
  {
    hide Step, FolderOf, KindOf, Own, React, Apply;
    if inputs == [] {
      OwnOfNothing(t);
    } else {
      var front, last := inputs[..|inputs| - 1], inputs[|inputs| - 1];
      TablesRunAsIfAlone(front, t);
      var st := State(After(front).tables[t], Own(t, After(front).log));
      ExecAppend(ConfigOf(t), State(map[], []), EventsFor(t, front), Reaching(t, last));
      match last
      case Bus(signal, order) =>
        SignalAlone(After(front), signal, order, t);
        ExecOne(ConfigOf(t), st, signal);
      case Update(u, snapshot) =>
        UpdateIsApply(After(front), u, snapshot);
        ApplyAlone(After(front), u, Refreshed(snapshot), t);
        if u == t {
          ExecOne(ConfigOf(t), st, Refreshed(snapshot));
        }
    }
  }

  lemma UpdateIsApply(ag: Agent, t: TableId, snapshot: seq<Entry>)
    requires Whole(ag)
    ensures React(ag, Update(t, snapshot)) == Apply(ag, t, Refreshed(snapshot))
  {
  }

  lemma OwnOfNothing(t: TableId)
    ensures Own(t, []) == []
  {
  }
}
