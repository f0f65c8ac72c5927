/**
 * What a manager that only receives traps knows about the rows: an invariant kept by
 * every step of the agent, and its consequences for every run.
 */
module Mirror {
  import opened Wrappers
  import opened Items
  import opened Oids
  import opened Rules
  import opened TableSpec
  import opened Agent

  // What was heard

  function OidsOf(trap: Trap): seq<Oid> {
    seq(|trap.bindings|, i requires 0 <= i < |trap.bindings| => trap.bindings[i].oid)
  }

  function ValuesOf(trap: Trap): seq<int> {
    seq(|trap.bindings|, i requires 0 <= i < |trap.bindings| => trap.bindings[i].value)
  }

  /** The values of the traps that report exactly these cells, oldest first. */
  function Heard(log: seq<Trap>, cells: seq<Oid>): seq<seq<int>> {
    if log == [] then []
    else
      var front, last := log[..|log| - 1], log[|log| - 1];
      Heard(front, cells) + (if OidsOf(last) == cells then [ValuesOf(last)] else [])
  }

  /** A receiver that stores, per cell, the value it was told last. */
  function Received(log: seq<Trap>): map<Oid, int> {
    if log == [] then map[]
    else Store(Received(log[..|log| - 1]), log[|log| - 1].bindings)
  }

  function Store(known: map<Oid, int>, bindings: seq<Binding>): map<Oid, int>
    decreases |bindings|
  {
    if bindings == [] then known else Store(known[bindings[0].oid := bindings[0].value], bindings[1..])
  }

  ghost predicate Reports(trap: Trap, t: TableId, name: string) {
    OidsOf(trap) == CellsOf(t, name)
  }

  /** The values are among those that the MIB lists for the columns. */
  predicate Listed(t: TableId, values: seq<int>) {
    if t.Stock? then |values| == 2 && 1 <= values[0] <= 2 && 1 <= values[1] <= 2
    else |values| == 1 && 0 <= values[0] <= 5
  }

  /** The trap reports this row, under the notification of its table. */
  ghost predicate Says(trap: Trap, t: TableId, name: string) {
    Reports(trap, t, name) && trap.notify == NotifyOf(t) && Listed(t, ValuesOf(trap))
  }

  ghost predicate IsReport(trap: Trap) {
    exists t, name :: Says(trap, t, name) && Speaks(t, name)
  }

  ghost predicate Attributed(log: seq<Trap>) {
    forall k :: 0 <= k < |log| ==> IsReport(log[k])
  }

  lemma {:induction false} StoreElsewhere(known: map<Oid, int>, bindings: seq<Binding>, cell: Oid)
    requires forall k :: 0 <= k < |bindings| ==> bindings[k].oid != cell
    ensures cell in Store(known, bindings) <==> cell in known
    ensures cell in known ==> Store(known, bindings)[cell] == known[cell]
    decreases |bindings|
  {
    if bindings != [] {
      StoreElsewhere(known[bindings[0].oid := bindings[0].value], bindings[1..], cell);
    }
  }

  lemma StoreOwn(known: map<Oid, int>, trap: Trap, t: TableId, name: string, i: nat)
    requires Reports(trap, t, name) && Fits(t, name) && i < |CellsOf(t, name)|
    ensures var cell := CellsOf(t, name)[i];
            cell in Store(known, trap.bindings) && Store(known, trap.bindings)[cell] == ValuesOf(trap)[i]
  {
    var bindings := trap.bindings;
    assert forall k :: 0 <= k < |bindings| ==> OidsOf(trap)[k] == bindings[k].oid;
    var known1 := known[bindings[0].oid := bindings[0].value];
    if |bindings| == 1 {
      assert Store(known, bindings) == Store(known1, bindings[1..]) == known1;
    } else {
      var known2 := known1[bindings[1].oid := bindings[1].value];
      assert Store(known1, bindings[1..]) == Store(known2, bindings[1..][1..]) == known2;
      if bindings[0].oid == bindings[1].oid {
        CellsAreDisjoint(t, name, 0, t, name, 1);
      }
    }
  }

  /** A trap about another row leaves the cell alone. */
  lemma StoreOther(known: map<Oid, int>, trap: Trap, t: TableId, name: string, i: nat)
    requires IsReport(trap) && !Reports(trap, t, name) && Fits(t, name) && i < |CellsOf(t, name)|
    ensures var cell := CellsOf(t, name)[i];
            && (cell in Store(known, trap.bindings) <==> cell in known)
            && (cell in known ==> Store(known, trap.bindings)[cell] == known[cell])
  {
    var u, other :| Says(trap, u, other);
    forall k | 0 <= k < |trap.bindings|
      ensures trap.bindings[k].oid != CellsOf(t, name)[i]
    {
      assert OidsOf(trap)[k] == trap.bindings[k].oid == CellsOf(u, other)[k];
      if trap.bindings[k].oid == CellsOf(t, name)[i] {
        CellsAreDisjoint(t, name, i, u, other, k);
      }
    }
    StoreElsewhere(known, trap.bindings, CellsOf(t, name)[i]);
  }

  /** The receiver holds the last value heard for a cell, and nothing before the first. */
  lemma {:induction false} ReceivedIsLastHeard(log: seq<Trap>, t: TableId, name: string, i: nat)
    requires Attributed(log) && Fits(t, name) && i < |CellsOf(t, name)|
    ensures
      var cell, heard := CellsOf(t, name)[i], Heard(log, CellsOf(t, name));
      && (cell in Received(log) <==> heard != [])
      && (heard != [] ==> i < |heard[|heard| - 1]| && Received(log)[cell] == heard[|heard| - 1][i])
    decreases |log|
  {
    hide CellsOf, Store, IsReport, Fits;
    if log != [] {
      var front, last := log[..|log| - 1], log[|log| - 1];
      assert IsReport(log[|log| - 1]);
      assert forall k :: 0 <= k < |front| ==> IsReport(log[k]) && front[k] == log[k];
      ReceivedIsLastHeard(front, t, name, i);
      if Reports(last, t, name) {
        StoreOwn(Received(front), last, t, name, i);
      } else {
        StoreOther(Received(front), last, t, name, i);
      }
    }
  }

  // The invariant

  /** Starts with normal, never repeats a value, and goes from disabled to normal only. */
  ghost predicate Disciplined(heard: seq<seq<int>>) {
    && (heard != [] ==> heard[0] == [E_NORMAL])
    && (forall k :: 0 < k < |heard| ==> heard[k - 1] != heard[k])
    && (forall k :: 0 < k < |heard| ==> heard[k - 1] == [E_DISABLED] ==> heard[k] == [E_NORMAL])
  }

  /** Never repeats a value, the assumed one before the first trap included. */
  ghost predicate Alternating(heard: seq<seq<int>>) {
    && (heard != [] ==> heard[0] != NOT_PRESENT)
    && (forall k :: 0 < k < |heard| ==> heard[k - 1] != heard[k])
  }

  /** Neither present nor functional. */
  const NOT_PRESENT: seq<int> := [2, 2]

  function LastOr(heard: seq<seq<int>>, default: seq<int>): seq<int> {
    if heard == [] then default else heard[|heard| - 1]
  }

  /** What a row shows, if it is there. */
  function Live(rows: Rows, kind: Kind, name: string): Option<seq<int>> {
    if name in rows then Some(Shown(kind, rows[name])) else None
  }

  ghost predicate Mirrors(kind: Kind, heard: seq<seq<int>>, live: Option<seq<int>>, seen: bool) {
    match kind
    case Sensor =>
      && Disciplined(heard)
      && LastOr(heard, [E_DISABLED]) == live.GetOr([E_DISABLED])
      && (heard != [] <==> seen || live.Some?)
    case Inventory =>
      && Alternating(heard)
      && LastOr(heard, NOT_PRESENT) == live.GetOr(NOT_PRESENT)
  }

  type RowSet = set<(TableId, string)>

  ghost predicate Inv(ag: Agent, seen: RowSet) {
    && Whole(ag)
    && Attributed(ag.log)
    && (forall t, name {:trigger TypedAt(ag, t, name)} :: TypedAt(ag, t, name))
    && forall t, name {:trigger MirrorsAt(ag, seen, t, name)} :: Fits(t, name) ==> MirrorsAt(ag, seen, t, name)
  }

  /** The fields of the row have the types of their columns. */
  ghost predicate TypedAt(ag: Agent, t: TableId, name: string)
    requires Whole(ag)
  {
    name in ag.tables[t] ==> Typed(SchemaOf(KindOf(t)), ag.tables[t][name])
  }

  ghost predicate MirrorsAt(ag: Agent, seen: RowSet, t: TableId, name: string)
    requires Whole(ag)
  {
    Mirrors(KindOf(t), Heard(ag.log, CellsOf(t, name)), Live(ag.tables[t], KindOf(t), name), (t, name) in seen)
  }

  /** At most one trap, about this row. */
  ghost predicate About(traps: seq<Trap>, t: TableId, name: string) {
    && |traps| <= 1
    && (forall k :: 0 <= k < |traps| ==> Says(traps[k], t, name))
    && (traps != [] ==> Speaks(t, name))
  }

  function AllValues(traps: seq<Trap>): seq<seq<int>> {
    seq(|traps|, i requires 0 <= i < |traps| => ValuesOf(traps[i]))
  }

  lemma HeardAppend(log: seq<Trap>, traps: seq<Trap>, u: TableId, other: string, t: TableId, name: string)
    requires About(traps, u, other) && Fits(t, name)
    ensures Heard(log + traps, CellsOf(t, name))
         == Heard(log, CellsOf(t, name)) + (if (t, name) == (u, other) then AllValues(traps) else [])
  {
    if traps == [] {
      assert log + traps == log;
    } else {
      assert (log + traps)[..|log + traps| - 1] == log;
      assert Reports(traps[0], u, other);
      if CellsOf(t, name) == CellsOf(u, other) {
        CellsAreDisjoint(t, name, 0, u, other, 0);
      }
      assert AllValues(traps) == [ValuesOf(traps[0])];
    }
  }

  lemma AttributedAppend(log: seq<Trap>, traps: seq<Trap>, u: TableId, other: string)
    requires Attributed(log) && About(traps, u, other)
    ensures Attributed(log + traps)
  {
    var all := log + traps;
    forall k | 0 <= k < |all|
      ensures IsReport(all[k])
    {
      if k < |log| {
        assert IsReport(log[k]);
      } else {
        assert Says(traps[0], u, other);
      }
    }
  }

  /** What one step appends to what is heard of a row. */
  function ChangedValues(kind: Kind, before: Option<seq<int>>, after: Option<seq<int>>): seq<seq<int>> {
    match kind
    case Sensor =>
      if before == after then [] else [after.GetOr([E_DISABLED])]
    case Inventory =>
      if before.GetOr(NOT_PRESENT) == after.GetOr(NOT_PRESENT) then [] else [after.GetOr(NOT_PRESENT)]
  }

  /** A sensor's state is never disabled, and a row that is not there becomes a normal one. */
  predicate CanFollow(kind: Kind, before: Option<seq<int>>, after: Option<seq<int>>) {
    && (kind.Sensor? ==> before != Some([E_DISABLED]) && after != Some([E_DISABLED]))
    && (kind.Sensor? && before.None? && after.Some? ==> after.value == [E_NORMAL])
  }

  /** The heart of the matter: reporting exactly the changes keeps receiver and row together. */
  lemma ReportingChangesKeepsMirror(kind: Kind, heard: seq<seq<int>>, before: Option<seq<int>>,
                                    after: Option<seq<int>>, seen: bool)
    requires Mirrors(kind, heard, before, seen) && CanFollow(kind, before, after)
    requires before.Some? && after.None? ==> seen
    ensures Mirrors(kind, heard + ChangedValues(kind, before, after), after, seen)
  {
    var values := ChangedValues(kind, before, after);
    if values == [] {
      assert heard + values == heard;
    } else {
      var all := heard + values;
      assert all[|all| - 1] == values[0];
    }
  }

  lemma RowStaysMirrored(ag: Agent, seen: RowSet, u: TableId, other: string, rows: Rows, traps: seq<Trap>,
                         t: TableId, name: string)
    requires Whole(ag) && Fits(t, name) && MirrorsAt(ag, seen, t, name)
    requires About(traps, u, other) && OnlyRowDiffers(ag.tables[u], rows, other)
    requires (t, name) == (u, other) ==> RowStep(ag, seen, u, other, rows, traps)
    ensures MirrorsAt(Agent(ag.tables[u := rows], ag.log + traps), seen, t, name)
  {
    HeardAppend(ag.log, traps, u, other, t, name);
    var heard := Heard(ag.log, CellsOf(t, name));
    var before := Live(ag.tables[t], KindOf(t), name);
    if (t, name) == (u, other) {
      ReportingChangesKeepsMirror(KindOf(t), heard, before, Live(rows, KindOf(t), name), (t, name) in seen);
    } else {
      assert heard + [] == heard;
    }
  }

  ghost predicate OnlyRowDiffers(before: Rows, after: Rows, name: string) {
    forall n :: n != name ==> (n in before <==> n in after) && (n in before ==> before[n] == after[n])
  }

  /** The traps say how the row changed. */
  ghost predicate RowStep(ag: Agent, seen: RowSet, t: TableId, name: string, rows: Rows, traps: seq<Trap>)
    requires Whole(ag)
  {
    var before, after := Live(ag.tables[t], KindOf(t), name), Live(rows, KindOf(t), name);
    && CanFollow(KindOf(t), before, after)
    && AllValues(traps) == ChangedValues(KindOf(t), before, after)
    && (before.Some? && after.None? ==> (t, name) in seen)
  }

  /** A step that changes one row, and says so, keeps the invariant. */
  lemma OneRowChanges(ag: Agent, seen: RowSet, u: TableId, other: string, rows: Rows, traps: seq<Trap>)
    requires Inv(ag, seen) && About(traps, u, other) && OnlyRowDiffers(ag.tables[u], rows, other)
    requires Fits(u, other) ==> RowStep(ag, seen, u, other, rows, traps)
    requires other in rows ==> Typed(SchemaOf(KindOf(u)), rows[other])
    ensures Inv(Agent(ag.tables[u := rows], ag.log + traps), seen)
  {
    var after := Agent(ag.tables[u := rows], ag.log + traps);
    AttributedAppend(ag.log, traps, u, other);
    forall t, name
      ensures TypedAt(after, t, name)
    {
      assert TypedAt(ag, t, name);
    }
    forall t, name | Fits(t, name)
      ensures MirrorsAt(after, seen, t, name)
    {
      assert MirrorsAt(ag, seen, t, name);
      RowStaysMirrored(ag, seen, u, other, rows, traps, t, name);
    }
  }

  // The three row operations

  lemma SensorTrapsAbout(t: TableId, name: string, state: int)
    requires !t.Stock? && 0 <= state <= 5
    ensures About(SensorTraps(FolderOf(t), name, state), t, name)
    ensures Fits(t, name) ==> AllValues(SensorTraps(FolderOf(t), name, state)) == [[state]]
  {
    NotificationMatchesTable(t);
    FitsIsHavingCells(t, name, 0);
    var traps := SensorTraps(FolderOf(t), name, state);
    if traps != [] {
      assert OidsOf(traps[0]) == CellsOf(t, name);
      assert ValuesOf(traps[0]) == [state];
    }
  }

  lemma InventoryTrapAbout(name: string, present: bool, functional: bool)
    ensures About([InventoryTrap(name, present, functional)], Stock, name)
    ensures AllValues([InventoryTrap(name, present, functional)]) == [[TruthValue(present), TruthValue(functional)]]
  {
    var trap := InventoryTrap(name, present, functional);
    assert OidsOf(trap) == CellsOf(Stock, name);
    assert ValuesOf(trap) == [TruthValue(present), TruthValue(functional)];
  }

  lemma CreateTrapsReport(t: TableId, name: string)
    ensures var traps := CreateTraps(KindOf(t), FolderOf(t), name);
            var shown := Some(Shown(KindOf(t), DefaultData(KindOf(t))));
            && About(traps, t, name)
            && CanFollow(KindOf(t), None, shown)
            && (Fits(t, name) ==> AllValues(traps) == ChangedValues(KindOf(t), None, shown))
  {
    if !t.Stock? {
      SensorTrapsAbout(t, name, E_NORMAL);
    }
  }

  lemma ChangeTrapsReport(t: TableId, name: string, before: Data, after: Data)
    ensures var traps := ChangeTraps(KindOf(t), FolderOf(t), name, before, after);
            var b, a := Some(Shown(KindOf(t), before)), Some(Shown(KindOf(t), after));
            && About(traps, t, name)
            && CanFollow(KindOf(t), b, a)
            && (Fits(t, name) ==> AllValues(traps) == ChangedValues(KindOf(t), b, a))
  {
    if t.Stock? {
      InventoryTrapAbout(name, Flag(after, FIELD_PRESENT), Flag(after, FIELD_FUNCTIONAL));
    } else {
      SensorTrapsAbout(t, name, StateOf(after));
    }
  }

  lemma DestroyTrapsReport(t: TableId, name: string, d: Data)
    ensures var traps := DestroyTraps(KindOf(t), FolderOf(t), name, d);
            var shown := Some(Shown(KindOf(t), d));
            && About(traps, t, name)
            && CanFollow(KindOf(t), shown, None)
            && (Fits(t, name) ==> AllValues(traps) == ChangedValues(KindOf(t), shown, None))
  {
    if t.Stock? {
      InventoryTrapAbout(name, false, false);
    } else {
      SensorTrapsAbout(t, name, E_DISABLED);
    }
  }

  lemma TouchKeepsInv(ag: Agent, seen: RowSet, t: TableId, name: string)
    requires Inv(ag, seen)
    ensures Inv(With(ag, t, Touch(ConfigOf(t), View(ag, t), name)), seen)
  {
    if name !in ag.tables[t] {
      CreateTrapsReport(t, name);
      DefaultDataIsTyped(KindOf(t));
      OneRowChanges(ag, seen, t, name, ag.tables[t][name := DefaultData(KindOf(t))],
                    CreateTraps(KindOf(t), FolderOf(t), name));
    } else {
      assert With(ag, t, View(ag, t)) == ag;
    }
  }

  lemma AssignKeepsInv(ag: Agent, seen: RowSet, t: TableId, name: string, fields: Fields)
    requires Inv(ag, seen) && name in ag.tables[t]
    ensures Inv(With(ag, t, Assign(ConfigOf(t), View(ag, t), name, fields)), seen)
  {
    var before := ag.tables[t][name];
    var after := Merge(SchemaOf(KindOf(t)), before, fields);
    ChangeTrapsReport(t, name, before, after);
    assert TypedAt(ag, t, name);
    OneRowChanges(ag, seen, t, name, ag.tables[t][name := after],
                  ChangeTraps(KindOf(t), FolderOf(t), name, before, after));
  }

  lemma DropKeepsInv(ag: Agent, seen: RowSet, t: TableId, name: string)
    requires Inv(ag, seen) && (name in ag.tables[t] ==> (t, name) in seen)
    ensures Inv(With(ag, t, Drop(ConfigOf(t), View(ag, t), name)), seen)
  {
    if name in ag.tables[t] {
      var d := ag.tables[t][name];
      DestroyTrapsReport(t, name, d);
      OneRowChanges(ag, seen, t, name, ag.tables[t] - {name}, DestroyTraps(KindOf(t), FolderOf(t), name, d));
    } else {
      assert With(ag, t, View(ag, t)) == ag;
    }
  }
}
