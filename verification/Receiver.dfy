/** What the traps are, and what a receiver of them knows, in the terms of the world outside the agent. */
module Receiver {
  import opened Oids
  import opened Rules
  import opened TableSpec
  import opened Agent
  import opened Mirror
  import opened Runs
  import opened Terms
  import opened Outcomes

  // Every trap of every run

  /** A report of some row of the agent, with values that the MIB lists. */
  ghost predicate IsTold(trap: Trap, t: TableId, name: string) {
    if t.Stock? then
      exists p, f :: 1 <= p <= 2 && 1 <= f <= 2 && trap == Report(Stock, name, [p, f])
    else
      |name| <= 116 && exists state :: 0 <= state <= 5 && trap == Report(t, name, [state])
  }

  /** Whatever is sent is a report of a row, under the notification of the row's own table. */
  lemma EveryTrapIsAReport(inputs: seq<Input>, k: nat)
    requires k < |After(inputs).log|
    ensures exists t, name :: IsTold(After(inputs).log[k], t, name)
  {
    hide After, Seen, IsTold, FolderOf;
    EveryRunKeepsInv(inputs);
    var trap := After(inputs).log[k];
    assert IsReport(trap);
    var t, name :| Says(trap, t, name) && Speaks(t, name);
    SaidIsTold(trap, t, name);
  }

  lemma SaidIsTold(trap: Trap, t: TableId, name: string)
    requires Says(trap, t, name) && Speaks(t, name)
    ensures IsTold(trap, t, name)
  {
    hide FolderOf, GetOid, TableCell, SensorNotifyOid, Notification, MakeOid;
    var values := ValuesOf(trap);
    NotificationIs(t);
    CellsAre(t, name);
    var b := trap.bindings;
    assert forall i :: 0 <= i < |b| ==> b[i] == Binding(OidsOf(trap)[i], values[i]);
    if t.Stock? {
      assert b == [Binding(OidsOf(trap)[0], values[0]), Binding(OidsOf(trap)[1], values[1])];
      assert trap == Report(Stock, name, [values[0], values[1]]);
    } else {
      assert b == [Binding(OidsOf(trap)[0], values[0])];
      assert trap == Report(t, name, [values[0]]);
    }
  }
  // What a receiver of traps knows

  /** The row was there at the end of some beginning of the run. */
  ghost predicate WasThere(inputs: seq<Input>, t: TableId, name: string) {
    exists run :: run <= inputs && name in After(run).tables[t]
  }

  lemma {:induction false} SeenWasThere(inputs: seq<Input>, t: TableId, name: string)
    ensures (t, name) in Seen(inputs) <==> WasThere(inputs, t, name)
    decreases |inputs|
  {
    hide After, WasThere;
    LastIsThere(inputs, t, name);
    if inputs != [] {
      SeenWasThere(inputs[..|inputs| - 1], t, name);
    }
  }

  lemma LastIsThere(inputs: seq<Input>, t: TableId, name: string)
    ensures WasThere(inputs, t, name) <==>
            || name in After(inputs).tables[t]
            || (inputs != [] && WasThere(inputs[..|inputs| - 1], t, name))
  {
    hide After;
    assert inputs <= inputs;
    if inputs != [] {
      var front := inputs[..|inputs| - 1];
      if run :| run <= inputs && name in After(run).tables[t] {
        assert run == inputs || run <= front;
      }
      if run :| run <= front && name in After(run).tables[t] {
        assert run <= inputs;
      }
    }
  }

  /** Nothing about a sensor that never was, its state while it is there, and 0 afterwards. */
  ghost predicate KnowsSensor(told: map<Oid, int>, t: TableId, name: string, rows: Rows, wasThere: bool)
    requires !t.Stock? && Nine(rows)
  {
    var cell := TableCell(t, 7, name);
    && (cell in told <==> |name| <= 116 && wasThere)
    && (cell in told ==> told[cell] == if name in rows then Visible(t, rows[name])[0] else 0)
  }

  /** 1 for what is present or functional, 2 or nothing for the rest. */
  ghost predicate KnowsItem(told: map<Oid, int>, name: string, rows: Rows)
    requires Nine(rows)
  {
    var shown := if |name| <= 117 && name in rows then Visible(Stock, rows[name]) else [2, 2];
    && ToldOr(told, TableCell(Stock, 9, name), 2) == shown[0]
    && ToldOr(told, TableCell(Stock, 10, name), 2) == shown[1]
  }

  /** After every run a receiver of the traps knows every sensor and every item. */
  lemma ReceiverKnows(inputs: seq<Input>, t: TableId, name: string)
    ensures Nine(After(inputs).tables[t])
    ensures t.Stock? ==> KnowsItem(Received(After(inputs).log), name, After(inputs).tables[t])
    ensures !t.Stock? ==>
              KnowsSensor(Received(After(inputs).log), t, name, After(inputs).tables[t], WasThere(inputs, t, name))
  {
    hide After, Received, GetOid, TableCell, Seen, WasThere, Visible, StateOf;
    ReachableRowsHaveNineFields(inputs, t);
    if name in After(inputs).tables[t] {
      ShownIsVisible(t, After(inputs).tables[t][name]);
    }
    if t.Stock? {
      InventoryTrapsMirrorRows(inputs, name);
      CellIs(Stock, 9, name);
      CellIs(Stock, 10, name);
    } else {
      SensorTrapsMirrorRows(inputs, t, name);
      SeenWasThere(inputs, t, name);
      CellIs(t, 7, name);
      if name in After(inputs).tables[t] {
        LiveWasThere(inputs, t, name);
      }
    }
  }

  lemma LiveWasThere(inputs: seq<Input>, t: TableId, name: string)
    requires name in After(inputs).tables[t]
    ensures WasThere(inputs, t, name)
  {
    hide After;
    assert inputs <= inputs;
  }
}
