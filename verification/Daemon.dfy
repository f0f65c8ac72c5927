/** The six tables as objects that share one trap log, and the proof that they run as the agent does. */
module Daemon {
  import opened Row
  import opened TableSpec
  import opened Table
  import Mirror
  import Receiver
  import Runs
  import Terms
  import A = Agent

  function IndexOf(t: A.TableId): (i: nat)
    ensures i < |A.ALL| && A.ALL[i] == t
  {
    match t
    case Temperature => 0
    case Voltage => 1
    case FanTach => 2
    case Current => 3
    case Power => 4
    case Stock => 5
  }

  lemma IndexIs(i: nat)
    requires i < |A.ALL|
    ensures forall t :: IndexOf(t) == i <==> t == A.ALL[i]
  {
  }

  lemma BroadcastNext(ag: A.Agent, order: seq<A.TableId>, k: nat, signal: A.Signal)
    requires A.Whole(ag) && k < |order|
    ensures A.Broadcast(ag, order[k..], signal) == A.Broadcast(A.Apply(ag, order[k], signal), order[k + 1..], signal)
  {
    hide A.Apply;
    assert order[k..][0] == order[k] && order[k..][1..] == order[k + 1..];
  }

  lemma BroadcastEnd(ag: A.Agent, order: seq<A.TableId>, signal: A.Signal)
    requires A.Whole(ag)
    ensures A.Broadcast(ag, order[|order|..], signal) == ag
  {
  }

  /** The row is there, and this is the answer to a GET of the column. */
  ghost predicate Served(inputs: seq<A.Input>, t: A.TableId, name: string, column: nat, reply: Reply) {
    && name in A.After(inputs).tables[t] && |A.After(inputs).tables[t][name]| == 9
    && Terms.Answers(reply, t, name, A.After(inputs).tables[t][name], column)
  }

  /** A receiver of these traps holds this answer under the OID of the cell. */
  ghost predicate Told(log: seq<Rules.Trap>, t: A.TableId, name: string, column: nat, reply: Reply) {
    var told, cell := Mirror.Received(log), Terms.TableCell(t, column, name);
    reply == Integer(Runs.ToldOr(told, cell, 2)) && (!t.Stock? ==> cell in told)
  }

  /** What a GET answers about a row with a short name is what the traps have told. */
  lemma ServedIsTold(inputs: seq<A.Input>, t: A.TableId, name: string, column: nat, reply: Reply)
    requires Served(inputs, t, name, column, reply)
    requires |name| <= if t.Stock? then 117 else 116
    requires if t.Stock? then 9 <= column <= 10 else column == 7
    ensures Told(A.After(inputs).log, t, name, column, reply)
  {
    hide Terms.TableCell, Mirror.Received, A.After, Receiver.WasThere, Terms.Visible;
    Receiver.ReceiverKnows(inputs, t, name);
    Receiver.LiveWasThere(inputs, t, name);
  }

  class Daemon {
    const log: TrapLog
    const tables: seq<Table>

    ghost function AllRows(): set<Row>
      reads tables
    {
      set i, r | 0 <= i < |tables| && r in tables[i].rows :: r
    }

    ghost predicate Valid()
      reads tables, AllRows()
    {
      && |tables| == |A.ALL|
      && (forall i :: 0 <= i < |tables| ==>
           tables[i].Valid() && tables[i].log == log && tables[i].cfg == A.ConfigOf(A.ALL[i]))
      && (forall i, j :: 0 <= i < j < |tables| ==> tables[i] != tables[j] && tables[i].rows !! tables[j].rows)
    }

    ghost function View(): A.Agent
      requires |tables| == |A.ALL|
      reads tables, log
    {
      A.Agent(map t: A.TableId :: tables[IndexOf(t)].contents, log.sent)
    }

    /** The tables start empty. */
    constructor ()
      ensures Valid() && View() == A.EMPTY
      ensures fresh(log) && forall i :: 0 <= i < |tables| ==> fresh(tables[i]) && tables[i].rows == {}
    {
      hide A.ConfigOf, IndexOf, Table.Valid;
      var shared := new TrapLog();
      var made: seq<Table> := [];
      while |made| < |A.ALL|
        invariant |made| <= |A.ALL| && fresh(shared) && shared.sent == []
        invariant forall i :: 0 <= i < |made| ==>
                    fresh(made[i]) && made[i].Valid() && made[i].rows == {} && made[i].contents == map[]
        invariant forall i :: 0 <= i < |made| ==> made[i].log == shared && made[i].cfg == A.ConfigOf(A.ALL[i])
        invariant forall i, j :: 0 <= i < j < |made| ==> made[i] != made[j]
      {
        var table := new Table(A.ConfigOf(A.ALL[|made|]), shared);
        made := made + [table];
      }
      log, tables := shared, made;
    }

    /** One table's handler of a signal, or its `update()`. */
    method Handle(i: nat, ev: Event)
      requires Valid() && i < |tables|
      modifies tables[i], tables[i].rows, log
      ensures Valid() && fresh(tables[i].rows - old(tables[i].rows))
      ensures forall j :: 0 <= j < |tables| && j != i ==> tables[j].rows == old(tables[j].rows)
      ensures View() == A.Apply(old(View()), A.ALL[i], ev)
    {
      hide Step, A.ConfigOf, IndexOf, A.ALL, Table.Valid;
      ghost var before := View();
      var _ := tables[i].Deliver(ev);
      IndexIs(i);
      assert View().tables == before.tables[A.ALL[i] := tables[i].contents];
    }

    /** Every table has subscribed to the signals, and each looks at the path itself. */
    method OnSignal(signal: A.Signal, order: A.Order)
      requires Valid()
      modifies tables, AllRows(), log
      ensures Valid() && fresh(AllRows() - old(AllRows()))
      ensures View() == A.React(old(View()), A.Bus(signal, order))
    {
      hide A.Apply, A.ALL, A.Broadcast, A.ConfigOf, Table.Valid, IndexOf;
      var k := 0;
      while k < |order|
        invariant k <= |order| && Valid()
        invariant forall j :: 0 <= j < |tables| ==> fresh(tables[j].rows - old(tables[j].rows))
        invariant A.Broadcast(View(), order[k..], signal) == A.Broadcast(old(View()), order, signal)
      {
        BroadcastNext(View(), order, k, signal);
        Handle(IndexOf(order[k]), signal);
        k := k + 1;
      }
      BroadcastEnd(View(), order, signal);
    }

    method OnUpdate(t: A.TableId, snapshot: seq<Entry>)
      requires Valid()
      modifies tables, AllRows(), log
      ensures Valid() && fresh(AllRows() - old(AllRows()))
      ensures View() == A.React(old(View()), A.Update(t, snapshot))
    {
      Handle(IndexOf(t), Refreshed(snapshot));
    }

    method Deliver(input: A.Input)
      requires Valid()
      modifies tables, AllRows(), log
      ensures Valid() && fresh(AllRows() - old(AllRows()))
      ensures View() == A.React(old(View()), input)
    {
      match input {
        case Bus(signal, order) => OnSignal(signal, order);
        case Update(t, snapshot) => OnUpdate(t, snapshot);
      }
    }

    /** From the start on, the objects are where the agent of the model is. */
    method Run(inputs: seq<A.Input>)
      requires Valid() && View() == A.EMPTY
      modifies tables, AllRows(), log
      ensures Valid() && fresh(AllRows() - old(AllRows()))
      ensures View() == A.After(inputs)
      decreases |inputs|
    {
      hide A.React, A.EMPTY, Valid, View;
      if inputs != [] {
        Run(inputs[..|inputs| - 1]);
        Deliver(inputs[|inputs| - 1]);
      }
    }

    /**
     * A walk over one table that asks every row for a column. Of the columns that traps
     * report, each answer is what the traps sent so far have told, if the name is short.
     */
    method Poll(t: A.TableId, column: nat, ghost inputs: seq<A.Input>)
      returns (indexes: seq<string>, replies: seq<Reply>)
      requires Valid() && View() == A.After(inputs)
      ensures indexes == Names.Sorted(A.After(inputs).tables[t].Keys) && |replies| == |indexes|
      ensures forall k :: 0 <= k < |indexes| ==> Served(inputs, t, indexes[k], column, replies[k])
      ensures (if t.Stock? then 9 <= column <= 10 else column == 7) ==>
                forall k :: 0 <= k < |indexes| && |indexes[k]| <= (if t.Stock? then 117 else 116) ==>
                  Told(log.sent, t, indexes[k], column, replies[k])
    {
      hide A.After, Mirror.Received, Names.Sorted, A.ConfigOf, Rules.SchemaOf, IndexOf, A.ALL, Table.Valid, A.KindOf,
           Served, Told;
      var table := tables[IndexOf(t)];
      var visited, names := table.Walk();
      indexes, replies := names, [];
      while |replies| < |visited|
        invariant |replies| <= |visited| == |indexes|
        invariant forall k :: 0 <= k < |replies| ==> Served(inputs, t, indexes[k], column, replies[k])
      {
        var reply := Ask(t, table, visited[|replies|], column, inputs);
        replies := replies + [reply];
      }
      if (if t.Stock? then 9 <= column <= 10 else column == 7) {
        forall k | 0 <= k < |indexes| && |indexes[k]| <= (if t.Stock? then 117 else 116)
          ensures Told(log.sent, t, indexes[k], column, replies[k])
        {
          ServedIsTold(inputs, t, indexes[k], column, replies[k]);
        }
      }
    }

    /** One GET. */
    method Ask(t: A.TableId, table: Table, row: Row, column: nat, ghost inputs: seq<A.Input>) returns (reply: Reply)
      requires table.Valid() && table.cfg == A.ConfigOf(t) && row in table.rows
      requires table.contents == A.After(inputs).tables[t]
      ensures Served(inputs, t, row.name, column, reply)
    {
      hide A.After, A.FolderOf, Rules.SchemaOf, Rules.StateOf, Rules.Scaled, Oids.SensorScale, Terms.Nearest,
           Terms.Visible;
      assert row.name in table.contents && table.contents[row.name] == row.data;
      Runs.RowsStayTyped(inputs, t, row.name);
      Terms.FieldIs(t, 0, Items.Bool(false));
      Terms.ShownIsVisible(t, row.data);
      if t.Stock? && 2 <= column <= 8 {
        Terms.FieldIs(t, column - 2, row.data[column - 2]);
      }
      if !t.Stock? && 2 <= column <= 6 {
        var v := row.data[[0, 1, 3, 5, 7][column - 2]];
        Terms.FieldIs(t, [0, 1, 3, 5, 7][column - 2], v);
        Terms.NumbersAreNearest(t, v.d);
      }
      reply := row.GetSnmpReply(column);
    }
  }
}
