/** The transaction and simulation tables. Nothing is ever deleted, so a row's id is its
    position plus one. */
module Ledger {
  import opened States
  import opened Wrappers

  datatype Row = Row(enddate: string, state: int, pump: int, nozzle: int, fueltype: string, price: int, volume: int, sum: int,
                     user: string, requestedvolume: int, trktxnid: int)

  type Table = seq<Row>

  /** What INSERT leaves to the defaults of the table is zero, and the state is 1. */
  function NewRow(pump: int, nozzle: int, fueltype: string, price: int, user: string, requestedvolume: int): Row {
    Row("", 1, pump, nozzle, fueltype, price, 0, 0, user, requestedvolume, 0)
  }

  /** The position of SELECT MAX(id) .. WHERE pump = p, or -1. */
  function Newest(rows: Table, pump: int): (n: int)
    ensures -1 <= n < |rows|
    ensures n >= 0 ==> rows[n].pump == pump
    ensures forall i :: n < i < |rows| ==> rows[i].pump != pump
  {
    if rows == [] then -1
    else if rows[|rows| - 1].pump == pump then |rows| - 1
    else Newest(rows[..|rows| - 1], pump)
  }

  // ----- the changes of the four update statements

  datatype Amount = Amount(volume: int, sum: int, txnId: int)

  datatype Change =
    | Report(now: string, amount: Amount)                               // a transaction is delivered
    | Closing(now: string)                                              // a transaction is closed
    | Order(fueltype: string, user: string, price: int, volume: int)    // a simulation is ordered
    | Halt(now: string, user: string)                                   // a simulation is stopped

  /** The state in which a change finds its row. */
  function From(change: Change): int {
    match change
    case Report(_, _) => 1
    case Closing(_) => 3
    case Order(_, _, _, _) => 1
    case Halt(_, _) => 2
  }

  function Apply(change: Change, r: Row): Row {
    match change
    case Report(now, amount) => r.(state := 3, enddate := now, volume := amount.volume, sum := amount.sum, trktxnid := amount.txnId)
    case Closing(now) => r.(state := 4, enddate := now)
    case Order(fueltype, user, price, volume) =>
      r.(state := 2, fueltype := fueltype, user := user, price := price, requestedvolume := volume)
    case Halt(now, user) => r.(state := 3, enddate := now, user := user)
  }

  /** UPDATE .. WHERE id = (SELECT MAX(id) ..) AND state = s */
  function Updated(rows: Table, pump: int, change: Change): Table {
    var n := Newest(rows, pump);
    if n >= 0 && rows[n].state == From(change) then rows[n := Apply(change, rows[n])] else rows
  }

  /** The newest row of the pump, if there is one and it is in this state. */
  predicate InState(rows: Table, pump: int, state: int) {
    Newest(rows, pump) >= 0 && rows[Newest(rows, pump)].state == state
  }

  datatype Thrown = NullPointer

  class TransactionControl {
    var transactions: Table
    var simulations: Table

    constructor ()
      ensures transactions == [] && simulations == []
    {
      transactions, simulations := [], [];
    }

    /** The subquery, row by row. */
    static method SelectMaxId(rows: Table, pump: int) returns (n: int)
      ensures n == Newest(rows, pump)
    {
      n := -1;
      var i := 0;
      while i < |rows|
        invariant 0 <= i <= |rows| && -1 <= n < i
        invariant n >= 0 ==> rows[n].pump == pump
        invariant forall j :: n < j < i ==> rows[j].pump != pump
      {
        if rows[i].pump == pump {
          n := i;
        }
        i := i + 1;
      }
      NewestIs(rows, pump, n);
    }

    static method Update(rows: Table, pump: int, change: Change) returns (after: Table)
      ensures after == Updated(rows, pump, change)
    {
      var n := SelectMaxId(rows, pump);
      after := if n >= 0 && rows[n].state == From(change) then rows[n := Apply(change, rows[n])] else rows;
    }

    /** `sqlOk` says whether SQLite executes the statement; a failure is only logged. */
    method AddTransaction(pump: int, nozzle: int, price: int, volume: int, product: string, user: string, sqlOk: bool)
      returns (dbId: Option<int>)
      modifies this
      ensures simulations == old(simulations)
      ensures transactions
           == if sqlOk then old(transactions) + [Row("", 1, pump, nozzle, product, price, 0, 0, user, volume, 0)] else old(transactions)
      ensures dbId == if sqlOk then Some(|transactions|) else None
      ensures Stepped(TransactionEntry, old(transactions), transactions) && Stepped(SimulationEntry, old(simulations), simulations)
    {
      if sqlOk {
        ghost var e := Insert(NewRow(pump, nozzle, product, price, user, volume));
        assert TransactionEntry(e) && Execute(transactions, e) == transactions + [e.row];
        transactions := transactions + [NewRow(pump, nozzle, product, price, user, volume)];
        return Some(|transactions|);
      }
      return None;
    }

    /** Other states change nothing. A done state that is no amount is a null pointer after
        the cast. */
    method UpdateTransaction(id: int, state: StateType, amount: Option<Amount>, now: string, sqlOk: bool)
      returns (outcome: Result<(), Thrown>)
      modifies this
      ensures simulations == old(simulations)
      ensures outcome == if state == SUPPLY_DONE && amount.None? then Failure(NullPointer) else Success(())
      ensures transactions
           == if state == SUPPLY_DONE && amount.Some? && sqlOk && InState(old(transactions), id, 1) then
                var n := Newest(old(transactions), id);
                old(transactions)[n := old(transactions)[n].(state := 3, enddate := now, volume := amount.value.volume,
                                                             sum := amount.value.sum, trktxnid := amount.value.txnId)]
              else old(transactions)
      ensures Stepped(TransactionEntry, old(transactions), transactions) && Stepped(SimulationEntry, old(simulations), simulations)
    {
      if state == SUPPLY_DONE {
        if amount.None? {
          return Failure(NullPointer);
        }
        if sqlOk {
          ghost var e := Move(id, Report(now, amount.value));
          assert TransactionEntry(e) && Execute(transactions, e) == Updated(transactions, id, e.change);
          transactions := Update(transactions, id, Report(now, amount.value));
        }
      }
      return Success(());
    }

    method UpdateTransactionFromCmd(id: int, cmdType: CmdType, now: string, sqlOk: bool)
      modifies this
      ensures simulations == old(simulations)
      ensures transactions
           == if cmdType == CLOSE_REPORT && sqlOk && InState(old(transactions), id, 3) then
                var n := Newest(old(transactions), id);
                old(transactions)[n := old(transactions)[n].(state := 4, enddate := now)]
              else old(transactions)
      ensures Stepped(TransactionEntry, old(transactions), transactions) && Stepped(SimulationEntry, old(simulations), simulations)
    {
      if cmdType == CLOSE_REPORT && sqlOk {
        ghost var e := Move(id, Closing(now));
        assert TransactionEntry(e) && Execute(transactions, e) == Updated(transactions, id, e.change);
        transactions := Update(transactions, id, Closing(now));
      }
    }

    method AddSimulation(pump: int, nozzle: int, product: string, user: string, sqlOk: bool)
      modifies this
      ensures transactions == old(transactions)
      ensures simulations
           == if sqlOk then old(simulations) + [Row("", 1, pump, nozzle, product, 0, 0, 0, user, 0, 0)] else old(simulations)
      ensures Stepped(TransactionEntry, old(transactions), transactions) && Stepped(SimulationEntry, old(simulations), simulations)
    {
      if sqlOk {
        ghost var e := Insert(NewRow(pump, nozzle, product, 0, user, 0));
        assert SimulationEntry(e) && Execute(simulations, e) == simulations + [e.row];
        simulations := simulations + [NewRow(pump, nozzle, product, 0, user, 0)];
      }
    }

    method UpdateSimulationFromCmd(id: int, cmdType: CmdType, price: int, volume: int, product: string, user: string, now: string, sqlOk: bool)
      modifies this
      ensures transactions == old(transactions)
      ensures simulations
           == if cmdType == STOP_COMMAND && sqlOk && InState(old(simulations), id, 2) then
                var n := Newest(old(simulations), id);
                old(simulations)[n := old(simulations)[n].(state := 3, enddate := now, user := user)]
              else if cmdType == WRITE_VOLUME && sqlOk && InState(old(simulations), id, 1) then
                var n := Newest(old(simulations), id);
                old(simulations)[n := old(simulations)[n].(state := 2, fueltype := product, user := user, price := price,
                                                           requestedvolume := volume)]
              else old(simulations)
      ensures Stepped(TransactionEntry, old(transactions), transactions) && Stepped(SimulationEntry, old(simulations), simulations)
    {
      if !sqlOk {
        return;
      }
      ghost var stop, write := Move(id, Halt(now, user)), Move(id, Order(product, user, price, volume));
      assert SimulationEntry(stop) && Execute(simulations, stop) == Updated(simulations, id, stop.change);
      assert SimulationEntry(write) && Execute(simulations, write) == Updated(simulations, id, write.change);
      match cmdType {
        case STOP_COMMAND => simulations := Update(simulations, id, Halt(now, user));
        case WRITE_VOLUME => simulations := Update(simulations, id, Order(product, user, price, volume));
        case _ =>
      }
    }
  }

  lemma {:induction false} NewestIs(rows: Table, pump: int, n: int)
    requires -1 <= n < |rows| && (n >= 0 ==> rows[n].pump == pump)
    requires forall i :: n < i < |rows| ==> rows[i].pump != pump
    ensures Newest(rows, pump) == n
  {
  }

  // ----- histories of one table

  /** One executed statement. Those of the other table are left out: they do not touch
      this one. */
  datatype Entry =
    | Insert(row: Row)
    | Move(pump: int, change: Change)

  /** The statements that transactions see. */
  predicate TransactionEntry(e: Entry) {
    match e
    case Insert(row) => row == NewRow(row.pump, row.nozzle, row.fueltype, row.price, row.user, row.requestedvolume)
    case Move(pump, change) => change.Report? || change.Closing?
  }

  predicate SimulationEntry(e: Entry) {
    match e
    case Insert(row) => row == NewRow(row.pump, row.nozzle, row.fueltype, 0, row.user, 0)
    case Move(pump, change) => change.Order? || change.Halt?
  }

  function Execute(rows: Table, e: Entry): Table {
    match e
    case Insert(row) => rows + [row]
    case Move(pump, change) => Updated(rows, pump, change)
  }

  /** A table is left alone or executes one statement that it may see. Every method of the
      class steps both tables so. */
  ghost predicate Stepped(sees: Entry -> bool, before: Table, after: Table) {
    after == before || exists e :: sees(e) && after == Execute(before, e)
  }

  function After(rows: Table, history: seq<Entry>): Table
    decreases |history|
  {
    if history == [] then rows else After(Execute(rows, history[0]), history[1..])
  }

  /** So whatever methods are called, in whatever order, a table ends as some history of its
      own statements leaves it, and the theorems below are about every use of the class. */
  lemma {:induction false} CallsAreHistory(sees: Entry -> bool, tables: seq<Table>) returns (history: seq<Entry>)
    requires tables != [] && forall i :: 0 < i < |tables| ==> Stepped(sees, tables[i - 1], tables[i])
    ensures forall k :: 0 <= k < |history| ==> sees(history[k])
    ensures After(tables[0], history) == tables[|tables| - 1]
    decreases |tables|
  {
    if |tables| == 1 {
      history := [];
    } else {
      var rest := tables[1..];
      assert forall i :: 0 < i < |rest| ==> rest[i - 1] == tables[i] && rest[i] == tables[i + 1];
      history := CallsAreHistory(sees, rest);
      assert Stepped(sees, tables[0], tables[1]);
      if tables[1] != tables[0] {
        var e :| sees(e) && tables[1] == Execute(tables[0], e);
        assert ([e] + history)[1..] == history;
        history := [e] + history;
      }
    }
  }

  function PumpOf(e: Entry): int { if e.Insert? then e.row.pump else e.pump }

  // ----- every row has its own life

  /** What becomes of a row that is the newest of its pump: moves for its pump from the
      state it is in change it, until the next row of that pump freezes it. */
  function Fate(row: Row, history: seq<Entry>): Row
    decreases |history|
  {
    if history == [] then row
    else
      var e := history[0];
      if PumpOf(e) != row.pump then Fate(row, history[1..])
      else if e.Insert? then row
      else if From(e.change) == row.state then Fate(Apply(e.change, row), history[1..])
      else Fate(row, history[1..])
  }

  /** Older rows are never touched again. */
  lemma {:induction false} FrozenRow(rows: Table, history: seq<Entry>, i: nat)
    requires i < |rows| && Newest(rows, rows[i].pump) > i
    ensures i < |After(rows, history)| && After(rows, history)[i] == rows[i]
    decreases |history|
  {
    if history != [] {
      var rows' := Execute(rows, history[0]);
      NewestAfter(rows, history[0], rows[i].pump);
      assert rows'[i] == rows[i];
      FrozenRow(rows', history[1..], i);
    }
  }

  lemma NewestAfter(rows: Table, e: Entry, pump: int)
    ensures Newest(Execute(rows, e), pump)
         == if e.Insert? && e.row.pump == pump then |rows| else Newest(rows, pump)
  {
    NewestIs(Execute(rows, e), pump, if e.Insert? && e.row.pump == pump then |rows| else Newest(rows, pump));
  }

  /** Whatever else happens in the table, a row's end is decided by its own fate. */
  lemma {:induction false} RowFate(rows: Table, history: seq<Entry>, i: nat)
    requires i < |rows| && Newest(rows, rows[i].pump) == i
    ensures i < |After(rows, history)| && After(rows, history)[i] == Fate(rows[i], history)
    decreases |history|
  {
    if history != [] {
      var e, rows' := history[0], Execute(rows, history[0]);
      NewestAfter(rows, e, rows[i].pump);
      if e.Insert? && e.row.pump == rows[i].pump {
        FrozenRow(rows', history[1..], i);
      } else {
        RowFate(rows', history[1..], i);
      }
    }
  }

  /** From its insertion on, whatever rows were there before. */
  lemma InsertedRowFate(rows: Table, row: Row, history: seq<Entry>)
    ensures |After(rows + [row], history)| > |rows| && After(rows + [row], history)[|rows|] == Fate(row, history)
  {
    NewestIs(rows + [row], row.pump, |rows|);
    RowFate(rows + [row], history, |rows|);
  }

  // ----- what a fate can be

  ghost predicate OfTransactions(history: seq<Entry>) {
    forall k :: 0 <= k < |history| ==> TransactionEntry(history[k])
  }

  ghost predicate OfSimulations(history: seq<Entry>) {
    forall k :: 0 <= k < |history| ==> SimulationEntry(history[k])
  }

  /** The columns that no statement on transactions changes. */
  predicate SameOrder(a: Row, b: Row) {
    && a.pump == b.pump && a.nozzle == b.nozzle && a.fueltype == b.fueltype && a.price == b.price
    && a.user == b.user && a.requestedvolume == b.requestedvolume
  }

  predicate SameDelivery(a: Row, b: Row) { a.volume == b.volume && a.sum == b.sum && a.trktxnid == b.trktxnid }

  /** A row after a report keeps what the first report said for good, and can only be
      closed. */
  lemma {:induction false} AfterReport(row: Row, history: seq<Entry>)
    requires OfTransactions(history) && (row.state == 3 || row.state == 4)
    ensures var end := Fate(row, history);
            && SameOrder(end, row) && SameDelivery(end, row)
            && (end == row || (row.state == 3 && end.state == 4))
    decreases |history|
  {
    if history != [] {
      var e := history[0];
      if PumpOf(e) == row.pump && e.Move? && From(e.change) == row.state {
        AfterReport(Apply(e.change, row), history[1..]);
      } else if !(PumpOf(e) == row.pump && e.Insert?) {
        AfterReport(row, history[1..]);
      }
    }
  }

  /** A new transaction stays as it was inserted, or ends with the volume, sum and pump
      transaction id of one report that arrived for its pump before any other row of that
      pump, and before which no other report arrived. */
  lemma {:induction false} FirstReportWins(row: Row, history: seq<Entry>) returns (k: nat)
    requires OfTransactions(history) && row.state == 1
    ensures k <= |history|
    ensures forall j :: 0 <= j < k ==> PumpOf(history[j]) == row.pump ==> history[j].Move? && history[j].change.Closing?
    ensures var end := Fate(row, history);
            && SameOrder(end, row)
            && (end == row || (end.state == 3 || end.state == 4))
            && (end.state != 1 <==> k < |history| && PumpOf(history[k]) == row.pump && history[k].Move? && history[k].change.Report?)
            && (end.state != 1 ==>
              var amount := history[k].change.amount;
              && end.volume == amount.volume && end.sum == amount.sum && end.trktxnid == amount.txnId
              && (end.state == 3 ==> end.enddate == history[k].change.now))
            && (end.state == 1 && k < |history| ==> history[k].Insert? && PumpOf(history[k]) == row.pump)
    decreases |history|
  {
    if history == [] {
      k := 0;
    } else {
      var e := history[0];
      if PumpOf(e) == row.pump && (e.Insert? || e.change.Report?) {
        k := 0;
        if e.Move? {
          AfterReport(Apply(e.change, row), history[1..]);
        }
      } else {
        assert TransactionEntry(e);
        var j := FirstReportWins(row, history[1..]);
        k := j + 1;
      }
    }
  }

  /** A simulation goes from 1 to 2 to 3 and no other way, and never has a delivery. */
  lemma {:induction false} SimulationLife(row: Row, history: seq<Entry>)
    requires OfSimulations(history) && 1 <= row.state <= 3
    ensures var end := Fate(row, history);
            && row.state <= end.state <= 3 && SameDelivery(end, row)
            && end.pump == row.pump && end.nozzle == row.nozzle
            && (end.state == row.state ==> end == row)
            && (row.state >= 2 ==> end.fueltype == row.fueltype && end.price == row.price && end.requestedvolume == row.requestedvolume)
    decreases |history|
  {
    if history != [] {
      var e := history[0];
      if PumpOf(e) == row.pump && e.Move? && From(e.change) == row.state {
        SimulationLife(Apply(e.change, row), history[1..]);
      } else if !(PumpOf(e) == row.pump && e.Insert?) {
        SimulationLife(row, history[1..]);
      }
    }
  }

  /** A new simulation stays as it was inserted, or has the product, price and volume of the
      first order for its pump, before any other row of that pump. */
  lemma {:induction false} FirstOrderWins(row: Row, history: seq<Entry>) returns (k: nat)
    requires OfSimulations(history) && row.state == 1
    ensures k <= |history|
    ensures forall j :: 0 <= j < k ==> PumpOf(history[j]) == row.pump ==> history[j].Move? && history[j].change.Halt?
    ensures var end := Fate(row, history);
            && (end.state != 1 <==> k < |history| && PumpOf(history[k]) == row.pump && history[k].Move? && history[k].change.Order?)
            && (end.state == 1 ==> end == row)
            && (end.state != 1 ==>
              var order := history[k].change;
              && end.fueltype == order.fueltype && end.price == order.price && end.requestedvolume == order.volume
              && (end.state == 2 ==> end.user == order.user && end.enddate == row.enddate))
    decreases |history|
  {
    if history == [] {
      k := 0;
    } else {
      var e := history[0];
      if PumpOf(e) == row.pump && (e.Insert? || e.change.Order?) {
        k := 0;
        if e.Move? {
          SimulationLife(Apply(e.change, row), history[1..]);
        }
      } else {
        assert SimulationEntry(e);
        var j := FirstOrderWins(row, history[1..]);
        k := j + 1;
      }
    }
  }

  // ----- conservation

  function TotalVolume(rows: Table): int {
    if rows == [] then 0 else TotalVolume(rows[..|rows| - 1]) + rows[|rows| - 1].volume
  }

  lemma {:induction false} TotalOfUpdate(rows: Table, i: nat, row: Row)
    requires i < |rows|
    ensures TotalVolume(rows[i := row]) == TotalVolume(rows) - rows[i].volume + row.volume
  {
    var n := |rows| - 1;
    if i < n {
      assert rows[i := row][..n] == rows[..n][i := row];
      TotalOfUpdate(rows[..n], i, row);
    } else {
      assert rows[i := row][..n] == rows[..n];
    }
  }

  /** The volume a statement adds: that of a report which finds its pump's newest
      transaction still open. */
  function Accepted(rows: Table, e: Entry): int {
    if e.Move? && e.change.Report? && InState(rows, e.pump, 1) then e.change.amount.volume else 0
  }

  function AcceptedIn(rows: Table, history: seq<Entry>): int
    decreases |history|
  {
    if history == [] then 0 else Accepted(rows, history[0]) + AcceptedIn(Execute(rows, history[0]), history[1..])
  }

  /** Transactions that are still open have no delivery yet. */
  predicate OpenUndelivered(rows: Table) { forall i :: 0 <= i < |rows| && rows[i].state == 1 ==> rows[i].volume == 0 }

  lemma StepConserves(rows: Table, e: Entry)
    requires OpenUndelivered(rows) && TransactionEntry(e)
    ensures OpenUndelivered(Execute(rows, e))
    ensures TotalVolume(Execute(rows, e)) == TotalVolume(rows) + Accepted(rows, e)
  {
    match e
    case Insert(row) => assert (rows + [row])[..|rows|] == rows;
    case Move(pump, change) =>
      if InState(rows, pump, From(change)) {
        var n := Newest(rows, pump);
        TotalOfUpdate(rows, n, Apply(change, rows[n]));
      }
  }

  /** The volumes in the table are those of the accepted reports, each counted once,
      however often reports are repeated. */
  lemma {:induction false} VolumeConserved(rows: Table, history: seq<Entry>)
    requires OpenUndelivered(rows) && OfTransactions(history)
    ensures TotalVolume(After(rows, history)) == TotalVolume(rows) + AcceptedIn(rows, history)
    ensures rows == [] ==> TotalVolume(After(rows, history)) == AcceptedIn(rows, history)
    decreases |history|
  {
    if history != [] {
      StepConserves(rows, history[0]);
      VolumeConserved(Execute(rows, history[0]), history[1..]);
    }
  }

  /** A repeated report changes nothing, whatever it says. */
  lemma ReportsAreIdempotent(rows: Table, pump: int, a: Change, b: Change)
    requires a.Report? && b.Report?
    ensures Updated(Updated(rows, pump, a), pump, b) == Updated(rows, pump, a)
  {
    NewestAfter(rows, Move(pump, a), pump);
  }
}
