/**
Restarting: what a new process reads back from the tables. A restore never fails; it yields the same state, up to
empty books, exactly when no order text holds a NUL; and a process that was restarted behaves like one that was not.
*/
module Recovery {
  import opened Types
  import opened PriceTime
  import opened Lifecycle
  import opened Agreement
  import opened Ledger
  import opened EventLog
  import opened Durable
  import opened Settlement
  import opened Invariant
  import opened Text

  /** The same orders, log, executions, counters, tables and queues; an empty book and an absent one are the same. */
  ghost predicate SameState(a: Oms, b: Oms) {
    && a.orders == b.orders && a.events == b.events && a.executions == b.executions
    && a.nextOrderId == b.nextOrderId && a.nextEventId == b.nextEventId && a.nextExecutionId == b.nextExecutionId
    && a.tables == b.tables
    && forall symbol :: BookOf(a.books, symbol) == BookOf(b.books, symbol)
  }

  ghost predicate CleanOrder(o: Order) {
    NulFree(o.clientOrderId) && NulFree(o.symbol)
  }

  /** No stored order text holds a NUL. */
  ghost predicate Clean(s: Oms) {
    forall id | id in s.orders :: CleanOrder(s.orders[id])
  }

  // ---------- Reading the orders back ----------

  ghost function Rows(orders: Orders): Orders {
    map id | id in orders :: OrderRow(orders[id])
  }

  lemma RowsAreOk(orders: Orders, n: OrderId)
    requires OrdersOk(orders, n)
    ensures OrdersOk(Rows(orders), n) && KeyedById(Rows(orders))
  {}

  /** The first `k` orders are back, and the books are what those orders say. */
  ghost predicate RestoredUpTo(s: Oms, rows: Orders, k: nat) {
    && (forall id: OrderId :: id in s.orders <==> 1 <= id <= k)
    && (forall id | id in s.orders :: id in rows && s.orders[id] == rows[id])
    && (forall symbol :: BookOf(s.books, symbol) == RestingOrders(rows, symbol, k + 1))
    && (forall symbol | symbol in s.books :: s.books[symbol] != [])
  }

  ghost predicate OnlyOrdersAndBooksDiffer(s: Oms, s': Oms) {
    s' == s.(orders := s'.orders, books := s'.books)
  }

  lemma RestoreOneOrder(s: Oms, rows: Orders, k: nat, n: OrderId)
    requires OrdersOk(rows, n) && k + 1 in rows && RestoredUpTo(s, rows, k)
    ensures var (s', error) := RestoreOrder(s, rows[k + 1]);
            error.None? && RestoredUpTo(s', rows, k + 1) && OnlyOrdersAndBooksDiffer(s, s')
  {
    hide RestingOrders, HasId, OrderOk;
    var o := rows[k + 1];
    RowCanRest(rows, k, n);
    assert BookOf(s.books, o.symbol) == RestingOrders(rows, o.symbol, k + 1);
    var s' := RestoreOrder(s, o).0;
    forall symbol ensures BookOf(s'.books, symbol) == RestingOrders(rows, symbol, k + 1 + 1) {
      RestingOrdersLast(rows, symbol, k + 2);
      assert BookOf(s.books, symbol) == RestingOrders(rows, symbol, k + 1);
    }
  }

  lemma RowCanRest(rows: Orders, k: nat, n: OrderId)
    requires OrdersOk(rows, n) && k + 1 in rows
    ensures var o := rows[k + 1];
            o.internalId == k + 1 && (o.orderType.Limit? ==> o.price > 0) && !HasId(RestingOrders(rows, o.symbol, k + 1), k + 1)
  {
    hide RestingOrders;
    var o := rows[k + 1];
    assert OrderOk(o);
    RestingOrdersAreOpen(rows, o.symbol, k + 1);
  }

  lemma {:induction false} RestoreAllOrders(s: Oms, rows: Orders, list: seq<Order>, k: nat)
    requires OrdersOk(rows, |list| + 1) && RestoredUpTo(s, rows, k) && k <= |list|
    requires forall id: OrderId | 1 <= id <= |list| :: id in rows && list[id - 1] == rows[id]
    ensures var (s', error) := RestoreOrders(s, list[k..]);
            error.None? && RestoredUpTo(s', rows, |list|) && OnlyOrdersAndBooksDiffer(s, s')
    decreases |list| - k
  {
    hide RestoreOrder, RestoredUpTo, OrdersOk;
    if k < |list| {
      assert list[k] == rows[k + 1] && list[k..][0] == list[k] && list[k..][1..] == list[k + 1..];
      RestoreOneOrder(s, rows, k, |list| + 1);
      RestoreAllOrders(RestoreOrder(s, list[k]).0, rows, list, k + 1);
    }
  }

  lemma {:induction false} MaxOfOrders(list: seq<Order>)
    requires forall j | 0 <= j < |list| :: list[j].internalId == j + 1
    ensures MaxOrderId(list) == |list|
  {
    if list != [] { MaxOfOrders(list[..|list| - 1]); }
  }

  lemma {:induction false} MaxOfEvents(list: seq<OrderEvent>)
    requires forall j | 0 <= j < |list| :: list[j].eventId == j + 1
    ensures MaxEventId(list) == |list|
  {
    if list != [] { MaxOfEvents(list[..|list| - 1]); }
  }

  lemma {:induction false} MaxOfExecutions(list: seq<Types.Fill>)
    requires forall j | 0 <= j < |list| :: list[j].executionId == j + 1
    ensures MaxExecutionId(list) == |list|
  {
    if list != [] { MaxOfExecutions(list[..|list| - 1]); }
  }

  // ---------- The restored state ----------

  /** What a restore of the tables of `s` yields, whatever texts the orders hold. */
  ghost predicate RestoredFrom(s: Oms, r: Oms) {
    && r.orders == Rows(s.orders)
    && |r.events| == |s.events| && (forall k | 0 <= k < |s.events| :: r.events[k] == EventRow(s.events[k]))
    && |r.executions| == |s.executions| && (forall k | 0 <= k < |s.executions| :: r.executions[k] == ExecutionRow(s.executions[k]))
    && r.nextOrderId == s.nextOrderId && r.nextEventId == s.nextEventId && r.nextExecutionId == s.nextExecutionId
    && r.tables == s.tables
    && (forall symbol :: BookOf(r.books, symbol) == RestingOrders(Rows(s.orders), symbol, s.nextOrderId))
    && (forall symbol | symbol in r.books :: r.books[symbol] != [])
  }

  /** What the three loads return. */
  ghost predicate Loaded(s: Oms, orders: seq<Order>, events: seq<OrderEvent>, executions: seq<Types.Fill>) {
    && |orders| == s.nextOrderId - 1 && |events| == |s.events| && |executions| == |s.executions|
    && (forall id: OrderId | 1 <= id <= |orders| :: id in s.orders && orders[id - 1] == OrderRow(s.orders[id]))
    && (forall k | 0 <= k < |events| :: events[k] == EventRow(s.events[k]))
    && (forall k | 0 <= k < |executions| :: executions[k] == ExecutionRow(s.executions[k]))
    && MaxOrderId(orders) == |orders| && MaxEventId(events) == |events| && MaxExecutionId(executions) == |executions|
  }

  lemma LoadedRows(s: Oms)
    requires Inv(s)
    ensures Loaded(s, SortedRows(s.tables.orders), SortedRows(s.tables.events), SortedRows(s.tables.executions))
  {
    hide LedgerOk, Logged, SortedRows, EventsTable, ExecutionsTable, OrdersTable, BooksAgree, MaxOrderId, MaxEventId, MaxExecutionId;
    SortedOrders(s.tables.orders, s.orders, s.nextOrderId);
    SortedEvents(s.tables.events, s.events);
    SortedExecutions(s.tables.executions, s.executions);
    TableIds(s);
    var orders := SortedRows(s.tables.orders);
    forall id: OrderId | 1 <= id <= |orders| ensures id in s.orders && orders[id - 1] == OrderRow(s.orders[id]) {}
    MaxOfOrders(orders);
    MaxOfEvents(SortedRows(s.tables.events));
    MaxOfExecutions(SortedRows(s.tables.executions));
  }

  /** A restore of any reachable state succeeds, row by row. */
  lemma RestoreNeverFails(s: Oms)
    requires Inv(s)
    ensures Restore(Started(s.tables)).1.Ok?
    ensures RestoredFrom(s, Restarted(s))
  {
    hide LedgerOk, Logged, SortedRows, RestoreOrders, BooksAgree, EventsTable, ExecutionsTable, OrdersTable, RestingOrders,
      MaxOrderId, MaxEventId, MaxExecutionId, RestoredUpTo, OrdersOk;
    var orders, events, executions := SortedRows(s.tables.orders), SortedRows(s.tables.events), SortedRows(s.tables.executions);
    LoadedRows(s);
    var rows := Rows(s.orders);
    RowsAreOk(s.orders, s.nextOrderId);
    var s1 := Started(s.tables).(events := events, executions := executions, nextExecutionId := |executions| + 1);
    NothingRestoredYet(s1, rows);
    RestoreAllOrders(s1, rows, orders, 0);
    assert orders[0..] == orders;
    AllRestored(s, RestoreOrders(s1, orders).0);
  }

  lemma NothingRestoredYet(s: Oms, rows: Orders)
    requires s.orders == map[] && s.books == map[] && 0 !in rows
    ensures RestoredUpTo(s, rows, 0)
  {
    hide RestingOrders;
    forall symbol ensures RestingOrders(rows, symbol, 1) == [] { FirstIdIsUnused(rows, symbol); }
  }

  lemma AllRestored(s: Oms, r: Oms)
    requires IdsAreDense(s.orders, s.nextOrderId) && RestoredUpTo(r, Rows(s.orders), s.nextOrderId - 1)
    ensures r.orders == Rows(s.orders)
    ensures forall symbol :: BookOf(r.books, symbol) == RestingOrders(Rows(s.orders), symbol, s.nextOrderId)
    ensures forall symbol | symbol in r.books :: r.books[symbol] != []
  {
    hide RestingOrders;
  }

  lemma TableIds(s: Oms)
    requires Mirrored(s)
    ensures forall k | 0 <= k < |s.events| :: s.events[k].eventId == k + 1
    ensures forall k | 0 <= k < |s.executions| :: s.executions[k].executionId == k + 1
  {}

  lemma FirstIdIsUnused(rows: Orders, symbol: Symbol)
    requires 0 !in rows
    ensures RestingOrders(rows, symbol, 1) == []
  {
    RestingOrdersLast(rows, symbol, 1);
  }

  lemma CleanRows(s: Oms)
    requires Inv(s) && Clean(s)
    ensures Rows(s.orders) == s.orders
    ensures forall k | 0 <= k < |s.events| :: EventRow(s.events[k]) == s.events[k]
    ensures forall k | 0 <= k < |s.executions| :: ExecutionRow(s.executions[k]) == s.executions[k]
  {
    hide LogAgrees, Mirrored, BooksAgree, OrdersOk, CString, Balances, IdsAreDense, FillEvents, FillsAreLogged;
    forall id | id in s.orders ensures OrderRow(s.orders[id]) == s.orders[id] { assert CleanOrder(s.orders[id]); }
    forall k | 0 <= k < |s.events| ensures EventRow(s.events[k]) == s.events[k] {
      OwnDetailsAreNulFree(s.events[k], s.orders[s.events[k].orderId]);
      assert CleanOrder(s.orders[s.events[k].orderId]);
    }
    forall k | 0 <= k < |s.executions| ensures ExecutionRow(s.executions[k]) == s.executions[k] {
      assert TradeOk(s.orders, s.executions[k]);
      assert CleanOrder(s.orders[s.executions[k].passiveId]);
    }
  }

  /**
  Recovery is faithful exactly when no stored order text holds a NUL: the restarted process then has the same orders,
  events, executions, counters and queues, and otherwise it has not.
  */
  lemma RecoveryIsExactIffNulFree(s: Oms)
    requires Inv(s)
    ensures SameState(Restarted(s), s) <==> Clean(s)
  {
    hide Restarted, Inv, CString;
    RestoreNeverFails(s);
    var r := Restarted(s);
    if Clean(s) {
      CleanRows(s);
      assert r.events == s.events && r.executions == s.executions;
      forall symbol ensures BookOf(r.books, symbol) == BookOf(s.books, symbol) { InvBook(s, symbol); }
    }
    if SameState(r, s) {
      forall id | id in s.orders ensures CleanOrder(s.orders[id]) {
        assert r.orders[id] == OrderRow(s.orders[id]);
      }
    }
  }

  lemma InvBook(s: Oms, symbol: Symbol)
    requires Inv(s)
    ensures BookOf(s.books, symbol) == RestingOrders(s.orders, symbol, s.nextOrderId)
  {}

  /** States that differ only in empty books keep the same invariant. */
  lemma SameStateKeepsInv(a: Oms, b: Oms)
    requires SameState(a, b) && Inv(b)
    ensures Inv(a)
  {
    hide RestingOrders, LedgerOk, Logged, OrdersOk, IdsAreDense, OrdersTable, EventsTable, ExecutionsTable;
    forall symbol ensures BookOf(a.books, symbol) == RestingOrders(a.orders, symbol, a.nextOrderId) {
      assert BookOf(a.books, symbol) == BookOf(b.books, symbol);
    }
  }

  // ---------- A restart keeps the invariant, whatever the texts ----------

  ghost predicate EventsAreRows(events: seq<OrderEvent>, rows: seq<OrderEvent>) {
    |rows| == |events| && forall k | 0 <= k < |events| :: rows[k] == EventRow(events[k])
  }

  ghost predicate ExecutionsAreRows(executions: seq<Types.Fill>, rows: seq<Types.Fill>) {
    |rows| == |executions| && forall k | 0 <= k < |executions| :: rows[k] == ExecutionRow(executions[k])
  }

  lemma {:induction false} ReplayOfRows(events: seq<OrderEvent>, rows: seq<OrderEvent>, id: OrderId, t: OrderType)
    requires EventsAreRows(events, rows)
    ensures Replay(rows, id, t) == Replay(events, id, t)
  {
    if events != [] { ReplayOfRows(events[..|events| - 1], rows[..|rows| - 1], id, t); }
  }

  lemma {:induction false} FillEventsOfRows(events: seq<OrderEvent>, rows: seq<OrderEvent>)
    requires EventsAreRows(events, rows)
    ensures EventsAreRows(FillEvents(events), FillEvents(rows))
  {
    if events != [] { FillEventsOfRows(events[..|events| - 1], rows[..|rows| - 1]); }
  }

  lemma {:induction false} ExecutedOfRows(executions: seq<Types.Fill>, rows: seq<Types.Fill>, id: OrderId)
    requires ExecutionsAreRows(executions, rows)
    ensures Executed(rows, id) == Executed(executions, id)
  {
    if executions != [] { ExecutedOfRows(executions[..|executions| - 1], rows[..|rows| - 1], id); }
  }

  lemma RowsKeepLedger(orders: Orders, executions: seq<Types.Fill>, rows: seq<Types.Fill>)
    requires LedgerOk(orders, executions) && ExecutionsAreRows(executions, rows)
    ensures LedgerOk(Rows(orders), rows)
  {
    hide Executed, CString;
    forall k | 0 <= k < |rows| ensures rows[k].executionId == k + 1 && TradeOk(Rows(orders), rows[k]) {
      assert TradeOk(orders, executions[k]);
    }
    forall id | id in orders ensures Rows(orders)[id].filledQty == Executed(rows, id) {
      ExecutedOfRows(executions, rows, id);
    }
  }

  /** The texts of the system itself hold no NUL. */
  lemma OwnDetailsAreNulFree(e: OrderEvent, o: Order)
    requires DetailOk(e, o)
    ensures !e.eventType.NewRequested? ==> NulFree(e.detail)
  {
    hide ErrorName;
    if e.eventType.Rejected? {
      NoLiquidityDetailIsNulFree();
      if error :| e.detail == ErrorName(error) { ErrorNamesAreNulFree(error); }
    }
  }

  lemma RowsKeepDetails(orders: Orders, events: seq<OrderEvent>, rows: seq<OrderEvent>)
    requires DetailsAreOurs(orders, events) && EventsAreRows(events, rows)
    ensures DetailsAreOurs(Rows(orders), rows)
  {
    hide ErrorName, CString;
    forall k | 0 <= k < |rows| ensures rows[k].orderId in orders && DetailOk(rows[k], Rows(orders)[rows[k].orderId]) {
      OwnDetailsAreNulFree(events[k], orders[events[k].orderId]);
    }
  }

  lemma ReportIsNulFree(e: OrderEvent, id: OrderId, f: Types.Fill)
    requires ReportsFill(e, id, f)
    ensures EventRow(e) == e
  {
    hide CString, Decimal;
    FillDetailIsNulFree(f);
  }

  lemma RowsKeepFills(fillEvents: seq<OrderEvent>, rows: seq<OrderEvent>, executions: seq<Types.Fill>, executions': seq<Types.Fill>)
    requires FillsAreLogged(fillEvents, executions) && EventsAreRows(fillEvents, rows) && ExecutionsAreRows(executions, executions')
    ensures FillsAreLogged(rows, executions')
  {
    hide CString, Decimal;
    forall k | 0 <= k < |executions|
      ensures ReportsFill(rows[2 * k], executions'[k].passiveId, executions'[k])
      ensures ReportsFill(rows[2 * k + 1], executions'[k].aggressiveId, executions'[k])
    {
      ReportIsNulFree(fillEvents[2 * k], executions[k].passiveId, executions[k]);
      ReportIsNulFree(fillEvents[2 * k + 1], executions[k].aggressiveId, executions[k]);
    }
  }

  lemma RowsKeepLog(orders: Orders, events: seq<OrderEvent>, rows: seq<OrderEvent>, executions: seq<Types.Fill>, executions': seq<Types.Fill>)
    requires Logged(orders, events, executions) && EventsAreRows(events, rows) && ExecutionsAreRows(executions, executions')
    ensures Logged(Rows(orders), rows, executions')
  {
    hide Replay, FillEvents, FillsAreLogged, DetailsAreOurs, NextPhase, CString;
    RowsKeepDetails(orders, events, rows);
    FillEventsOfRows(events, rows);
    RowsKeepFills(FillEvents(events), FillEvents(rows), executions, executions');
    forall id | id in orders ensures Shows(Replay(rows, id, Rows(orders)[id].orderType), Rows(orders)[id]) {
      ReplayOfRows(events, rows, id, orders[id].orderType);
    }
  }

  /** The tables mirror what was read back from them. */
  lemma RowsAreMirrored(s: Oms, r: Oms)
    requires Mirrored(s) && RestoredFrom(s, r)
    ensures Mirrored(r)
  {
    hide CString;
    forall id | id in s.orders ensures OrderRow(r.orders[id]) == r.orders[id] {
      CStringTwice(s.orders[id].clientOrderId);
      CStringTwice(s.orders[id].symbol);
    }
    forall k | 0 <= k < |s.events| ensures EventRow(r.events[k]) == r.events[k] { CStringTwice(s.events[k].detail); }
    forall k | 0 <= k < |s.executions| ensures ExecutionRow(r.executions[k]) == r.executions[k] { CStringTwice(s.executions[k].symbol); }
  }

  /** Whatever the texts, a restarted process satisfies the invariant: orders, ledger, log, tables and books agree again. */
  lemma RestartKeepsInv(s: Oms)
    requires Inv(s)
    ensures Inv(Restarted(s))
  {
    hide Restarted, RestingOrders, LedgerOk, Logged, Mirrored, OrderOk;
    RestoreNeverFails(s);
    var r := Restarted(s);
    RowsAreOk(s.orders, s.nextOrderId);
    RowsKeepLedger(s.orders, s.executions, r.executions);
    RowsKeepLog(s.orders, s.events, r.events, s.executions, r.executions);
    RowsAreMirrored(s, r);
  }

  /** Open orders of symbols that the tables cannot tell apart do not cross. */
  ghost predicate RowsDoNotCross(s: Oms) {
    forall i, j | i in s.orders && j in s.orders && RestsOnBook(s.orders[i]) && RestsOnBook(s.orders[j])
      && CString(s.orders[i].symbol) == CString(s.orders[j].symbol) && s.orders[i].side.Buy? && s.orders[j].side.Sell? ::
      s.orders[i].price < s.orders[j].price
  }

  /** Exactly when a restart leaves a crossed book behind. */
  lemma RestartIsUncrossedIff(s: Oms)
    requires Inv(s)
    ensures NeverCrossed(Restarted(s)) <==> RowsDoNotCross(s)
  {
    hide Inv, Restarted, RestingOrders, CString;
    RestoreNeverFails(s);
    InvMeansKeyed(s);
    var r, rows := Restarted(s), Rows(s.orders);
    if NeverCrossed(r) {
      forall i, j | i in s.orders && j in s.orders && RestsOnBook(s.orders[i]) && RestsOnBook(s.orders[j])
        && CString(s.orders[i].symbol) == CString(s.orders[j].symbol) && s.orders[i].side.Buy? && s.orders[j].side.Sell?
        ensures s.orders[i].price < s.orders[j].price
      {
        var symbol := rows[i].symbol;
        RestingOrdersAreOpen(rows, symbol, s.nextOrderId);
        assert RestsFor(rows, symbol, i) && RestsFor(rows, symbol, j);
        assert EntryOf(rows[i]) in BookOf(r.books, symbol) && EntryOf(rows[j]) in BookOf(r.books, symbol);
      }
    }
    if RowsDoNotCross(s) {
      forall symbol ensures Uncrossed(BookOf(r.books, symbol)) { RowsAreUncrossed(s, symbol); }
    }
  }

  lemma RowsAreUncrossed(s: Oms, symbol: Symbol)
    requires KeyedById(Rows(s.orders)) && RowsDoNotCross(s)
    ensures Uncrossed(RestingOrders(Rows(s.orders), symbol, s.nextOrderId))
  {
    hide RestingOrders, CString;
    var rows := Rows(s.orders);
    var r := RestingOrders(rows, symbol, s.nextOrderId);
    forall i, j | 0 <= i < |r| && 0 <= j < |r| && r[i].side.Buy? && r[j].side.Sell? ensures r[i].price < r[j].price {
      EntryIsOpen(rows, symbol, s.nextOrderId, i);
      EntryIsOpen(rows, symbol, s.nextOrderId, j);
      var a, b := r[i].orderId, r[j].orderId;
      assert RestsFor(rows, symbol, a) && RestsFor(rows, symbol, b);
      assert rows[a] == OrderRow(s.orders[a]) && rows[b] == OrderRow(s.orders[b]);
    }
  }

  lemma InvMeansKeyed(s: Oms)
    requires Inv(s)
    ensures KeyedById(s.orders) && KeyedById(Rows(s.orders)) && forall id | id in s.orders :: id < s.nextOrderId
  {}

  /** Orders with clean texts do not cross after a restart if they did not before. */
  lemma CleanRowsDoNotCross(s: Oms)
    requires Inv(s) && Clean(s) && NeverCrossed(s)
    ensures RowsDoNotCross(s)
  {
    hide Inv, Restarted, CString, Clean;
    RecoveryIsExactIffNulFree(s);
    RestartIsUncrossedIff(s);
    forall symbol ensures Uncrossed(BookOf(Restarted(s).books, symbol)) {
      assert BookOf(Restarted(s).books, symbol) == BookOf(s.books, symbol);
    }
  }

  // ---------- Behaviour after a restart ----------

  /** The same answer, except that an order on no book may be reported as missing or as having no book. */
  predicate SameAnswer(a: Result<Order>, b: Result<Order>) {
    a == b || (a.Err? && b.Err? && IsMissing(a.error) && IsMissing(b.error))
  }

  predicate IsMissing(e: OemsError) {
    e.OrderNotFound? || e.BookNotFound?
  }

  lemma AppendRespectsSame(a: Oms, b: Oms, id: OrderId, t: EventType, detail: string)
    requires SameState(a, b)
    ensures SameState(AppendEvent(a, id, t, detail), AppendEvent(b, id, t, detail))
  {
    hide BookOf;
  }

  /** Everything a fill changes is a function of what the two states share. */
  lemma FillRespectsSame(a: Oms, b: Oms, order: Order, f: Types.Fill)
    requires SameState(a, b)
    ensures SameState(ApplyFill(a, order, f).0, ApplyFill(b, order, f).0)
    ensures ApplyFill(a, order, f).1 == ApplyFill(b, order, f).1
  {
    hide BookOf, InsertEvent, FillDetail;
  }

  lemma {:induction false} FillsRespectSame(a: Oms, b: Oms, order: Order, fills: seq<Types.Fill>)
    requires SameState(a, b)
    ensures SameState(ApplyFills(a, order, fills).0, ApplyFills(b, order, fills).0)
    ensures ApplyFills(a, order, fills).1 == ApplyFills(b, order, fills).1
    decreases |fills|
  {
    hide ApplyFill, SameState;
    if fills != [] {
      FillRespectsSame(a, b, order, fills[0]);
      FillsRespectSame(ApplyFill(a, order, fills[0]).0, ApplyFill(b, order, fills[0]).0, ApplyFill(a, order, fills[0]).1, fills[1..]);
    }
  }

  lemma EngineRespectsSame(a: Oms, b: Oms, o: Order)
    requires SameState(a, b) && BooksWellFormed(a.books) && BooksWellFormed(b.books)
    ensures SameState(EngineAdd(a, o).0, EngineAdd(b, o).0) && EngineAdd(a, o).1 == EngineAdd(b, o).1
  {
    hide PriceTime.AddOrder, WellFormed;
    assert BookOf(a.books, o.symbol) == BookOf(b.books, o.symbol);
    var a', b' := EngineAdd(a, o).0, EngineAdd(b, o).0;
    forall symbol ensures BookOf(a'.books, symbol) == BookOf(b'.books, symbol) {
      assert BookOf(a.books, symbol) == BookOf(b.books, symbol);
    }
  }

  /** Submitting to two such states gives the same answer and such states again. */
  lemma SubmitRespectsSame(a: Oms, b: Oms, req: NewOrderRequest, verdict: Option<OemsError>)
    requires SameState(a, b) && BooksWellFormed(a.books) && BooksWellFormed(b.books)
    requires Validate(req).None? && verdict.None? ==> EngineAdd(a, OrderFor(req, a.nextOrderId, PendingNew)).1.Ok?
    ensures SameState(Submit(a, req, verdict).0, Submit(b, req, verdict).0)
    ensures Submit(a, req, verdict).1 == Submit(b, req, verdict).1
  {
    if Validate(req).Some? {
    } else if verdict.Some? {
      RiskRejectionRespectsSame(a, b, req, verdict.value);
    } else {
      hide Match, PriceTime.AddOrder, ApplyFills, AppendEvent, FinalStatus, Stored, SameState, Submit;
      var pending := OrderFor(req, a.nextOrderId, PendingNew);
      assert b.nextOrderId == a.nextOrderId by { SameCounters(a, b); }
      EngineRespectsSame(a, b, pending);
      SubmitIsStored(a, req);
      SubmitIsStored(b, req);
      var (a1, ra) := EngineAdd(a, pending);
      var (b1, rb) := EngineAdd(b, pending);
      ReadyRespectsSame(a, b, a1, b1, pending);
      var ready_a := ReadyToSettle(a, pending, a1.books, a1.nextExecutionId);
      var ready_b := ReadyToSettle(b, pending, b1.books, b1.nextExecutionId);
      FillsRespectSame(ready_a, ready_b, pending.(status := OrderStatus.Accepted), ra.value.fills);
      var (sa, filled) := ApplyFills(ready_a, pending.(status := OrderStatus.Accepted), ra.value.fills);
      StoredRespectsSame(sa, ApplyFills(ready_b, pending.(status := OrderStatus.Accepted), ra.value.fills).0, filled);
    }
  }

  lemma SameCounters(a: Oms, b: Oms)
    requires SameState(a, b)
    ensures a.nextOrderId == b.nextOrderId && a.orders == b.orders && a.executions == b.executions
  {}

  lemma RiskRejectionRespectsSame(a: Oms, b: Oms, req: NewOrderRequest, error: OemsError)
    requires SameState(a, b)
    ensures SameState(SubmitRiskRejected(a, req, error), SubmitRiskRejected(b, req, error))
  {
    hide BookOf, InsertEvent, ErrorName;
  }

  lemma ReadyRespectsSame(a: Oms, b: Oms, a1: Oms, b1: Oms, pending: Order)
    requires SameState(a, b) && SameState(a1, b1)
    ensures SameState(ReadyToSettle(a, pending, a1.books, a1.nextExecutionId), ReadyToSettle(b, pending, b1.books, b1.nextExecutionId))
  {
    hide BookOf, InsertEvent;
  }

  lemma StoredRespectsSame(a: Oms, b: Oms, filled: Order)
    requires SameState(a, b)
    ensures SameState(Stored(a, filled), Stored(b, filled))
  {
    hide BookOf, InsertEvent, NoLiquidityDetail;
  }

  /** Cancelling too, except for the name of the error when the order rests nowhere. */
  lemma CancelRespectsSame(a: Oms, b: Oms, id: OrderId)
    requires SameState(a, b) && Inv(b)
    ensures SameState(Cancel(a, id).0, Cancel(b, id).0)
    ensures SameAnswer(Cancel(a, id).1, Cancel(b, id).1)
  {
    hide Inv, AfterCancel, AppendEvent, SameState;
    SameStateKeepsInv(a, b);
    SameCounters(a, b);
    if id in b.orders {
      CancelCases(a, id);
      CancelCases(b, id);
      if RestsOnBook(b.orders[id]) {
        AfterCancelRespectsSame(a, b, id);
      } else if b.orders[id].orderType.Market? && b.orders[id].status.PartiallyFilled? {
        AppendRespectsSame(a, b, id, CancelRequested, "");
      }
    }
  }

  lemma AfterCancelRespectsSame(a: Oms, b: Oms, id: OrderId)
    requires SameState(a, b) && id in a.orders && a.orders[id].symbol in a.books && a.orders[id].symbol in b.books
    ensures SameState(AfterCancel(a, id), AfterCancel(b, id))
  {
    hide InsertEvent, Without;
    var a', b' := AfterCancel(a, id), AfterCancel(b, id);
    forall symbol ensures BookOf(a'.books, symbol) == BookOf(b'.books, symbol) {
      assert BookOf(a.books, symbol) == BookOf(b.books, symbol);
    }
  }

  /** An open order that the tables hold under this symbol. */
  ghost predicate HeldOpen(s: Oms, symbol: Symbol) {
    exists j :: j in s.orders && RestsOnBook(s.orders[j]) && CString(s.orders[j].symbol) == CString(symbol)
  }

  /** The restored books are those of the open orders, by their symbols in the tables. */
  lemma RestoredBooks(s: Oms, symbol: Symbol)
    requires Inv(s)
    ensures CString(symbol) in Restarted(s).books <==> HeldOpen(s, symbol)
  {
    hide Inv, Restarted, RestingOrders, CString;
    RestoreNeverFails(s);
    InvMeansKeyed(s);
    var rows, name, n := Rows(s.orders), CString(symbol), s.nextOrderId;
    var book := BookOf(Restarted(s).books, name);
    assert book == RestingOrders(rows, name, n);
    if name in Restarted(s).books {
      EntryIsOpen(rows, name, n, 0);
      assert RestsFor(rows, name, book[0].orderId);
    }
    if j :| j in s.orders && RestsOnBook(s.orders[j]) && CString(s.orders[j].symbol) == name {
      OnBookIffResting(rows, name, n, j);
      assert RestsFor(rows, name, j);
    }
  }

  /**
  The visible differences a restart makes to a cancel, and exactly when. A cancelled order is returned with its texts cut
  at a NUL; and the error for a partly filled market order names a missing book instead of a missing order, or the other
  way round, when its book exists on one side of the restart only, because only books with open orders are restored.
  */
  lemma CancelAnswerDiffersIff(s: Oms, id: OrderId)
    requires Inv(s)
    ensures Cancel(Restarted(s), id).1 != Cancel(s, id).1
        <==> id in s.orders
             && var o := s.orders[id];
                || (RestsOnBook(o) && !CleanOrder(o))
                || (o.orderType.Market? && o.status.PartiallyFilled? && (o.symbol in s.books) != HeldOpen(s, o.symbol))
  {
    hide Inv, AfterCancel, AppendEvent, Restarted, RestingOrders, CString, HeldOpen;
    var r := Restarted(s);
    RestoreNeverFails(s);
    RestartKeepsInv(s);
    if id in s.orders {
      CancelCases(s, id);
      CancelCases(r, id);
      RestoredBooks(s, s.orders[id].symbol);
      assert r.orders[id] == OrderRow(s.orders[id]);
    } else {
      assert id !in r.orders;
    }
  }
}
