/** What holds in every reachable state between two operations, and the proof that submitting and cancelling keep it. */
module Invariant {
  import opened Types
  import opened PriceTime
  import opened Lifecycle
  import opened Agreement
  import opened Ledger
  import opened EventLog
  import opened Durable
  import opened Settlement
  import Allocation
  import Text

  /** Each book is what the order table says rests on it, in the same order. */
  ghost predicate BooksAgree(s: Oms) {
    forall symbol :: BookOf(s.books, symbol) == RestingOrders(s.orders, symbol, s.nextOrderId)
  }

  ghost predicate NeverCrossed(s: Oms) {
    forall symbol :: Uncrossed(BookOf(s.books, symbol))
  }

  /** The facts about orders, ledger, log and tables. */
  ghost predicate Core(s: Oms) {
    && IdsAreDense(s.orders, s.nextOrderId)
    && OrdersOk(s.orders, s.nextOrderId)
    && LedgerOk(s.orders, s.executions)
    && Logged(s.orders, s.events, s.executions)
    && Mirrored(s)
  }

  ghost predicate Inv(s: Oms) {
    Core(s) && BooksAgree(s) && s.nextExecutionId == |s.executions| + 1
  }

  lemma InvMeansWellFormedBooks(s: Oms)
    requires Inv(s)
    ensures BooksWellFormed(s.books)
  {
    forall symbol | symbol in s.books ensures WellFormed(s.books[symbol]) {
      assert BookOf(s.books, symbol) == s.books[symbol];
      RestingOrdersWellFormed(s.orders, symbol, s.nextOrderId);
    }
  }

  lemma InitialInv()
    ensures Inv(Initial()) && NeverCrossed(Initial())
  {
    var s := Initial();
    forall symbol ensures RestingOrders(s.orders, symbol, 1) == [] { RestingOrdersLast(s.orders, symbol, 1); }
  }

  // ---------- Submit: rejected by risk ----------

  /** A new order recorded with its request and one more event. */
  lemma NewOrderLog(orders: Orders, events: seq<OrderEvent>, executions: seq<Types.Fill>, order: Order, e1: OrderEvent, e2: OrderEvent)
    requires Logged(orders, events, executions) && order.internalId !in orders
    requires e1.orderId == e2.orderId == order.internalId
    requires e1.eventType.NewRequested? && e1.detail == order.clientOrderId
    requires e2.eventType.Accepted? || e2.eventType.Rejected?
    requires NextPhase(order.orderType, At(PendingNew), e2.eventType) == At(order.status) && DetailOk(e2, order)
    ensures Logged(WithIncoming(orders, order), events + [e1] + [e2], executions)
    ensures LogArrivedAt(events + [e1] + [e2], order)
  {
    hide Replay, FillEvents;
    var pending := order.(status := PendingNew);
    var middle := orders[order.internalId := pending];
    assert WithIncoming(orders, order) == middle[order.internalId := order];
    FirstEventKeepsLog(orders, events, e1, pending);
    DetailsKept(orders, events, e1, pending);
    ReplayAppend(events + [e1], e2, order.internalId, order.orderType);
    EventKeepsLog(middle, events + [e1], e2, order);
    DetailsKept(middle, events + [e1], e2, order);
    OtherEventsAreNoFills(events, e1);
    OtherEventsAreNoFills(events + [e1], e2);
  }

  /** Two events in a row keep the event table in step. */
  lemma TwoEventsAreMirrored(s: Oms, id: OrderId, t1: EventType, d1: string, t2: EventType, d2: string)
    requires EventsTable(s.tables.events, s.events) && s.nextEventId == |s.events| + 1
    ensures var s' := AppendEvent(AppendEvent(s, id, t1, d1), id, t2, d2);
            && EventsTable(s'.tables.events, s'.events) && s'.nextEventId == |s'.events| + 1
            && s'.events == s.events + [OrderEvent(s.nextEventId, id, t1, d1)] + [OrderEvent(s.nextEventId + 1, id, t2, d2)]
            && s'.tables.orders == s.tables.orders && s'.tables.executions == s.tables.executions
            && s' == s.(events := s'.events, nextEventId := s'.nextEventId, tables := s'.tables)
  {
    hide EventsTable;
    AppendEventIsMirrored(s, id, t1, d1);
    AppendEventIsMirrored(AppendEvent(s, id, t1, d1), id, t2, d2);
  }

  /** What a risk rejection changes: one stored order, and two events for it. */
  lemma RiskRejectionEffect(s: Oms, req: NewOrderRequest, error: OemsError)
    requires Mirrored(s)
    ensures var s' := SubmitRiskRejected(s, req, error);
            var rejected := OrderFor(req, s.nextOrderId, OrderStatus.Rejected);
            && Mirrored(s') && s'.nextOrderId == s.nextOrderId + 1
            && s'.orders == s.orders[s.nextOrderId := rejected] && s'.executions == s.executions
            && s'.books == s.books && s'.nextExecutionId == s.nextExecutionId
            && s'.events == s.events + [OrderEvent(s.nextEventId, s.nextOrderId, NewRequested, req.clientOrderId)]
                                     + [OrderEvent(s.nextEventId + 1, s.nextOrderId, EventType.Rejected, Text.ErrorName(error))]
  {
    hide EventsTable, OrdersTable, ExecutionsTable, Text.ErrorName, AppendEvent;
    var id := s.nextOrderId;
    var rejected := OrderFor(req, id, OrderStatus.Rejected);
    var s1 := s.(nextOrderId := id + 1, orders := s.orders[id := rejected]);
    TwoEventsAreMirrored(s1, id, NewRequested, req.clientOrderId, EventType.Rejected, Text.ErrorName(error));
    SaveOrderIsMirrored(s.tables.orders, s.orders, rejected);
  }

  lemma RiskRejectionKeepsCore(s: Oms, req: NewOrderRequest, error: OemsError)
    requires Core(s) && Validate(req).None?
    ensures Core(SubmitRiskRejected(s, req, error))
    ensures SubmitRiskRejected(s, req, error).orders == s.orders[s.nextOrderId := OrderFor(req, s.nextOrderId, OrderStatus.Rejected)]
  {
    hide LedgerOk, Logged, Mirrored, SubmitRiskRejected, Text.ErrorName;
    var id := s.nextOrderId;
    var rejected := OrderFor(req, id, OrderStatus.Rejected);
    RiskRejectionEffect(s, req, error);
    NewOrderKeepsLedger(s.orders, s.executions, rejected);
    NewOrderLog(s.orders, s.events, s.executions, rejected,
                OrderEvent(s.nextEventId, id, NewRequested, req.clientOrderId),
                OrderEvent(s.nextEventId + 1, id, EventType.Rejected, Text.ErrorName(error)));
  }

  /** A new order that does not rest leaves every book as it was. */
  lemma NotRestingKeepsBooks(s: Oms, s': Oms, order: Order)
    requires BooksAgree(s) && order.internalId == s.nextOrderId && s.nextOrderId !in s.orders && !RestsOnBook(order)
    requires s'.orders == s.orders[s.nextOrderId := order] && s'.nextOrderId == s.nextOrderId + 1 && s'.books == s.books
    ensures BooksAgree(s')
  {
    hide RestingOrders;
    forall symbol ensures BookOf(s'.books, symbol) == RestingOrders(s'.orders, symbol, s'.nextOrderId) {
      RestingOrdersAfterNewest(s.orders, s.nextOrderId, order, symbol);
      assert BookOf(s.books, symbol) == RestingOrders(s.orders, symbol, s.nextOrderId);
    }
  }

  lemma RiskRejectionKeepsInv(s: Oms, req: NewOrderRequest, error: OemsError)
    requires Inv(s) && Validate(req).None?
    ensures Inv(SubmitRiskRejected(s, req, error))
  {
    hide Core, BooksAgree;
    RiskRejectionKeepsCore(s, req, error);
    assert s.nextOrderId !in s.orders by { NextIdIsNew(s); }
    NotRestingKeepsBooks(s, SubmitRiskRejected(s, req, error), OrderFor(req, s.nextOrderId, OrderStatus.Rejected));
  }

  lemma NextIdIsNew(s: Oms)
    requires Core(s)
    ensures s.nextOrderId !in s.orders && s.nextOrderId >= 1
  {}

  // ---------- Submit: accepted ----------

  /** The state in which the fills of an accepted order are applied: requested and accepted are logged, the engine has matched. */
  ghost function ReadyToSettle(s: Oms, pending: Order, books: map<Symbol, seq<BookEntry>>, exec: ExecutionId): Oms {
    var s1 := AppendEvent(s.(nextOrderId := s.nextOrderId + 1), pending.internalId, NewRequested, pending.clientOrderId);
    AppendEvent(s1.(books := books, nextExecutionId := exec), pending.internalId, EventType.Accepted, "")
  }

  lemma AcceptedOrderSettles(s: Oms, pending: Order, books: map<Symbol, seq<BookEntry>>, exec: ExecutionId)
    requires Core(s) && pending.internalId == s.nextOrderId && AmountsOk(pending) && pending.filledQty == 0
    ensures var ready := ReadyToSettle(s, pending, books, exec);
            && Settling(ready, pending.(status := OrderStatus.Accepted))
            && ready.orders == s.orders && ready.executions == s.executions && ready.books == books
            && ready.nextOrderId == s.nextOrderId + 1 && ready.nextExecutionId == exec
  {
    hide LedgerOk, Logged, EventsTable, OrdersTable, ExecutionsTable;
    var accepted := pending.(status := OrderStatus.Accepted);
    assert AsLogged(accepted) == accepted;
    var s0 := s.(nextOrderId := s.nextOrderId + 1, books := books, nextExecutionId := exec);
    TwoEventsAreMirrored(s0, pending.internalId, NewRequested, pending.clientOrderId, EventType.Accepted, "");
    assert ReadyToSettle(s, pending, books, exec)
        == AppendEvent(AppendEvent(s0, pending.internalId, NewRequested, pending.clientOrderId), pending.internalId, EventType.Accepted, "");
    NextIdIsNew(s);
    NewOrderKeepsLedger(s.orders, s.executions, accepted);
    NewOrderLog(s.orders, s.events, s.executions, accepted,
                OrderEvent(s.nextEventId, pending.internalId, NewRequested, pending.clientOrderId),
                OrderEvent(s.nextEventId + 1, pending.internalId, EventType.Accepted, ""));
  }

  /** What a submission does after its fills: final status, possibly one more event, and the order is stored. */
  ghost function Stored(s: Oms, filled: Order): Oms {
    var order := filled.(status := FinalStatus(filled));
    var s1 := if order.status.Rejected?
              then AppendEvent(s, order.internalId, EventType.Rejected, NoLiquidityDetail()) else s;
    var s2 := s1.(orders := s1.orders[order.internalId := order]);
    s2.(tables := SaveOrder(s2.tables, order))
  }

  /** When the last event is a rejection for lack of liquidity, it is the only thing that happened to the order. */
  lemma RejectionKeepsLog(orders: Orders, filled: Order, events: seq<OrderEvent>, executions: seq<Types.Fill>, e: OrderEvent)
    requires Logged(WithIncoming(orders, AsLogged(filled)), events, executions) && LogArrivedAt(events, AsLogged(filled))
    requires filled.orderType.Market? && filled.filledQty == 0 && filled.remainingQty > 0
    requires e.orderId == filled.internalId && e.eventType.Rejected? && e.detail == NoLiquidityDetail()
    ensures Logged(WithIncoming(orders, filled.(status := OrderStatus.Rejected)), events + [e], executions)
  {
    hide Replay, FillEvents;
    var before := WithIncoming(orders, AsLogged(filled));
    var rejected := filled.(status := OrderStatus.Rejected);
    assert WithIncoming(orders, rejected) == before[e.orderId := rejected];
    EventKeepsLog(before, events, e, rejected);
    DetailsKept(before, events, e, rejected);
    OtherEventsAreNoFills(events, e);
  }

  lemma StoringIsMirrored(s: Oms, filled: Order)
    requires Mirrored(s)
    ensures var s' := Stored(s, filled);
            var order := filled.(status := FinalStatus(filled));
            && Mirrored(s') && s'.orders == s.orders[order.internalId := order]
            && s'.books == s.books && s'.executions == s.executions
            && s'.nextOrderId == s.nextOrderId && s'.nextExecutionId == s.nextExecutionId
            && s'.events == if order.status.Rejected?
                            then s.events + [OrderEvent(s.nextEventId, order.internalId, EventType.Rejected, NoLiquidityDetail())]
                            else s.events
  {
    hide EventsTable, OrdersTable, ExecutionsTable, FinalStatus;
    var order := filled.(status := FinalStatus(filled));
    SaveOrderIsMirrored(s.tables.orders, s.orders, order);
    AppendEventIsMirrored(s, order.internalId, EventType.Rejected, NoLiquidityDetail());
  }

  lemma StoringKeepsLog(s: Oms, filled: Order)
    requires Logged(WithIncoming(s.orders, AsLogged(filled)), s.events, s.executions) && LogArrivedAt(s.events, AsLogged(filled))
    requires filled.status.Accepted? && AmountsOk(filled) && Mirrored(s)
    ensures Logged(WithIncoming(s.orders, filled.(status := FinalStatus(filled))), Stored(s, filled).events, s.executions)
  {
    hide Logged, Mirrored, Stored, NoLiquidityDetail, AppendEvent;
    var order := filled.(status := FinalStatus(filled));
    StoringIsMirrored(s, filled);
    if order.status.Rejected? {
      var detail := NoLiquidityDetail();
      RejectionKeepsLog(s.orders, filled, s.events, s.executions, OrderEvent(s.nextEventId, order.internalId, EventType.Rejected, detail));
    } else {
      assert AsLogged(filled) == order;
    }
  }

  lemma StoringKeepsCore(s: Oms, filled: Order)
    requires Settling(s, filled) && filled.status.Accepted? && s.nextOrderId == filled.internalId + 1
    requires IdsAreDense(s.orders, filled.internalId)
    ensures Core(Stored(s, filled))
    ensures var order := filled.(status := FinalStatus(filled));
            && Stored(s, filled).orders == s.orders[order.internalId := order] && OrderOk(order)
            && Stored(s, filled).books == s.books && Stored(s, filled).executions == s.executions
            && Stored(s, filled).nextOrderId == s.nextOrderId && Stored(s, filled).nextExecutionId == s.nextExecutionId
  {
    hide LedgerOk, Logged, Mirrored, Stored;
    var order := filled.(status := FinalStatus(filled));
    StoringIsMirrored(s, filled);
    StoringKeepsLog(s, filled);
    var v := WithIncoming(s.orders, AsLogged(filled));
    StatusKeepsLedger(v, s.executions, filled.internalId, order.status);
    assert v[filled.internalId := v[filled.internalId].(status := order.status)] == WithIncoming(s.orders, order);
  }

  /** A validated request is never rejected by the engine: its id is new to the book. */
  lemma EngineAcceptsNewOrders(s: Oms, pending: Order)
    requires Core(s) && BooksAgree(s) && BooksWellFormed(s.books)
    requires pending.internalId == s.nextOrderId && AmountsOk(pending)
    ensures var rest := BookOf(s.books, pending.symbol);
            && WellFormed(rest) && rest == RestingOrders(s.orders, pending.symbol, s.nextOrderId)
            && !HasId(rest, pending.internalId)
            && EngineAdd(s, pending).1.Ok?
            && EngineAdd(s, pending).1.value.fills == Match(rest, IncomingOf(pending), pending.orderQty, s.nextExecutionId).fills
  {
    hide RestingOrders, Match;
    BookOfIsWellFormed(s.books, pending.symbol);
    RestingOrdersAreOpen(s.orders, pending.symbol, s.nextOrderId);
  }

  lemma MatchedFillsAreNumbered(rest: seq<BookEntry>, o: Incoming, qty: nat, exec: ExecutionId)
    requires WellFormed(rest)
    ensures NumberedFrom(Match(rest, o, qty, exec).fills, exec)
  {
    hide Match;
    forall k | 0 <= k < |Match(rest, o, qty, exec).fills|
      ensures Match(rest, o, qty, exec).fills[k].executionId == exec + k
    {
      Allocation.FillsAreNumberedAndAcceptable(rest, o, qty, exec, k);
    }
  }

  /** The books after an accepted submission are what the new order table says. */
  lemma AcceptedKeepsBooks(s: Oms, s': Oms, pending: Order, order: Order)
    requires Core(s) && BooksAgree(s) && BooksWellFormed(s.books)
    requires pending.internalId == s.nextOrderId && AmountsOk(pending)
    requires AllFit(s.orders, IncomingOf(pending), EngineFills(s, pending), pending.orderQty)
    requires EngineAdd(s, pending).1.Ok?
    requires order == Applied(pending, pending.orderQty - EngineMatch(s, pending).remaining).(status := order.status)
    requires RestsOnBook(order) <==> order.orderType.Limit? && EngineMatch(s, pending).remaining > 0
    requires pending.filledQty == 0
    requires s'.books == EngineAdd(s, pending).0.books && s'.nextOrderId == s.nextOrderId + 1
    requires s'.orders == AfterFills(s.orders, IncomingOf(pending), EngineFills(s, pending), pending.orderQty)[s.nextOrderId := order]
    ensures BooksAgree(s')
  {
    hide RestingOrders, AfterFills, AllFit, Core, BooksWellFormed, EngineMatch, EngineAdd, RestsOnBook;
    EngineMatchAgrees(s, pending);
    forall symbol ensures BookOf(s'.books, symbol) == RestingOrders(s'.orders, symbol, s'.nextOrderId) {
      assert BookOf(s.books, symbol) == RestingOrders(s.orders, symbol, s.nextOrderId);
      BookAfterAcceptance(s, pending, order, symbol);
    }
  }

  /** One book after an accepted submission. */
  lemma BookAfterAcceptance(s: Oms, pending: Order, order: Order, symbol: Symbol)
    requires BooksWellFormed(s.books) && pending.orderQty > 0 && EngineAdd(s, pending).1.Ok?
    requires AllFit(s.orders, IncomingOf(pending), EngineFills(s, pending), pending.orderQty)
    requires BookOf(s.books, symbol) == RestingOrders(s.orders, symbol, s.nextOrderId)
    requires order == pending.(filledQty := order.filledQty, remainingQty := EngineMatch(s, pending).remaining, status := order.status)
    requires RestsOnBook(order) <==> order.orderType.Limit? && EngineMatch(s, pending).remaining > 0
    requires pending.internalId == s.nextOrderId
    requires var after := AfterFills(s.orders, IncomingOf(pending), EngineFills(s, pending), pending.orderQty);
             s.nextOrderId !in after && RestingOrders(after, pending.symbol, s.nextOrderId) == EngineMatch(s, pending).rest
    ensures var after := AfterFills(s.orders, IncomingOf(pending), EngineFills(s, pending), pending.orderQty);
            BookOf(EngineAdd(s, pending).0.books, symbol) == RestingOrders(after[s.nextOrderId := order], symbol, s.nextOrderId + 1)
  {
    hide RestingOrders, AfterFills, AllFit, EngineMatch, EngineAdd, BooksWellFormed;
    var fills := EngineFills(s, pending);
    var after := AfterFills(s.orders, IncomingOf(pending), fills, pending.orderQty);
    RestingOrdersAfterNewest(after, s.nextOrderId, order, symbol);
    EngineBook(s, pending, symbol);
    if symbol != pending.symbol {
      OtherBooksAfterFills(s.orders, s.nextOrderId, IncomingOf(pending), fills, pending.orderQty, symbol);
    }
  }

  lemma EngineMatchAgrees(s: Oms, pending: Order)
    requires Core(s) && BooksAgree(s) && BooksWellFormed(s.books)
    requires pending.internalId == s.nextOrderId && AmountsOk(pending)
    requires AllFit(s.orders, IncomingOf(pending), EngineFills(s, pending), pending.orderQty)
    ensures var after := AfterFills(s.orders, IncomingOf(pending), EngineFills(s, pending), pending.orderQty);
            s.nextOrderId !in after && RestingOrders(after, pending.symbol, s.nextOrderId) == EngineMatch(s, pending).rest
  {
    hide RestingOrders, Match, AfterFills, AllFit, OrderOk;
    EngineAcceptsNewOrders(s, pending);
    MatchAgreesWithTable(s.orders, s.nextOrderId, IncomingOf(pending), pending.orderQty, s.nextExecutionId);
  }

  /** The books after the engine's part: only the order's own one changes. */
  lemma EngineBook(s: Oms, pending: Order, symbol: Symbol)
    requires BooksWellFormed(s.books) && pending.orderQty > 0 && EngineAdd(s, pending).1.Ok?
    ensures var m := EngineMatch(s, pending);
            var rests := m.remaining > 0 && pending.orderType.Limit?;
            BookOf(EngineAdd(s, pending).0.books, symbol)
            == if symbol != pending.symbol then BookOf(s.books, symbol)
               else m.rest + if rests then [BookEntry(pending.internalId, pending.side, pending.price, m.remaining)] else []
  {
    hide Match, HasId, WellFormed;
    BookOfIsWellFormed(s.books, pending.symbol);
    var m := EngineMatch(s, pending);
    assert m.rest + [] == m.rest;
  }

  ghost function EngineMatch(s: Oms, pending: Order): Matched
    requires BooksWellFormed(s.books) && pending.orderQty > 0
  {
    BookOfIsWellFormed(s.books, pending.symbol);
    Match(BookOf(s.books, pending.symbol), IncomingOf(pending), pending.orderQty, s.nextExecutionId)
  }

  ghost function EngineFills(s: Oms, pending: Order): seq<Types.Fill>
    requires BooksWellFormed(s.books) && pending.orderQty > 0
  {
    EngineMatch(s, pending).fills
  }

  /** What an accepted submission does to the order table and the executions. */
  ghost predicate AcceptedEffect(s: Oms, s': Oms, pending: Order, m: Matched) {
    && AllFit(s.orders, IncomingOf(pending), m.fills, pending.orderQty)
    && s'.nextOrderId == s.nextOrderId + 1 && s'.executions == s.executions + m.fills
    && pending.symbol in s'.books
    && s'.orders == AfterFills(s.orders, IncomingOf(pending), m.fills, pending.orderQty)
                    [s.nextOrderId := SettledOrder(pending, m.remaining)]
  }

  /** An accepted order of which `remaining` is unfilled when its submission ends. */
  ghost function SettledOrder(pending: Order, remaining: Quantity): Order {
    var filled := Applied(pending.(status := OrderStatus.Accepted), pending.orderQty - remaining);
    filled.(status := FinalStatus(filled))
  }

  /** Where an accepted submission stands after its last fill. */
  ghost predicate Settled(s: Oms, pending: Order, settled: Oms, filled: Order)
    requires BooksWellFormed(s.books) && pending.orderQty > 0
  {
    var m := EngineMatch(s, pending);
    && Settling(settled, filled)
    && filled == Applied(pending.(status := OrderStatus.Accepted), pending.orderQty - m.remaining)
    && AllFit(s.orders, IncomingOf(pending), m.fills, pending.orderQty)
    && settled.orders == AfterFills(s.orders, IncomingOf(pending), m.fills, pending.orderQty)
    && settled.orders.Keys == s.orders.Keys
    && settled.executions == s.executions + m.fills
    && settled.books == EngineAdd(s, pending).0.books && pending.symbol in settled.books
    && settled.nextOrderId == s.nextOrderId + 1
    && settled.nextExecutionId == s.nextExecutionId + |m.fills|
    && 0 <= m.remaining <= pending.orderQty
  }

  /** An accepted submission: the engine matches, the fills settle, the order is stored. */
  lemma SubmissionSettles(s: Oms, req: NewOrderRequest) returns (settled: Oms, filled: Order)
    requires Inv(s) && BooksWellFormed(s.books) && Validate(req).None?
    ensures Settled(s, OrderFor(req, s.nextOrderId, PendingNew), settled, filled)
    ensures EngineAdd(s, OrderFor(req, s.nextOrderId, PendingNew)).1.Ok?
    ensures Submit(s, req, None) == (Stored(settled, filled), Ok(filled.(status := FinalStatus(filled))))
  {
    hide RestingOrders, Match, Core, BooksAgree, AfterFills, AllFit, ApplyFills, Settling, FinalStatus, OrdersOk, Stored, Submit;
    var pending := OrderFor(req, s.nextOrderId, PendingNew);
    var accepted := pending.(status := OrderStatus.Accepted);
    var o := IncomingOf(pending);
    EngineAcceptsNewOrders(s, pending);
    var rest := BookOf(s.books, pending.symbol);
    var m := EngineMatch(s, pending);
    var added := EngineAdd(s, pending).0;
    var ready := ReadyToSettle(s, pending, added.books, added.nextExecutionId);
    AcceptedOrderSettles(s, pending, added.books, added.nextExecutionId);
    CoreMeansOrdersOk(s);
    MatchAgreesWithTable(s.orders, s.nextOrderId, o, pending.orderQty, s.nextExecutionId);
    MatchedFillsAreNumbered(rest, o, pending.orderQty, s.nextExecutionId);
    FillsKeepSettling(ready, accepted, m.fills);
    settled := ApplyFills(ready, accepted, m.fills).0;
    filled := ApplyFills(ready, accepted, m.fills).1;
    Allocation.MatchConserves(rest, o, pending.orderQty, s.nextExecutionId);
    MatchBoundsRemaining(rest, o, pending.orderQty, s.nextExecutionId);
    AfterFillsKeepIds(s.orders, o, m.fills, pending.orderQty);
    SubmitIsStored(s, req);
  }

  /** Storing a settled submission has the announced effect on orders, executions and books. */
  lemma SettledHasEffect(s: Oms, pending: Order, settled: Oms, filled: Order)
    requires Core(s) && BooksAgree(s) && BooksWellFormed(s.books)
    requires pending.internalId == s.nextOrderId && AmountsOk(pending) && pending.filledQty == 0
    requires EngineAdd(s, pending).1.Ok?
    requires Settled(s, pending, settled, filled)
    ensures Core(Stored(settled, filled)) && BooksAgree(Stored(settled, filled))
    ensures AcceptedEffect(s, Stored(settled, filled), pending, EngineMatch(s, pending))
    ensures Stored(settled, filled).nextExecutionId - |Stored(settled, filled).executions| == s.nextExecutionId - |s.executions|
  {
    hide RestingOrders, Core, BooksAgree, AfterFills, AllFit, FinalStatus, EngineMatch, EngineAdd, Stored, OrdersOk, LedgerOk, Logged, Mirrored;
    CoreMeansOrdersOk(s);
    StoringKeepsCore(settled, filled);
    FinalStatusRests(filled);
    AcceptedKeepsBooks(s, Stored(settled, filled), pending, filled.(status := FinalStatus(filled)));
  }

  /** Accepting an order keeps the invariant; the engine's fills are applied to the table and appended to the executions. */
  lemma AcceptanceKeepsInv(s: Oms, req: NewOrderRequest)
    requires Inv(s) && BooksWellFormed(s.books) && Validate(req).None?
    ensures Submit(s, req, None).1.Ok?
    ensures Inv(Submit(s, req, None).0)
    ensures var pending := OrderFor(req, s.nextOrderId, PendingNew);
            AcceptedEffect(s, Submit(s, req, None).0, pending, EngineMatch(s, pending))
  {
    hide Core, BooksAgree, EngineMatch, EngineAdd, Stored, Submit, Settled, AcceptedEffect;
    var pending := OrderFor(req, s.nextOrderId, PendingNew);
    var settled, filled := SubmissionSettles(s, req);
    SettledHasEffect(s, pending, settled, filled);
  }

  lemma CoreMeansOrdersOk(s: Oms)
    requires Core(s)
    ensures OrdersOk(s.orders, s.nextOrderId) && IdsAreDense(s.orders, s.nextOrderId)
  {}

  lemma FinalStatusRests(filled: Order)
    requires filled.status.Accepted? && AmountsOk(filled)
    ensures var order := filled.(status := FinalStatus(filled));
            RestsOnBook(order) <==> order.orderType.Limit? && order.remainingQty > 0
  {}

  lemma {:induction false} AfterFillsKeepIds(orders: Orders, o: Incoming, fills: seq<Types.Fill>, qty: Quantity)
    requires AllFit(orders, o, fills, qty)
    ensures AfterFills(orders, o, fills, qty).Keys == orders.Keys
    decreases |fills|
  {
    if fills != [] { AfterFillsKeepIds(AfterFill(orders, fills[0]), o, fills[1..], qty - fills[0].quantity); }
  }

  /** Unfolds an accepted submission into its three parts. */
  lemma SubmitIsStored(s: Oms, req: NewOrderRequest)
    requires BooksWellFormed(s.books) && Validate(req).None? && EngineAdd(s, OrderFor(req, s.nextOrderId, PendingNew)).1.Ok?
    ensures var pending := OrderFor(req, s.nextOrderId, PendingNew);
            var (added, result) := EngineAdd(s, pending);
            var ready := ReadyToSettle(s, pending, added.books, added.nextExecutionId);
            var (settled, filled) := ApplyFills(ready, pending.(status := OrderStatus.Accepted), result.value.fills);
            Submit(s, req, None) == (Stored(settled, filled), Ok(filled.(status := FinalStatus(filled))))
  {
    hide Match, ApplyFills, PriceTime.AddOrder, FinalStatus;
  }

  /** Submitting keeps the invariant, whatever is requested and whatever risk says. */
  lemma SubmitKeepsInv(s: Oms, req: NewOrderRequest, verdict: Option<OemsError>)
    requires Inv(s)
    ensures BooksWellFormed(s.books) && Inv(Submit(s, req, verdict).0)
  {
    hide Inv, SubmitRiskRejected, SubmitAccepted, SubmitEngineRejected, EngineAdd;
    InvMeansWellFormedBooks(s);
    if Validate(req).None? {
      if verdict.Some? {
        RiskRejectionKeepsInv(s, req, verdict.value);
      } else {
        AcceptanceKeepsInv(s, req);
      }
    }
  }

  /** The engine never rejects a validated order that risk approved: the answer is a stored order, or an error from before the engine. */
  lemma SubmitSucceedsIffApproved(s: Oms, req: NewOrderRequest, verdict: Option<OemsError>)
    requires Inv(s)
    ensures BooksWellFormed(s.books)
    ensures Submit(s, req, verdict).1.Ok? <==> Validate(req).None? && verdict.None?
    ensures var (s', r) := Submit(s, req, verdict);
            && (Validate(req).Some? ==> s' == s && r == Err(Validate(req).value))
            && (Validate(req).None? && verdict.Some? ==> r == Err(verdict.value) && s'.books == s.books && s'.executions == s.executions)
  {
    hide Inv, SubmitAccepted, SubmitEngineRejected, EngineAdd;
    InvMeansWellFormedBooks(s);
    if Validate(req).None? && verdict.None? {
      AcceptanceKeepsInv(s, req);
    }
  }

  // ---------- Cancel ----------

  /** The state after a cancel request was logged for a partly filled market order, which rests nowhere. */
  lemma FutileCancelKeepsInv(s: Oms, id: OrderId)
    requires Inv(s) && id in s.orders && s.orders[id].orderType.Market? && s.orders[id].status.PartiallyFilled?
    ensures Inv(AppendEvent(s, id, CancelRequested, ""))
  {
    hide RestingOrders, LedgerOk, Replay, FillEvents, EventsTable, OrdersTable, ExecutionsTable, OrderOk;
    var s' := AppendEvent(s, id, CancelRequested, "");
    var e := OrderEvent(s.nextEventId, id, CancelRequested, "");
    AppendEventIsMirrored(s, id, CancelRequested, "");
    assert s.orders[id := s.orders[id]] == s.orders;
    EventKeepsLog(s.orders, s.events, e, s.orders[id]);
    DetailsKept(s.orders, s.events, e, s.orders[id]);
    OtherEventsAreNoFills(s.events, e);
    forall symbol ensures BookOf(s'.books, symbol) == RestingOrders(s'.orders, symbol, s'.nextOrderId) {
      assert BookOf(s.books, symbol) == RestingOrders(s.orders, symbol, s.nextOrderId);
    }
  }

  /** The two events of a successful cancel. */
  lemma CancelKeepsLog(orders: Orders, events: seq<OrderEvent>, executions: seq<Types.Fill>, id: OrderId, e1: OrderEvent, e2: OrderEvent)
    requires Logged(orders, events, executions) && id in orders
    requires orders[id].orderType.Limit? && (orders[id].status.Accepted? || orders[id].status.PartiallyFilled?)
    requires e1.orderId == e2.orderId == id && e1.eventType.CancelRequested? && e2.eventType.Cancelled?
    requires e1.detail == e2.detail == ""
    ensures Logged(orders[id := orders[id].(status := OrderStatus.Cancelled)], events + [e1] + [e2], executions)
  {
    hide Replay, FillEvents;
    var pending := orders[id].(status := PendingCancel);
    var cancelled := orders[id].(status := OrderStatus.Cancelled);
    var middle := orders[id := pending];
    assert orders[id := cancelled] == middle[id := cancelled];
    EventKeepsLog(orders, events, e1, pending);
    DetailsKept(orders, events, e1, pending);
    EventKeepsLog(middle, events + [e1], e2, cancelled);
    DetailsKept(middle, events + [e1], e2, cancelled);
    OtherEventsAreNoFills(events, e1);
    OtherEventsAreNoFills(events + [e1], e2);
  }

  /** What a successful cancel leaves. */
  ghost function AfterCancel(s: Oms, id: OrderId): Oms
    requires id in s.orders && s.orders[id].symbol in s.books
  {
    var order := s.orders[id];
    var cancelled := order.(status := OrderStatus.Cancelled);
    var s1 := AppendEvent(AppendEvent(s, id, CancelRequested, ""), id, EventType.Cancelled, "");
    s1.(books := s.books[order.symbol := Without(s.books[order.symbol], id)],
        orders := s.orders[id := cancelled], tables := SaveOrder(s1.tables, cancelled))
  }

  lemma AfterCancelKeepsCore(s: Oms, id: OrderId)
    requires Core(s) && id in s.orders && RestsOnBook(s.orders[id]) && s.orders[id].symbol in s.books
    ensures Core(AfterCancel(s, id))
  {
    hide LedgerOk, Logged, EventsTable, OrdersTable, ExecutionsTable;
    TwoEventsAreMirrored(s, id, CancelRequested, "", EventType.Cancelled, "");
    SaveOrderIsMirrored(s.tables.orders, s.orders, s.orders[id].(status := OrderStatus.Cancelled));
    StatusKeepsLedger(s.orders, s.executions, id, OrderStatus.Cancelled);
    CancelKeepsLog(s.orders, s.events, s.executions, id,
                   OrderEvent(s.nextEventId, id, CancelRequested, ""), OrderEvent(s.nextEventId + 1, id, EventType.Cancelled, ""));
  }

  lemma AfterCancelKeepsInv(s: Oms, id: OrderId)
    requires Inv(s) && id in s.orders && RestsOnBook(s.orders[id]) && s.orders[id].symbol in s.books
    ensures Inv(AfterCancel(s, id))
  {
    hide Core, RestingOrders, InsertEvent;
    AfterCancelKeepsCore(s, id);
    CoreMeansOrdersOk(s);
    var s' := AfterCancel(s, id);
    var order := s.orders[id];
    forall symbol ensures BookOf(s'.books, symbol) == RestingOrders(s'.orders, symbol, s'.nextOrderId) {
      assert BookOf(s.books, symbol) == RestingOrders(s.orders, symbol, s.nextOrderId);
      if symbol == order.symbol {
        RestingOrdersAfterRemoval(s.orders, id, s'.orders[id], symbol, s.nextOrderId);
      } else {
        RestingOrdersFrame(s'.orders, s.orders, symbol, s.nextOrderId);
      }
    }
  }

  /** The engine finds an order exactly when it is an open limit order. */
  lemma EngineFindsOpenOrders(s: Oms, id: OrderId)
    requires Inv(s) && id in s.orders
    ensures EngineCancelError(s.books, s.orders[id].symbol, id).None? <==> RestsOnBook(s.orders[id])
    ensures RestsOnBook(s.orders[id]) ==> s.orders[id].symbol in s.books
    ensures s.orders[id].internalId == id
    ensures !RestsOnBook(s.orders[id]) && (s.orders[id].status.Accepted? || s.orders[id].status.PartiallyFilled?)
            ==> s.orders[id].orderType.Market? && s.orders[id].status.PartiallyFilled?
    ensures !s.orders[id].status.PendingNew? && !s.orders[id].status.PendingCancel?
  {
    hide RestingOrders, LedgerOk, Logged, Mirrored;
    var symbol := s.orders[id].symbol;
    OnBookIffResting(s.orders, symbol, s.nextOrderId, id);
    assert BookOf(s.books, symbol) == RestingOrders(s.orders, symbol, s.nextOrderId);
    assert OrderOk(s.orders[id]);
  }

  lemma CancelCases(s: Oms, id: OrderId)
    requires Inv(s) && id in s.orders
    ensures RestsOnBook(s.orders[id]) ==>
              s.orders[id].symbol in s.books && Cancel(s, id) == (AfterCancel(s, id), Ok(s.orders[id].(status := OrderStatus.Cancelled)))
    ensures s.orders[id].orderType.Market? && s.orders[id].status.PartiallyFilled? ==>
              Cancel(s, id) == (AppendEvent(s, id, CancelRequested, ""),
                                Err(if s.orders[id].symbol in s.books then OrderNotFound else BookNotFound))
    ensures !RestsOnBook(s.orders[id]) && !(s.orders[id].orderType.Market? && s.orders[id].status.PartiallyFilled?) ==>
              Cancel(s, id) == (s, Err(InvalidStateTransition))
  {
    hide Inv, InsertEvent, Without;
    EngineFindsOpenOrders(s, id);
  }

  lemma CancelKeepsInv(s: Oms, id: OrderId)
    requires Inv(s)
    ensures Inv(Cancel(s, id).0)
  {
    hide Inv, AfterCancel, AppendEvent;
    if id in s.orders {
      CancelCases(s, id);
      if RestsOnBook(s.orders[id]) {
        AfterCancelKeepsInv(s, id);
      } else if s.orders[id].orderType.Market? && s.orders[id].status.PartiallyFilled? {
        FutileCancelKeepsInv(s, id);
      }
    }
  }

  /**
  Cancelling succeeds exactly for open limit orders; it then changes that one order's status and takes it off its
  book, where everyone else keeps their place. When it fails, no order and no book changes.
  */
  lemma CancelSucceedsIffOpen(s: Oms, id: OrderId)
    requires Inv(s)
    ensures var (s', r) := Cancel(s, id);
            && (r.Ok? <==> id in s.orders && RestsOnBook(s.orders[id]))
            && (r.Err? ==> s'.orders == s.orders && s'.books == s.books && s'.executions == s.executions)
            && (r.Ok? ==> s'.orders == s.orders[id := s.orders[id].(status := OrderStatus.Cancelled)] && r.value == s'.orders[id]
                          && (forall symbol :: BookOf(s'.books, symbol) == Without(BookOf(s.books, symbol), id)))
  {
    hide Inv, InsertEvent, Without;
    if id in s.orders {
      CancelCases(s, id);
      if RestsOnBook(s.orders[id]) {
        var s' := AfterCancel(s, id);
        forall symbol ensures BookOf(s'.books, symbol) == Without(BookOf(s.books, symbol), id) {
          if symbol != s.orders[id].symbol { OtherBooksDoNotHold(s, id, symbol); }
        }
      }
    }
  }

  /**
  The answer to every other cancel: an unknown order, one that has ended, and a partly filled market order, for which alone
  the request is logged.
  */
  lemma CancelAnswers(s: Oms, id: OrderId)
    requires Inv(s) && !(id in s.orders && RestsOnBook(s.orders[id]))
    ensures var (s', r) := Cancel(s, id);
            if id !in s.orders then s' == s && r == Err(OrderNotFound)
            else
              var o := s.orders[id];
              if o.status.Filled? || o.status.Cancelled? || o.status.Rejected? then s' == s && r == Err(InvalidStateTransition)
              else
                && o.orderType.Market? && o.status.PartiallyFilled?
                && r == Err(if o.symbol in s.books then OrderNotFound else BookNotFound)
                && s'.events == s.events + [OrderEvent(s.nextEventId, id, CancelRequested, "")]
  {
    hide Inv, AfterCancel, InsertEvent, EngineCancelError, Without;
    if id in s.orders {
      EngineFindsOpenOrders(s, id);
      CancelCases(s, id);
      OpenStatuses(s, id);
    }
  }

  lemma OpenStatuses(s: Oms, id: OrderId)
    requires Inv(s) && id in s.orders
    ensures var o := s.orders[id];
            || o.status.Filled? || o.status.Cancelled? || o.status.Rejected?
            || RestsOnBook(o) || (o.orderType.Market? && o.status.PartiallyFilled?)
  {
    hide LedgerOk, Logged, Mirrored, BooksAgree;
    assert OrderOk(s.orders[id]);
  }

  /** The two events of a successful cancel. */
  lemma CancelIsLogged(s: Oms, id: OrderId)
    requires Inv(s) && id in s.orders && RestsOnBook(s.orders[id])
    ensures Cancel(s, id).0.events
         == s.events + [OrderEvent(s.nextEventId, id, CancelRequested, "")] + [OrderEvent(s.nextEventId + 1, id, EventType.Cancelled, "")]
  {
    hide Inv, Cancel, InsertEvent, SaveOrder, Without;
    CancelCases(s, id);
  }

  lemma OtherBooksDoNotHold(s: Oms, id: OrderId, symbol: Symbol)
    requires Inv(s) && id in s.orders && symbol != s.orders[id].symbol
    ensures Without(BookOf(s.books, symbol), id) == BookOf(s.books, symbol)
  {
    hide RestingOrders, LedgerOk, Logged, Mirrored, Without;
    assert BookOf(s.books, symbol) == RestingOrders(s.orders, symbol, s.nextOrderId);
    OnBookIffResting(s.orders, symbol, s.nextOrderId, id);
    RestingOrdersWellFormed(s.orders, symbol, s.nextOrderId);
    WithoutKeeps(BookOf(s.books, symbol), id);
  }

  // ---------- Crossed books ----------

  /** Submitting and cancelling never cross a book. */
  lemma SubmitKeepsUncrossed(s: Oms, req: NewOrderRequest, verdict: Option<OemsError>)
    requires Inv(s) && NeverCrossed(s)
    ensures BooksWellFormed(s.books) && NeverCrossed(Submit(s, req, verdict).0)
  {
    hide Inv, RestingOrders, Uncrossed, InsertEvent, SubmitAccepted, SubmitEngineRejected, PriceTime.AddOrder;
    InvMeansWellFormedBooks(s);
    if Validate(req).None? && verdict.None? {
      SubmitSucceedsIffApproved(s, req, verdict);
      SubmitChangesBooksLikeEngine(s, req);
      EngineKeepsUncrossed(s, OrderFor(req, s.nextOrderId, PendingNew));
    }
  }

  lemma SubmitChangesBooksLikeEngine(s: Oms, req: NewOrderRequest)
    requires Inv(s) && BooksWellFormed(s.books) && Validate(req).None?
    ensures Submit(s, req, None).0.books == EngineAdd(s, OrderFor(req, s.nextOrderId, PendingNew)).0.books
  {
    hide Inv, Settling, EngineAdd, Submit, AllFit, AfterFills, EngineMatch, FinalStatus;
    var settled, filled := SubmissionSettles(s, req);
  }

  lemma EngineKeepsUncrossed(s: Oms, o: Order)
    requires BooksWellFormed(s.books) && NeverCrossed(s)
    ensures NeverCrossed(EngineAdd(s, o).0)
  {
    hide Uncrossed, PriceTime.AddOrder, WellFormed;
    BookOfIsWellFormed(s.books, o.symbol);
    AddOrderKeepsBook(BookOf(s.books, o.symbol), IncomingOf(o), o.orderQty, s.nextExecutionId);
    var s' := EngineAdd(s, o).0;
    forall symbol ensures Uncrossed(BookOf(s'.books, symbol)) {
      assert Uncrossed(BookOf(s.books, symbol));
    }
  }

  lemma CancelKeepsUncrossed(s: Oms, id: OrderId)
    requires Inv(s) && NeverCrossed(s)
    ensures NeverCrossed(Cancel(s, id).0)
  {
    hide Inv, Uncrossed, Without, WellFormed, Cancel;
    CancelSucceedsIffOpen(s, id);
    InvMeansWellFormedBooks(s);
    var s' := Cancel(s, id).0;
    forall symbol ensures Uncrossed(BookOf(s'.books, symbol)) {
      assert Uncrossed(BookOf(s.books, symbol));
      BookOfIsWellFormed(s.books, symbol);
      WithoutKeepsUncrossed(BookOf(s.books, symbol), id);
    }
  }
}
