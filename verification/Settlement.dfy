/** Applying the fills of one submission, fill by fill: what holds between any two of them. */
module Settlement {
  import opened Types
  import opened PriceTime
  import opened Lifecycle
  import opened Agreement
  import opened Ledger
  import opened EventLog
  import opened Durable
  import Allocation
  import Text

  ghost predicate AmountsOk(o: Order) {
    && o.orderQty > 0 && o.filledQty >= 0 && o.remainingQty >= 0 && o.filledQty + o.remainingQty == o.orderQty
    && (o.orderType.Limit? ==> o.price > 0)
  }

  /** The incoming order with the status the log gives it so far. */
  ghost function AsLogged(order: Order): Order {
    order.(status := LogStatus(order))
  }

  ghost predicate Logged(orders: Orders, events: seq<OrderEvent>, executions: seq<Types.Fill>) {
    && LogAgrees(orders, events)
    && DetailsAreOurs(orders, events)
    && FillsAreLogged(FillEvents(events), executions)
  }

  /** Nobody asked for this order to be cancelled. */
  ghost predicate LogArrivedAt(events: seq<OrderEvent>, o: Order) {
    Replay(events, o.internalId, o.orderType) == At(o.status)
  }

  /** Between two fills of `order`: everything but the book already accounts for the fills so far. */
  ghost predicate Settling(s: Oms, order: Order) {
    && OrdersOk(s.orders, order.internalId) && order.internalId !in s.orders && AmountsOk(order)
    && LedgerOk(WithIncoming(s.orders, AsLogged(order)), s.executions)
    && Logged(WithIncoming(s.orders, AsLogged(order)), s.events, s.executions)
    && LogArrivedAt(s.events, AsLogged(order))
    && Mirrored(s)
  }

  /** What one fitting fill changes, and nothing else. */
  ghost predicate FillEffect(s: Oms, s': Oms, order: Order, f: Types.Fill)
    requires f.passiveId in s.orders
  {
    var passive := PassiveAfter(s.orders[f.passiveId], f.quantity);
    var order' := Applied(order, f.quantity);
    && s'.orders == AfterFill(s.orders, f)
    && s'.executions == s.executions + [f]
    && s'.events == s.events + [OrderEvent(s.nextEventId, passive.internalId, FillEventType(passive), FillDetail(f))]
                             + [OrderEvent(s.nextEventId + 1, order.internalId, FillEventType(order'), FillDetail(f))]
    && s'.nextOrderId == s.nextOrderId && s'.books == s.books && s'.nextExecutionId == s.nextExecutionId
  }

  lemma ApplyFillEffect(s: Oms, order: Order, f: Types.Fill)
    requires Mirrored(s) && f.passiveId in s.orders && s.orders[f.passiveId].internalId == f.passiveId
    requires f.executionId == |s.executions| + 1
    ensures FillEffect(s, ApplyFill(s, order, f).0, order, f)
    ensures ApplyFill(s, order, f).1 == Applied(order, f.quantity)
    ensures Mirrored(ApplyFill(s, order, f).0)
  {
    hide InsertEvent, EventsTable, OrdersTable, ExecutionsTable, FillDetail;
    var order' := Applied(order, f.quantity);
    var passive := PassiveAfter(s.orders[f.passiveId], f.quantity);
    var s1 := s.(executions := s.executions + [f], tables := SaveExecution(s.tables, f));
    SaveExecutionIsMirrored(s.tables.executions, s.executions, f);
    var s2 := s1.(orders := s1.orders[f.passiveId := passive]);
    AppendEventIsMirrored(s2, passive.internalId, FillEventType(passive), FillDetail(f));
    var s3 := AppendEvent(s2, passive.internalId, FillEventType(passive), FillDetail(f));
    var s4 := s3.(tables := SaveOrder(s3.tables, passive));
    SaveOrderIsMirrored(s3.tables.orders, s.orders, passive);
    AppendEventIsMirrored(s4, order'.internalId, FillEventType(order'), FillDetail(f));
  }

  lemma FillDetailIsNulFree(f: Types.Fill)
    ensures Text.NulFree(FillDetail(f))
  {
    Text.DecimalIsNulFree(f.executionId);
    Text.DecimalIsNulFree(f.quantity);
    var a, b, c, d := "exec=", Text.Decimal(f.executionId), " qty=", Text.Decimal(f.quantity);
    assert Text.NulFree(a) && Text.NulFree(c);
    assert FillDetail(f) == a + b + c + d;
  }

  lemma DetailReports(e: OrderEvent, id: OrderId, f: Types.Fill)
    requires e.orderId == id && e.detail == FillDetail(f)
    ensures ReportsFill(e, id, f)
  {}

  /** The two fill events of a fill move both orders to the status the fill gives them. */
  lemma FillKeepsLog(orders: Orders, order: Order, events: seq<OrderEvent>, executions: seq<Types.Fill>, f: Types.Fill, e1: OrderEvent, e2: OrderEvent)
    requires OrdersOk(orders, order.internalId) && order.internalId !in orders && AmountsOk(order)
    requires Fits(orders, IncomingOf(order), f, order.remainingQty)
    requires Logged(WithIncoming(orders, AsLogged(order)), events, executions) && LogArrivedAt(events, AsLogged(order))
    requires e1.orderId == f.passiveId && e1.eventType == FillEventType(PassiveAfter(orders[f.passiveId], f.quantity))
    requires e2.orderId == order.internalId && e2.eventType == FillEventType(Applied(order, f.quantity))
    requires e1.detail == e2.detail == FillDetail(f)
    ensures Logged(WithIncoming(AfterFill(orders, f), AsLogged(Applied(order, f.quantity))), events + [e1] + [e2], executions + [f])
    ensures LogArrivedAt(events + [e1] + [e2], AsLogged(Applied(order, f.quantity)))
  {
    hide Replay, FillEvents, FillDetail, FillsAreLogged, ReportsFill;
    var before := WithIncoming(orders, AsLogged(order));
    var passive := PassiveAfter(orders[f.passiveId], f.quantity);
    var order' := AsLogged(Applied(order, f.quantity));
    var middle := before[f.passiveId := passive];
    assert WithIncoming(AfterFill(orders, f), order') == middle[order.internalId := order'];
    assert OrderOk(orders[f.passiveId]);
    FillDetailIsNulFree(f);
    EventKeepsLog(before, events, e1, passive);
    DetailsKept(before, events, e1, passive);
    ReplayAppend(events, e1, order.internalId, order.orderType);
    ReplayAppend(events + [e1], e2, order.internalId, order.orderType);
    EventKeepsLog(middle, events + [e1], e2, order');
    DetailsKept(middle, events + [e1], e2, order');
    DetailReports(e1, f.passiveId, f);
    DetailReports(e2, f.aggressiveId, f);
    FillsStayLogged(events, executions, f, e1, e2);
  }

  /** One fill keeps everything accounted for. */
  lemma FillKeepsSettling(s: Oms, order: Order, f: Types.Fill)
    requires Settling(s, order) && Fits(s.orders, IncomingOf(order), f, order.remainingQty)
    requires f.executionId == |s.executions| + 1
    ensures var (s', order') := ApplyFill(s, order, f);
            && Settling(s', order') && order' == Applied(order, f.quantity)
            && FillEffect(s, s', order, f) && |s'.executions| == |s.executions| + 1 && s'.orders == AfterFill(s.orders, f)
  {
    hide ApplyFill, OrderOk, LedgerOk, Logged, LogArrivedAt, Mirrored, FillDetail;
    assert s.orders[f.passiveId].internalId == f.passiveId;
    ApplyFillEffect(s, order, f);
    FillKeepsOrdersOk(s.orders, order.internalId, IncomingOf(order), f, order.remainingQty);
    FillKeepsLedger(s.orders, order, s.executions, f, LogStatus(order), LogStatus(Applied(order, f.quantity)));
    var passive := PassiveAfter(s.orders[f.passiveId], f.quantity);
    FillKeepsLog(s.orders, order, s.events, s.executions, f,
                 OrderEvent(s.nextEventId, passive.internalId, FillEventType(passive), FillDetail(f)),
                 OrderEvent(s.nextEventId + 1, order.internalId, FillEventType(Applied(order, f.quantity)), FillDetail(f)));
  }

  ghost predicate NumberedFrom(fills: seq<Types.Fill>, exec: ExecutionId) {
    forall k | 0 <= k < |fills| :: fills[k].executionId == exec + k
  }

  /** What all fills of a submission change, and nothing else. */
  ghost predicate FillsEffect(s: Oms, s': Oms, order: Order, order': Order, fills: seq<Types.Fill>)
    requires AllFit(s.orders, IncomingOf(order), fills, order.remainingQty)
  {
    && s'.orders == AfterFills(s.orders, IncomingOf(order), fills, order.remainingQty)
    && s'.executions == s.executions + fills
    && s'.nextOrderId == s.nextOrderId && s'.books == s.books && s'.nextExecutionId == s.nextExecutionId
    && order' == Applied(order, Allocation.TotalQuantity(fills))
  }

  lemma ApplyFillsUnfold(s: Oms, order: Order, fills: seq<Types.Fill>)
    requires fills != []
    ensures ApplyFills(s, order, fills)
         == ApplyFills(ApplyFill(s, order, fills[0]).0, ApplyFill(s, order, fills[0]).1, fills[1..])
  {
    hide ApplyFill;
  }

  lemma FillsEffectCons(s: Oms, s1: Oms, s2: Oms, order: Order, order2: Order, fills: seq<Types.Fill>)
    requires fills != [] && AllFit(s.orders, IncomingOf(order), fills, order.remainingQty)
    requires FillEffect(s, s1, order, fills[0])
    requires AllFit(s1.orders, IncomingOf(order), fills[1..], order.remainingQty - fills[0].quantity)
    requires FillsEffect(s1, s2, Applied(order, fills[0].quantity), order2, fills[1..])
    ensures FillsEffect(s, s2, order, order2, fills)
  {
    hide Fits, AfterFill;
    assert s.executions + [fills[0]] + fills[1..] == s.executions + fills;
  }

  lemma AllFitUnfold(orders: Orders, o: Incoming, fills: seq<Types.Fill>, qty: Quantity)
    requires fills != [] && AllFit(orders, o, fills, qty)
    ensures Fits(orders, o, fills[0], qty) && AllFit(AfterFill(orders, fills[0]), o, fills[1..], qty - fills[0].quantity)
  {
    hide Fits, AfterFill;
  }

  lemma NoFills(s: Oms, order: Order, fills: seq<Types.Fill>)
    requires fills == []
    ensures ApplyFills(s, order, fills) == (s, order) && AllFit(s.orders, IncomingOf(order), fills, order.remainingQty)
    ensures FillsEffect(s, s, order, order, fills)
  {
    assert s.executions + fills == s.executions;
  }

  /** All fills of a submission: the ledger, the log and the tables stay in step, and the table ends as the fills say. */
  lemma {:induction false} FillsKeepSettling(s: Oms, order: Order, fills: seq<Types.Fill>)
    requires Settling(s, order) && AllFit(s.orders, IncomingOf(order), fills, order.remainingQty)
    requires NumberedFrom(fills, |s.executions| + 1)
    ensures var (s', order') := ApplyFills(s, order, fills); Settling(s', order') && FillsEffect(s, s', order, order', fills)
    decreases |fills|
  {
    hide ApplyFill, ApplyFills, Settling, Fits, AfterFill, AfterFills, AllFit, FillsEffect, FillEffect;
    if fills == [] {
      NoFills(s, order, fills);
    } else {
      AllFitUnfold(s.orders, IncomingOf(order), fills, order.remainingQty);
      ApplyFillsUnfold(s, order, fills);
      FillKeepsSettling(s, order, fills[0]);
      var s1, order1 := ApplyFill(s, order, fills[0]).0, ApplyFill(s, order, fills[0]).1;
      FillsKeepSettling(s1, order1, fills[1..]);
      var s2, order2 := ApplyFills(s1, order1, fills[1..]).0, ApplyFills(s1, order1, fills[1..]).1;
      FillsEffectCons(s, s1, s2, order, order2, fills);
    }
  }
}
