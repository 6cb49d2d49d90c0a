/**
The order lifecycle as a state machine on values: what submitting, cancelling and restoring do to the orders,
the event log, the executions, the books and the durable tables. The class `OrderManager` is proved to compute
exactly these functions; the properties of whole runs are proved about them.
*/
module Lifecycle {
  import opened Types
  import opened PriceTime
  import opened Text

  datatype OrderStatus = PendingNew | Accepted | PartiallyFilled | Filled | PendingCancel | Cancelled | Rejected

  datatype EventType = NewRequested | Accepted | Rejected | PartialFill | Fill | CancelRequested | Cancelled

  datatype Order = Order(
    internalId: OrderId,
    clientOrderId: string,
    symbol: Symbol,
    side: Side,
    orderType: OrderType,
    price: Price,
    orderQty: Quantity,
    filledQty: Quantity,
    remainingQty: Quantity,
    status: OrderStatus)

  datatype NewOrderRequest = NewOrderRequest(
    clientOrderId: string, symbol: Symbol, side: Side, orderType: OrderType, price: Price, quantity: Quantity)

  datatype OrderEvent = OrderEvent(eventId: nat, orderId: OrderId, eventType: EventType, detail: string)

  /** The durable tables, keyed by their primary keys. */
  datatype Tables = Tables(
    orders: map<OrderId, Order>,
    events: map<nat, OrderEvent>,
    executions: map<ExecutionId, Types.Fill>)

  /** Everything the order manager, its engine and its database hold. Each book is its list of resting orders in arrival order. */
  datatype Oms = Oms(
    orders: map<OrderId, Order>,
    events: seq<OrderEvent>,
    executions: seq<Types.Fill>,
    nextOrderId: OrderId,
    nextEventId: nat,
    books: map<Symbol, seq<BookEntry>>,
    nextExecutionId: ExecutionId,
    tables: Tables)

  // ---------- Durable tables ----------

  /** Text columns are bound by address, so a row keeps what precedes the first NUL. */
  function OrderRow(o: Order): Order {
    o.(clientOrderId := CString(o.clientOrderId), symbol := CString(o.symbol))
  }

  function EventRow(e: OrderEvent): OrderEvent {
    e.(detail := CString(e.detail))
  }

  function ExecutionRow(f: Types.Fill): Types.Fill {
    f.(symbol := CString(f.symbol))
  }

  /** Insert or replace. */
  function SaveOrder(t: Tables, o: Order): Tables {
    t.(orders := t.orders[o.internalId := OrderRow(o)])
  }

  /** Insert or replace. */
  function SaveExecution(t: Tables, f: Types.Fill): Tables {
    t.(executions := t.executions[f.executionId := ExecutionRow(f)])
  }

  /** A plain insert: a duplicate key is an error, which the caller ignores. */
  function InsertEvent(t: Tables, e: OrderEvent): Tables {
    if e.eventId in t.events then t else t.(events := t.events[e.eventId := EventRow(e)])
  }

  lemma {:induction false} LeastKeyUpTo(keys: set<nat>, k: nat)
    requires k in keys
    ensures exists m :: m in keys && forall j | j in keys :: m <= j
  {
    if j :| j in keys && j < k {
      LeastKeyUpTo(keys, j);
    }
  }

  lemma LeastKeyExists(keys: set<nat>)
    requires |keys| > 0
    ensures exists k :: k in keys && forall j | j in keys :: k <= j
  {
    assert keys != {};
    var k :| k in keys;
    LeastKeyUpTo(keys, k);
  }

  function LeastKey(keys: set<nat>): (k: nat)
    requires |keys| > 0
    ensures k in keys && forall j | j in keys :: k <= j
  {
    LeastKeyExists(keys);
    var k :| k in keys && forall j | j in keys :: k <= j;
    k
  }

  /** The rows of a table ordered by key. */
  function SortedRows<V>(table: map<nat, V>): seq<V>
    decreases |table|
  {
    if |table.Keys| == 0 then []
    else
      var k := LeastKey(table.Keys);
      var others := table - {k};
      assert table.Keys == others.Keys + {k} && |table.Keys| == |others.Keys| + 1;
      [table[k]] + SortedRows(others)
  }

  // ---------- Books ----------

  function BookOf(books: map<Symbol, seq<BookEntry>>, symbol: Symbol): seq<BookEntry> {
    if symbol in books then books[symbol] else []
  }

  ghost predicate BooksWellFormed(books: map<Symbol, seq<BookEntry>>) {
    forall symbol | symbol in books :: WellFormed(books[symbol])
  }

  lemma BookOfIsWellFormed(books: map<Symbol, seq<BookEntry>>, symbol: Symbol)
    requires BooksWellFormed(books)
    ensures WellFormed(BookOf(books, symbol))
  {}

  // ---------- Events and fills ----------

  function AppendEvent(s: Oms, id: OrderId, eventType: EventType, detail: string): Oms {
    var e := OrderEvent(s.nextEventId, id, eventType, detail);
    s.(nextEventId := s.nextEventId + 1, events := s.events + [e], tables := InsertEvent(s.tables, e))
  }

  function FillDetail(f: Types.Fill): string {
    "exec=" + Decimal(f.executionId) + " qty=" + Decimal(f.quantity)
  }

  function Applied(o: Order, q: Quantity): Order {
    o.(filledQty := o.filledQty + q, remainingQty := o.remainingQty - q)
  }

  function PassiveAfter(o: Order, q: Quantity): Order {
    var p := Applied(o, q);
    p.(status := if p.remainingQty == 0 then OrderStatus.Filled else OrderStatus.PartiallyFilled)
  }

  function FillEventType(o: Order): EventType {
    if o.remainingQty == 0 then EventType.Fill else EventType.PartialFill
  }

  /** The passive side of one fill, if the passive order is known. */
  function ApplyPassive(s: Oms, f: Types.Fill): Oms {
    if f.passiveId !in s.orders then s
    else
      var passive := PassiveAfter(s.orders[f.passiveId], f.quantity);
      var s1 := s.(orders := s.orders[f.passiveId := passive]);
      var s2 := AppendEvent(s1, passive.internalId, FillEventType(passive), FillDetail(f));
      s2.(tables := SaveOrder(s2.tables, passive))
  }

  /** One fill: record it, update the passive order, and log it for both sides. */
  function ApplyFill(s: Oms, order: Order, f: Types.Fill): (Oms, Order) {
    var order' := Applied(order, f.quantity);
    var s1 := s.(executions := s.executions + [f], tables := SaveExecution(s.tables, f));
    var s2 := ApplyPassive(s1, f);
    (AppendEvent(s2, order'.internalId, FillEventType(order'), FillDetail(f)), order')
  }

  function ApplyFills(s: Oms, order: Order, fills: seq<Types.Fill>): (Oms, Order)
    decreases |fills|
  {
    if fills == [] then (s, order)
    else
      var (s', order') := ApplyFill(s, order, fills[0]);
      ApplyFills(s', order', fills[1..])
  }

  // ---------- Submit ----------

  function Validate(req: NewOrderRequest): Option<OemsError> {
    if req.quantity <= 0 then Some(InvalidQuantity)
    else if req.orderType.Limit? && req.price <= 0 then Some(InvalidPrice)
    else if req.symbol == "" then Some(InvalidSymbol)
    else None
  }

  function OrderFor(req: NewOrderRequest, id: OrderId, status: OrderStatus): Order {
    Order(id, req.clientOrderId, req.symbol, req.side, req.orderType, req.price, req.quantity, 0, req.quantity, status)
  }

  function SubmitRiskRejected(s: Oms, req: NewOrderRequest, error: OemsError): Oms {
    var id := s.nextOrderId;
    var rejected := OrderFor(req, id, OrderStatus.Rejected);
    var s1 := s.(nextOrderId := id + 1, orders := s.orders[id := rejected]);
    var s2 := AppendEvent(s1, id, NewRequested, req.clientOrderId);
    var s3 := AppendEvent(s2, id, EventType.Rejected, ErrorName(error));
    s3.(tables := SaveOrder(s3.tables, rejected))
  }

  function SubmitEngineRejected(s: Oms, order: Order, error: OemsError): Oms {
    var rejected := order.(status := OrderStatus.Rejected);
    var s1 := s.(orders := s.orders[rejected.internalId := rejected]);
    var s2 := AppendEvent(s1, rejected.internalId, EventType.Rejected, ErrorName(error));
    s2.(tables := SaveOrder(s2.tables, rejected))
  }

  /** The status an order ends its submission with. */
  function FinalStatus(o: Order): OrderStatus {
    if o.remainingQty == 0 then OrderStatus.Filled
    else if o.orderType.Market? then (if o.filledQty > 0 then OrderStatus.PartiallyFilled else OrderStatus.Rejected)
    else if o.filledQty > 0 then OrderStatus.PartiallyFilled
    else o.status
  }

  function NoLiquidityDetail(): string {
    "no liquidity for market order"
  }

  lemma NoLiquidityDetailIsNulFree()
    ensures NulFree(NoLiquidityDetail())
  {}

  /** Apply the fills of an accepted order and store it. */
  function SubmitAccepted(s: Oms, pending: Order, fills: seq<Types.Fill>): (Oms, Order) {
    var accepted := pending.(status := OrderStatus.Accepted);
    var s1 := AppendEvent(s, accepted.internalId, EventType.Accepted, "");
    var (s2, filled) := ApplyFills(s1, accepted, fills);
    var order := filled.(status := FinalStatus(filled));
    var s3 := if order.status.Rejected?
              then AppendEvent(s2, order.internalId, EventType.Rejected, NoLiquidityDetail()) else s2;
    var s4 := s3.(orders := s3.orders[order.internalId := order]);
    (s4.(tables := SaveOrder(s4.tables, order)), order)
  }

  function IncomingOf(o: Order): Incoming {
    Incoming(o.symbol, o.internalId, o.side, o.orderType, o.price)
  }

  /** The engine's part of a submission: the symbol's book is created on first use, and execution ids are global. */
  ghost function EngineAdd(s: Oms, o: Order): (r: (Oms, Result<AddOrderResult>))
    requires BooksWellFormed(s.books)
  {
    BookOfIsWellFormed(s.books, o.symbol);
    var (rest, result) := PriceTime.AddOrder(BookOf(s.books, o.symbol), IncomingOf(o), o.orderQty, s.nextExecutionId);
    (s.(books := s.books[o.symbol := rest],
        nextExecutionId := s.nextExecutionId + (if result.Ok? then |result.value.fills| else 0)), result)
  }

  /** Submit a new order; `verdict` is the risk error, if any. */
  ghost function Submit(s: Oms, req: NewOrderRequest, verdict: Option<OemsError>): (r: (Oms, Result<Order>))
    requires BooksWellFormed(s.books)
  {
    if Validate(req).Some? then (s, Err(Validate(req).value))
    else if verdict.Some? then (SubmitRiskRejected(s, req, verdict.value), Err(verdict.value))
    else
      var id := s.nextOrderId;
      var pending := OrderFor(req, id, PendingNew);
      var s1 := AppendEvent(s.(nextOrderId := id + 1), id, NewRequested, req.clientOrderId);
      var (s2, result) := EngineAdd(s1, pending);
      if result.Err? then (SubmitEngineRejected(s2, pending, result.error), Err(result.error))
      else
        var (s3, order) := SubmitAccepted(s2, pending, result.value.fills);
        (s3, Ok(order))
  }

  // ---------- Cancel ----------

  /** The engine's answer to a cancel request: an error, or none. */
  ghost function EngineCancelError(books: map<Symbol, seq<BookEntry>>, symbol: Symbol, id: OrderId): Option<OemsError> {
    if symbol !in books then Some(BookNotFound)
    else if !HasId(books[symbol], id) then Some(OrderNotFound)
    else None
  }

  ghost function Cancel(s: Oms, id: OrderId): (Oms, Result<Order>) {
    if id !in s.orders then (s, Err(OrderNotFound))
    else
      var order := s.orders[id];
      if order.status.Filled? || order.status.Cancelled? || order.status.Rejected? then (s, Err(InvalidStateTransition))
      else
        var s1 := AppendEvent(s, order.internalId, CancelRequested, "");
        var error := EngineCancelError(s.books, order.symbol, order.internalId);
        if error.Some? then (s1, Err(error.value))
        else
          var cancelled := order.(status := OrderStatus.Cancelled);
          var s2 := s1.(books := s1.books[order.symbol := Without(s1.books[order.symbol], order.internalId)],
                        orders := s1.orders[id := cancelled]);
          var s3 := AppendEvent(s2, order.internalId, EventType.Cancelled, "");
          (s3.(tables := SaveOrder(s3.tables, cancelled)), Ok(cancelled))
  }

  // ---------- Restore ----------

  /** Orders that go back on a book. */
  predicate RestsOnBook(o: Order) {
    (o.status.Accepted? || o.status.PartiallyFilled?) && o.orderType.Limit? && o.remainingQty > 0
  }

  function EntryOf(o: Order): BookEntry {
    BookEntry(o.internalId, o.side, o.price, o.remainingQty)
  }

  ghost function RestoreError(rest: seq<BookEntry>, o: Order): Option<OemsError> {
    if o.remainingQty <= 0 then Some(InvalidQuantity)
    else if o.price <= 0 then Some(InvalidPrice)
    else if HasId(rest, o.internalId) then Some(DuplicateOrder)
    else None
  }

  /** Reload one order; the error, if any, stops the restore. */
  ghost function RestoreOrder(s: Oms, o: Order): (Oms, Option<OemsError>) {
    var s1 := s.(orders := s.orders[o.internalId := o]);
    if !RestsOnBook(o) then (s1, None)
    else
      var rest := BookOf(s.books, o.symbol);
      var error := RestoreError(rest, o);
      (s1.(books := s1.books[o.symbol := if error.None? then rest + [EntryOf(o)] else rest]), error)
  }

  ghost function RestoreOrders(s: Oms, orders: seq<Order>): (Oms, Option<OemsError>)
    decreases |orders|
  {
    if orders == [] then (s, None)
    else
      var (s1, error) := RestoreOrder(s, orders[0]);
      if error.Some? then (s1, error) else RestoreOrders(s1, orders[1..])
  }

  function MaxOrderId(orders: seq<Order>): nat {
    if orders == [] then 0 else Max(MaxOrderId(orders[..|orders| - 1]), orders[|orders| - 1].internalId)
  }

  function MaxEventId(events: seq<OrderEvent>): nat {
    if events == [] then 0 else Max(MaxEventId(events[..|events| - 1]), events[|events| - 1].eventId)
  }

  function MaxExecutionId(fills: seq<Types.Fill>): nat {
    if fills == [] then 0 else Max(MaxExecutionId(fills[..|fills| - 1]), fills[|fills| - 1].executionId)
  }

  /** Reload everything from the tables. */
  ghost function Restore(s: Oms): (Oms, Result<()>) {
    var orders, events, executions := SortedRows(s.tables.orders), SortedRows(s.tables.events), SortedRows(s.tables.executions);
    var s1 := s.(orders := map[], events := events, executions := executions,
                 nextExecutionId := Max(1, MaxExecutionId(executions) + 1));
    var (s2, error) := RestoreOrders(s1, orders);
    if error.Some? then (s2, Err(error.value))
    else (s2.(nextOrderId := MaxOrderId(orders) + 1, nextEventId := MaxEventId(events) + 1), Ok(()))
  }

  /** A newly started process on existing tables, before it restores. */
  function Started(tables: Tables): Oms {
    Oms(map[], [], [], 1, 1, map[], 1, tables)
  }

  /** A restart: a new process restores from the tables the old one left. */
  ghost function Restarted(s: Oms): Oms {
    Restore(Started(s.tables)).0
  }

  function Initial(): Oms {
    Started(Tables(map[], map[], map[]))
  }
}
