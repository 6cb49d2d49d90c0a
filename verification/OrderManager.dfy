/** The durable store and the order manager, proved to compute the functions of `Lifecycle`. */
module OrderManagers {
  import opened Types
  import opened PriceTime
  import opened Lifecycle
  import opened MatchingEngines
  import Text

  /** The tables. Every write succeeds, except that a plain insert of an existing key changes nothing. */
  class Database {
    var orders: map<OrderId, Order>
    var events: map<nat, OrderEvent>
    var executions: map<ExecutionId, Types.Fill>

    ghost function Tables(): Tables
      reads this
    {
      Lifecycle.Tables(orders, events, executions)
    }

    constructor ()
      ensures Tables() == Lifecycle.Tables(map[], map[], map[])
    {
      orders, events, executions := map[], map[], map[];
    }

    method SaveOrder(o: Order)
      modifies this
      ensures Tables() == Lifecycle.SaveOrder(old(Tables()), o)
      ensures var row := o.(clientOrderId := Text.CString(o.clientOrderId), symbol := Text.CString(o.symbol));
              orders == old(orders)[o.internalId := row] && events == old(events) && executions == old(executions)
    {
      orders := orders[o.internalId := OrderRow(o)];
    }

    method AppendEvent(e: OrderEvent)
      modifies this
      ensures Tables() == InsertEvent(old(Tables()), e)
      ensures orders == old(orders) && executions == old(executions)
      ensures events == if e.eventId in old(events) then old(events)
                        else old(events)[e.eventId := e.(detail := Text.CString(e.detail))]
    {
      if e.eventId !in events {
        events := events[e.eventId := EventRow(e)];
      }
    }

    method SaveExecution(f: Types.Fill)
      modifies this
      ensures Tables() == Lifecycle.SaveExecution(old(Tables()), f)
      ensures executions == old(executions)[f.executionId := f.(symbol := Text.CString(f.symbol))]
      ensures orders == old(orders) && events == old(events)
    {
      executions := executions[f.executionId := ExecutionRow(f)];
    }
  }

  class OrderManager {
    const engine: MatchingEngine
    const db: Database
    var nextOrderId: OrderId
    var nextEventId: nat
    var orders: map<OrderId, Order>
    var events: seq<OrderEvent>
    var executions: seq<Types.Fill>

    ghost predicate Valid()
      reads engine`books, engine`resting, engine.books.Values
    {
      engine.Valid()
    }

    /** Everything this manager, its engine and its database hold. */
    ghost function State(): Oms
      reads this, engine`resting, engine`nextExecutionId, db
    {
      Oms(orders, events, executions, nextOrderId, nextEventId, engine.resting, engine.nextExecutionId, db.Tables())
    }

    constructor (engine: MatchingEngine, db: Database)
      requires engine.Valid()
      ensures this.engine == engine && this.db == db && Valid()
      ensures State() == Started(db.Tables()).(books := engine.resting, nextExecutionId := engine.nextExecutionId)
    {
      this.engine, this.db := engine, db;
      nextOrderId, nextEventId := 1, 1;
      orders, events, executions := map[], [], [];
    }

    method AppendEvent(id: OrderId, eventType: EventType, detail: string)
      modifies this, db
      ensures State() == Lifecycle.AppendEvent(old(State()), id, eventType, detail)
    {
      hide InsertEvent;
      var e := OrderEvent(nextEventId, id, eventType, detail);
      nextEventId := nextEventId + 1;
      events := events + [e];
      db.AppendEvent(e);
    }

    /** Apply the fills of an incoming order to it and to the passive orders, one by one. */
    method ApplyFills(incoming: Order, fills: seq<Types.Fill>) returns (order: Order)
      modifies this, db
      ensures (State(), order) == Lifecycle.ApplyFills(old(State()), incoming, fills)
    {
      hide InsertEvent, FillDetail, ApplyFill;
      order := incoming;
      ghost var start := State();
      for k := 0 to |fills|
        invariant Lifecycle.ApplyFills(start, incoming, fills) == Lifecycle.ApplyFills(State(), order, fills[k..])
      {
        assert fills[k..][0] == fills[k] && fills[k..][1..] == fills[k + 1..];
        order := ApplyOneFill(order, fills[k]);
      }
    }

    method ApplyOneFill(incoming: Order, f: Types.Fill) returns (order: Order)
      modifies this, db
      ensures (State(), order) == ApplyFill(old(State()), incoming, f)
    {
      hide Lifecycle.AppendEvent, FillDetail, ExecutionRow, OrderRow;
      order := incoming.(filledQty := incoming.filledQty + f.quantity, remainingQty := incoming.remainingQty - f.quantity);
      ghost var s := State();
      executions := executions + [f];
      db.SaveExecution(f);
      ghost var s1 := State();
      assert s1 == s.(executions := s.executions + [f], tables := Lifecycle.SaveExecution(s.tables, f));
      ApplyToPassive(f);
      AppendEvent(order.internalId, if order.remainingQty == 0 then EventType.Fill else EventType.PartialFill, FillDetail(f));
    }

    /** The passive order's part of a fill. */
    method ApplyToPassive(f: Types.Fill)
      modifies this, db
      ensures State() == ApplyPassive(old(State()), f)
    {
      hide Lifecycle.AppendEvent, FillDetail, OrderRow;
      if f.passiveId in orders {
        ghost var s := State();
        var passive := orders[f.passiveId];
        passive := passive.(filledQty := passive.filledQty + f.quantity, remainingQty := passive.remainingQty - f.quantity);
        if passive.remainingQty == 0 {
          passive := passive.(status := OrderStatus.Filled);
        } else {
          passive := passive.(status := OrderStatus.PartiallyFilled);
        }
        orders := orders[f.passiveId := passive];
        assert State() == s.(orders := s.orders[f.passiveId := passive]);
        AppendEvent(passive.internalId, if passive.remainingQty == 0 then EventType.Fill else EventType.PartialFill, FillDetail(f));
        ghost var s2 := State();
        db.SaveOrder(passive);
        assert State() == s2.(tables := Lifecycle.SaveOrder(s2.tables, passive));
      }
    }

    /** Submit a new order; `verdict` is what the risk check of this request returns. */
    method SubmitOrder(req: NewOrderRequest, verdict: Option<OemsError>) returns (r: Result<Order>)
      requires Valid()
      modifies this, engine, engine.books.Values, db
      ensures Valid() && fresh(engine.books.Values - old(engine.books.Values))
      ensures BooksWellFormed(old(State()).books)
      ensures (State(), r) == Submit(old(State()), req, verdict)
    {
      hide MatchingEngine.Valid;
      engine.RestingIsWellFormed();
      if req.quantity <= 0 {
        return Err(InvalidQuantity);
      }
      if req.orderType.Limit? && req.price <= 0 {
        return Err(InvalidPrice);
      }
      if req.symbol == "" {
        return Err(InvalidSymbol);
      }
      if verdict.Some? {
        RejectByRisk(req, verdict.value);
        return Err(verdict.value);
      }
      r := SubmitApproved(req);
    }

    /** Keep a record of an order that risk rejected. */
    method RejectByRisk(req: NewOrderRequest, error: OemsError)
      modifies this, db
      ensures State() == SubmitRiskRejected(old(State()), req, error)
    {
      hide InsertEvent, Text.ErrorName;
      var rejected := OrderFor(req, nextOrderId, OrderStatus.Rejected);
      nextOrderId := nextOrderId + 1;
      orders := orders[rejected.internalId := rejected];
      AppendEvent(rejected.internalId, NewRequested, req.clientOrderId);
      AppendEvent(rejected.internalId, EventType.Rejected, Text.ErrorName(error));
      db.SaveOrder(rejected);
    }

    /** Send an approved order to the engine and settle what comes back. */
    method SubmitApproved(req: NewOrderRequest) returns (r: Result<Order>)
      requires Valid() && Validate(req).None?
      modifies this, engine, engine.books.Values, db
      ensures Valid() && fresh(engine.books.Values - old(engine.books.Values))
      ensures BooksWellFormed(old(State()).books)
      ensures (State(), r) == Submit(old(State()), req, None)
    {
      hide MatchingEngine.Valid, Lifecycle.AppendEvent, SubmitAccepted, SubmitEngineRejected, EngineAdd, WellFormed;
      ghost var s := State();
      engine.RestingIsWellFormed();
      var order := OrderFor(req, nextOrderId, PendingNew);
      nextOrderId := nextOrderId + 1;
      assert State() == s.(nextOrderId := s.nextOrderId + 1);
      AppendKeepsBooks(State(), order.internalId, NewRequested, req.clientOrderId);
      AppendEvent(order.internalId, NewRequested, req.clientOrderId);
      var result := AddToEngine(order);
      assert fresh(engine.books.Values - old(engine.books.Values));
      if result.Err? {
        RejectByEngine(order, result.error);
        return Err(result.error);
      }
      order := Accept(order, result.value.fills);
      r := Ok(order);
    }

    method AddToEngine(order: Order) returns (r: Result<AddOrderResult>)
      requires Valid()
      modifies engine, engine.books.Values
      ensures Valid() && fresh(engine.books.Values - old(engine.books.Values))
      ensures BooksWellFormed(old(State()).books)
      ensures (State(), r) == EngineAdd(old(State()), order)
    {
      hide MatchingEngine.Valid, PriceTime.AddOrder, WellFormed;
      ghost var s := State();
      r := engine.AddOrder(order.symbol, order.internalId, order.side, order.orderType, order.price, order.orderQty);
      assert State() == s.(books := engine.resting, nextExecutionId := engine.nextExecutionId);
    }

    lemma AppendKeepsBooks(s: Oms, id: OrderId, eventType: EventType, detail: string)
      ensures Lifecycle.AppendEvent(s, id, eventType, detail).books == s.books
      ensures Lifecycle.AppendEvent(s, id, eventType, detail).nextExecutionId == s.nextExecutionId
      ensures Lifecycle.AppendEvent(s, id, eventType, detail).orders == s.orders
    {}

    method RejectByEngine(order: Order, error: OemsError)
      modifies this, db
      ensures State() == SubmitEngineRejected(old(State()), order, error)
    {
      hide InsertEvent, Text.ErrorName;
      var rejected := order.(status := OrderStatus.Rejected);
      orders := orders[rejected.internalId := rejected];
      AppendEvent(rejected.internalId, EventType.Rejected, Text.ErrorName(error));
      db.SaveOrder(rejected);
    }

    /** Accept an order, apply its fills, decide its final status and store it. */
    method Accept(pending: Order, fills: seq<Types.Fill>) returns (order: Order)
      modifies this, db
      ensures (State(), order) == SubmitAccepted(old(State()), pending, fills)
    {
      hide Lifecycle.ApplyFills, Lifecycle.AppendEvent;
      order := pending.(status := OrderStatus.Accepted);
      AppendEvent(order.internalId, EventType.Accepted, "");
      order := ApplyFills(order, fills);
      ghost var s2, filled := State(), order;
      if order.remainingQty == 0 {
        order := order.(status := OrderStatus.Filled);
      } else if order.orderType.Market? {
        order := order.(status := if order.filledQty > 0 then OrderStatus.PartiallyFilled else OrderStatus.Rejected);
        if order.status.Rejected? {
          AppendEvent(order.internalId, EventType.Rejected, NoLiquidityDetail());
        }
      } else if order.filledQty > 0 {
        order := order.(status := OrderStatus.PartiallyFilled);
      }
      FillsKeepStatus(old(State()), pending, fills);
      assert order == filled.(status := FinalStatus(filled));
      ghost var s3 := State();
      orders := orders[order.internalId := order];
      assert State() == s3.(orders := s3.orders[order.internalId := order]);
      ghost var s4 := State();
      db.SaveOrder(order);
      assert State() == s4.(tables := Lifecycle.SaveOrder(s4.tables, order));
    }

    lemma FillsKeepStatus(s: Oms, pending: Order, fills: seq<Types.Fill>)
      ensures var accepted := pending.(status := OrderStatus.Accepted);
              Lifecycle.ApplyFills(Lifecycle.AppendEvent(s, accepted.internalId, EventType.Accepted, ""), accepted, fills).1.status.Accepted?
    {
      var accepted := pending.(status := OrderStatus.Accepted);
      FillsKeepOrderStatus(Lifecycle.AppendEvent(s, accepted.internalId, EventType.Accepted, ""), accepted, fills);
    }

    static lemma {:induction false} FillsKeepOrderStatus(s: Oms, o: Order, fills: seq<Types.Fill>)
      ensures Lifecycle.ApplyFills(s, o, fills).1.status == o.status
      decreases |fills|
    {
      hide ApplyPassive, Lifecycle.AppendEvent, FillDetail;
      if fills != [] {
        FillsKeepOrderStatus(ApplyFill(s, o, fills[0]).0, ApplyFill(s, o, fills[0]).1, fills[1..]);
      }
    }

    /** Cancel a resting order. */
    method CancelOrder(id: OrderId) returns (r: Result<Order>)
      requires Valid()
      modifies this, engine`resting, engine.books.Values, db
      ensures Valid()
      ensures (State(), r) == Cancel(old(State()), id)
    {
      hide MatchingEngine.Valid, Lifecycle.AppendEvent, EngineCancelError, Without;
      if id !in orders {
        return Err(OrderNotFound);
      }
      var order := orders[id];
      if order.status.Filled? || order.status.Cancelled? || order.status.Rejected? {
        return Err(InvalidStateTransition);
      }
      AppendKeepsBooks(State(), order.internalId, CancelRequested, "");
      AppendEvent(order.internalId, CancelRequested, "");
      var error := CancelInEngine(order);
      if error.Some? {
        return Err(error.value);
      }
      order := MarkCancelled(id, order);
      r := Ok(order);
    }

    /** Store an order the engine took off its book. */
    method MarkCancelled(id: OrderId, open: Order) returns (order: Order)
      modifies this, db
      ensures order == open.(status := OrderStatus.Cancelled)
      ensures var s := old(State());
              var s1 := Lifecycle.AppendEvent(s.(orders := s.orders[id := order]), open.internalId, EventType.Cancelled, "");
              State() == s1.(tables := Lifecycle.SaveOrder(s1.tables, order))
    {
      hide Lifecycle.AppendEvent, OrderRow;
      order := open.(status := OrderStatus.Cancelled);
      ghost var s := State();
      orders := orders[id := order];
      assert State() == s.(orders := s.orders[id := order]);
      AppendEvent(order.internalId, EventType.Cancelled, "");
      ghost var s1 := State();
      db.SaveOrder(order);
      assert State() == s1.(tables := Lifecycle.SaveOrder(s1.tables, order));
    }

    method CancelInEngine(order: Order) returns (error: Option<OemsError>)
      requires Valid()
      modifies engine`resting, engine.books.Values
      ensures Valid()
      ensures var s := old(State());
              && error == EngineCancelError(s.books, order.symbol, order.internalId)
              && (error.Some? ==> State() == s)
              && (error.None? ==>
                    order.symbol in s.books && State() == s.(books := s.books[order.symbol := Without(s.books[order.symbol], order.internalId)]))
    {
      hide MatchingEngine.Valid, Without, HasId;
      ghost var s := State();
      var r := engine.CancelOrder(order.symbol, order.internalId);
      assert State() == s.(books := engine.resting);
      error := if r.Err? then Some(r.error) else None;
    }

    /** Reload orders, events and executions, and put open limit orders back on their books. */
    method RestoreFromDatabase() returns (r: Result<()>)
      requires Valid()
      modifies this, engine, engine.books.Values
      ensures Valid() && fresh(engine.books.Values - old(engine.books.Values))
      ensures (State(), r) == Restore(old(State()))
    {
      hide MatchingEngine.Valid, RestoreOrders, SortedRows, MaxOrderId, MaxEventId, MaxExecutionId;
      var loaded := SortedRows(db.orders);
      var maxEventId := LoadLog();
      ghost var s1 := State();
      var maxOrderId, error := RestoreLoaded(loaded);
      ghost var s2 := State();
      if error.Some? {
        return Err(error.value);
      }
      nextOrderId := maxOrderId + 1;
      nextEventId := maxEventId + 1;
      assert State() == s2.(nextOrderId := maxOrderId + 1, nextEventId := maxEventId + 1);
      r := Ok(());
    }

    /** Reload events and executions, and continue the execution ids after the largest one. */
    method LoadLog() returns (maxEventId: nat)
      requires Valid()
      modifies this, engine`nextExecutionId
      ensures Valid()
      ensures var s := old(State());
              State() == s.(orders := map[], events := SortedRows(s.tables.events), executions := SortedRows(s.tables.executions),
                            nextExecutionId := Max(1, MaxExecutionId(SortedRows(s.tables.executions)) + 1))
      ensures maxEventId == MaxEventId(SortedRows(old(State()).tables.events))
    {
      hide MatchingEngine.Valid, SortedRows, MaxEventId, MaxExecutionId;
      orders, events, executions := map[], SortedRows(db.events), SortedRows(db.executions);
      maxEventId := LargestEventId(events);
      var maxExecutionId := LargestExecutionId(executions);
      engine.SeedNextExecutionId(maxExecutionId + 1);
    }

    static method LargestEventId(events: seq<OrderEvent>) returns (m: nat)
      ensures m == MaxEventId(events)
    {
      m := 0;
      for k := 0 to |events|
        invariant m == MaxEventId(events[..k])
      {
        assert events[..k + 1][..k] == events[..k];
        m := Max(m, events[k].eventId);
      }
      assert events[..|events|] == events;
    }

    static method LargestExecutionId(fills: seq<Types.Fill>) returns (m: nat)
      ensures m == MaxExecutionId(fills)
    {
      m := 0;
      for k := 0 to |fills|
        invariant m == MaxExecutionId(fills[..k])
      {
        assert fills[..k + 1][..k] == fills[..k];
        m := Max(m, fills[k].executionId);
      }
      assert fills[..|fills|] == fills;
    }

    /** The loop over the loaded orders; it stops at the first order its book refuses. */
    method RestoreLoaded(loaded: seq<Order>) returns (maxOrderId: OrderId, error: Option<OemsError>)
      requires Valid()
      modifies this`orders, engine, engine.books.Values
      ensures Valid() && fresh(engine.books.Values - old(engine.books.Values))
      ensures (State(), error) == RestoreOrders(old(State()), loaded)
      ensures error.None? ==> maxOrderId == MaxOrderId(loaded)
    {
      hide MatchingEngine.Valid, RestoreOrder;
      ghost var start := State();
      maxOrderId := 0;
      for k := 0 to |loaded|
        invariant Valid() && fresh(engine.books.Values - old(engine.books.Values))
        invariant RestoreOrders(start, loaded) == RestoreOrders(State(), loaded[k..])
        invariant maxOrderId == MaxOrderId(loaded[..k])
      {
        assert loaded[k..][0] == loaded[k] && loaded[k..][1..] == loaded[k + 1..];
        assert loaded[..k + 1][..k] == loaded[..k];
        maxOrderId := Max(maxOrderId, loaded[k].internalId);
        error := RestoreOne(loaded[k]);
        if error.Some? {
          return;
        }
      }
      error := None;
      assert loaded[..|loaded|] == loaded;
    }

    method RestoreOne(o: Order) returns (error: Option<OemsError>)
      requires Valid()
      modifies this`orders, engine, engine.books.Values
      ensures Valid() && fresh(engine.books.Values - old(engine.books.Values))
      ensures (State(), error) == RestoreOrder(old(State()), o)
    {
      hide MatchingEngine.Valid, RestoreError;
      ghost var s := State();
      orders := orders[o.internalId := o];
      assert State() == s.(orders := s.orders[o.internalId := o]);
      if (o.status.Accepted? || o.status.PartiallyFilled?) && o.orderType.Limit? && o.remainingQty > 0 {
        error := RestoreInEngine(o);
      } else {
        error := None;
      }
    }

    method RestoreInEngine(o: Order) returns (error: Option<OemsError>)
      requires Valid() && RestsOnBook(o)
      modifies engine, engine.books.Values
      ensures Valid() && fresh(engine.books.Values - old(engine.books.Values))
      ensures var s := old(State());
              var rest := BookOf(s.books, o.symbol);
              && error == RestoreError(rest, o)
              && State() == s.(books := s.books[o.symbol := if error.None? then rest + [EntryOf(o)] else rest])
    {
      hide MatchingEngine.Valid, RestoreError;
      ghost var s := State();
      var restored := engine.RestoreRestingOrder(o);
      assert State() == s.(books := engine.resting);
      error := if restored.Err? then Some(restored.error) else None;
    }
  }
}
