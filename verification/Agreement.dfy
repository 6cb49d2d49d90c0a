/**
The order table and the books describe the same resting orders. `RestingOrders` reads a book off the order
table: the open limit orders of a symbol, in id order. Matching against that list and applying the fills to
the table are shown to be the same step.
*/
module Agreement {
  import opened Types
  import opened PriceTime
  import opened Lifecycle

  type Orders = map<OrderId, Order>

  /** What every stored order satisfies: it adds up, and its status says how much of it is filled. */
  ghost predicate OrderOk(o: Order) {
    && o.orderQty > 0 && o.filledQty >= 0 && o.remainingQty >= 0
    && o.filledQty + o.remainingQty == o.orderQty
    && (o.orderType.Limit? ==> o.price > 0)
    && !o.status.PendingNew? && !o.status.PendingCancel?
    && (o.status.Accepted? ==> o.orderType.Limit? && o.filledQty == 0)
    && (o.status.PartiallyFilled? ==> o.filledQty > 0 && o.remainingQty > 0)
    && (o.status.Filled? <==> o.remainingQty == 0)
    && (o.status.Cancelled? ==> o.orderType.Limit?)
    && (o.status.Rejected? ==> o.filledQty == 0)
  }

  ghost predicate KeyedById(orders: Orders) {
    forall id | id in orders :: orders[id].internalId == id
  }

  /** Ids are the keys, all below `n`. */
  ghost predicate OrdersOk(orders: Orders, n: OrderId) {
    forall id | id in orders :: orders[id].internalId == id && id < n && OrderOk(orders[id])
  }

  /** The book of `symbol` according to the orders with ids below `n`. */
  ghost function RestingOrders(orders: Orders, symbol: Symbol, n: OrderId): seq<BookEntry> {
    if n == 0 then []
    else
      RestingOrders(orders, symbol, n - 1)
      + (if n - 1 in orders && RestsOnBook(orders[n - 1]) && orders[n - 1].symbol == symbol
         then [EntryOf(orders[n - 1])] else [])
  }

  /** The trades an order may be given when the order table is `orders` and `qty` of it is unfilled. */
  ghost predicate Fits(orders: Orders, o: Incoming, f: Types.Fill, qty: Quantity) {
    && f.passiveId in orders
    && var p := orders[f.passiveId];
       && RestsOnBook(p) && p.symbol == o.symbol && p.side == Opposite(o.side) && p.price == f.price
       && 0 < f.quantity <= p.remainingQty && f.quantity <= qty
       && f.aggressiveId == o.id && f.aggressiveSide == o.side && f.symbol == o.symbol
       && Acceptable(o, f.price)
  }

  ghost function AfterFill(orders: Orders, f: Types.Fill): Orders
    requires f.passiveId in orders
  {
    orders[f.passiveId := PassiveAfter(orders[f.passiveId], f.quantity)]
  }

  ghost predicate AllFit(orders: Orders, o: Incoming, fills: seq<Types.Fill>, qty: Quantity)
    decreases |fills|
  {
    fills == []
    || (Fits(orders, o, fills[0], qty) && AllFit(AfterFill(orders, fills[0]), o, fills[1..], qty - fills[0].quantity))
  }

  ghost function AfterFills(orders: Orders, o: Incoming, fills: seq<Types.Fill>, qty: Quantity): Orders
    requires AllFit(orders, o, fills, qty)
    decreases |fills|
  {
    if fills == [] then orders
    else AfterFills(AfterFill(orders, fills[0]), o, fills[1..], qty - fills[0].quantity)
  }

  // ---------- Reading a book off the table ----------

  ghost predicate RestsFor(orders: Orders, symbol: Symbol, id: OrderId) {
    id in orders && RestsOnBook(orders[id]) && orders[id].symbol == symbol
  }

  lemma RestingOrdersLast(orders: Orders, symbol: Symbol, n: OrderId)
    requires n > 0
    ensures RestingOrders(orders, symbol, n)
         == if RestsFor(orders, symbol, n - 1) then RestingOrders(orders, symbol, n - 1) + [EntryOf(orders[n - 1])]
            else RestingOrders(orders, symbol, n - 1)
  {}

  /** The entries are exactly the open orders of the symbol, in increasing id order. */
  lemma {:induction false} RestingOrdersAreOpen(orders: Orders, symbol: Symbol, n: OrderId)
    requires KeyedById(orders)
    ensures var r := RestingOrders(orders, symbol, n);
            && (forall k | 0 <= k < |r| ::
                  r[k].orderId < n && RestsFor(orders, symbol, r[k].orderId) && r[k] == EntryOf(orders[r[k].orderId]))
            && (forall j, k | 0 <= j < k < |r| :: r[j].orderId < r[k].orderId)
    ensures forall id: OrderId | id < n && RestsFor(orders, symbol, id) :: EntryOf(orders[id]) in RestingOrders(orders, symbol, n)
  {
    if n > 0 {
      hide RestingOrders;
      RestingOrdersLast(orders, symbol, n);
      RestingOrdersAreOpen(orders, symbol, n - 1);
    }
  }

  lemma RestingOrdersWellFormed(orders: Orders, symbol: Symbol, n: OrderId)
    requires OrdersOk(orders, n)
    ensures WellFormed(RestingOrders(orders, symbol, n))
  {
    RestingOrdersAreOpen(orders, symbol, n);
  }

  /** Orders that differ only in what never rests on this symbol's book leave its book alone. */
  lemma {:induction false} RestingOrdersFrame(a: Orders, b: Orders, symbol: Symbol, n: OrderId)
    requires forall id: OrderId | id < n :: RestsFor(a, symbol, id) == RestsFor(b, symbol, id)
    requires forall id: OrderId | id < n && RestsFor(a, symbol, id) && RestsFor(b, symbol, id) :: EntryOf(a[id]) == EntryOf(b[id])
    ensures RestingOrders(a, symbol, n) == RestingOrders(b, symbol, n)
  {
    if n > 0 {
      hide RestingOrders;
      RestingOrdersLast(a, symbol, n);
      RestingOrdersLast(b, symbol, n);
      RestingOrdersFrame(a, b, symbol, n - 1);
    } else {
      assert RestingOrders(a, symbol, n) == [];
    }
  }

  lemma EntryIsOpen(orders: Orders, symbol: Symbol, n: OrderId, b: nat)
    requires KeyedById(orders) && b < |RestingOrders(orders, symbol, n)|
    ensures var e := RestingOrders(orders, symbol, n)[b];
            n > 0 && e.orderId < n && RestsFor(orders, symbol, e.orderId) && e == EntryOf(orders[e.orderId])
  {
    RestingOrdersAreOpen(orders, symbol, n);
  }

  /** Filling a resting order in the table is trading with its entry in the book: the newest order. */
  lemma NewestAfterFill(orders: Orders, symbol: Symbol, n: OrderId, q: Quantity)
    requires KeyedById(orders) && n > 0 && RestsFor(orders, symbol, n - 1) && 0 < q <= orders[n - 1].remainingQty
    ensures RestingOrders(orders[n - 1 := PassiveAfter(orders[n - 1], q)], symbol, n)
         == Reduce(RestingOrders(orders, symbol, n - 1) + [EntryOf(orders[n - 1])], |RestingOrders(orders, symbol, n - 1)|, q)
  {
    hide RestingOrders, Reduce;
    var orders' := orders[n - 1 := PassiveAfter(orders[n - 1], q)];
    var r' := RestingOrders(orders, symbol, n - 1);
    RestingOrdersLast(orders', symbol, n);
    RestingOrdersFrame(orders', orders, symbol, n - 1);
    ReduceAppend(r', EntryOf(orders[n - 1]), |r'|, q);
  }

  /** Filling a resting order in the table is trading with its entry in the book. */
  lemma {:induction false} RestingOrdersAfterFill(orders: Orders, symbol: Symbol, n: OrderId, b: nat, q: Quantity)
    requires KeyedById(orders)
    requires b < |RestingOrders(orders, symbol, n)|
    requires 0 < q <= RestingOrders(orders, symbol, n)[b].remaining
    ensures var id := RestingOrders(orders, symbol, n)[b].orderId;
            id in orders
            && RestingOrders(orders[id := PassiveAfter(orders[id], q)], symbol, n) == Reduce(RestingOrders(orders, symbol, n), b, q)
  {
    hide RestingOrders, Reduce, KeyedById;
    EntryIsOpen(orders, symbol, n, b);
    LastEntryIsNewest(orders, symbol, n, b);
    RestingOrdersLast(orders, symbol, n);
    var r := RestingOrders(orders, symbol, n);
    var r' := RestingOrders(orders, symbol, n - 1);
    var id := r[b].orderId;
    if id == n - 1 {
      NewestAfterFill(orders, symbol, n, q);
    } else {
      assert r[b] == r'[b];
      RestingOrdersAfterFill(orders, symbol, n - 1, b, q);
      RestingOrdersLast(orders[id := PassiveAfter(orders[id], q)], symbol, n);
      if RestsFor(orders, symbol, n - 1) { ReduceAppend(r', EntryOf(orders[n - 1]), b, q); }
    }
  }

  lemma ReduceAppend(rest: seq<BookEntry>, e: BookEntry, b: nat, q: Quantity)
    requires b <= |rest|
    ensures b < |rest| ==> Reduce(rest + [e], b, q) == Reduce(rest, b, q) + [e]
    ensures b == |rest| ==> Reduce(rest + [e], b, q) == rest + (if q == e.remaining then [] else [e.(remaining := e.remaining - q)])
  {}

  /** The entry of the newest order, if it rests, is the last one. */
  lemma LastEntryIsNewest(orders: Orders, symbol: Symbol, n: OrderId, b: nat)
    requires KeyedById(orders) && n > 0 && b < |RestingOrders(orders, symbol, n)|
    ensures var r' := RestingOrders(orders, symbol, n - 1);
            if RestingOrders(orders, symbol, n)[b].orderId == n - 1 then b == |r'| && RestsFor(orders, symbol, n - 1) else b < |r'|
  {
    hide RestingOrders;
    RestingOrdersLast(orders, symbol, n);
    RestingOrdersAreOpen(orders, symbol, n - 1);
    var r := RestingOrders(orders, symbol, n);
    var r' := RestingOrders(orders, symbol, n - 1);
    if b < |r'| { assert r[b] == r'[b]; }
  }

  lemma FillKeepsOrdersOk(orders: Orders, n: OrderId, o: Incoming, f: Types.Fill, qty: Quantity)
    requires OrdersOk(orders, n) && Fits(orders, o, f, qty)
    ensures OrdersOk(AfterFill(orders, f), n)
  {}

  lemma OtherBooksAfterFill(orders: Orders, n: OrderId, o: Incoming, f: Types.Fill, qty: Quantity, symbol: Symbol)
    requires Fits(orders, o, f, qty) && symbol != o.symbol
    ensures RestingOrders(AfterFill(orders, f), symbol, n) == RestingOrders(orders, symbol, n)
  {
    RestingOrdersFrame(AfterFill(orders, f), orders, symbol, n);
  }

  /**
  Matching a book that agrees with the table yields trades that fit the table, and applying them to the table
  yields the matched book. In particular every passive order named by a trade is known and open.
  */
  lemma {:induction false} MatchAgreesWithTable(orders: Orders, n: OrderId, o: Incoming, qty: nat, exec: ExecutionId)
    requires OrdersOk(orders, n)
    ensures AllPositive(RestingOrders(orders, o.symbol, n))
    ensures var m := Match(RestingOrders(orders, o.symbol, n), o, qty, exec);
            && AllFit(orders, o, m.fills, qty)
            && OrdersOk(AfterFills(orders, o, m.fills, qty), n)
            && RestingOrders(AfterFills(orders, o, m.fills, qty), o.symbol, n) == m.rest
    decreases |RestingOrders(orders, o.symbol, n)|, qty
  {
    hide RestingOrders, Scan, Match;
    var rest := RestingOrders(orders, o.symbol, n);
    RestingOrdersWellFormed(orders, o.symbol, n);
    if Stops(rest, o, qty) {
      MatchStops(rest, o, qty, exec);
    } else {
      var b := Top(rest, o, qty);
      var trade := Min(qty, rest[b].remaining);
      var f := FillOf(o, rest[b], exec, trade);
      MatchUnfolds(rest, o, qty, exec);
      EntryIsOpen(orders, o.symbol, n, b);
      assert Fits(orders, o, f, qty);
      FillKeepsOrdersOk(orders, n, o, f, qty);
      RestingOrdersAfterFill(orders, o.symbol, n, b, trade);
      var orders' := AfterFill(orders, f);
      MatchAgreesWithTable(orders', n, o, qty - trade, exec + 1);
      var m := Match(rest, o, qty, exec);
      assert m.fills[0] == f && m.fills[1..] == Match(Reduce(rest, b, trade), o, qty - trade, exec + 1).fills;
    }
  }

  lemma {:induction false} OtherBooksAfterFills(orders: Orders, n: OrderId, o: Incoming, fills: seq<Types.Fill>, qty: Quantity, symbol: Symbol)
    requires AllFit(orders, o, fills, qty) && symbol != o.symbol
    ensures RestingOrders(AfterFills(orders, o, fills, qty), symbol, n) == RestingOrders(orders, symbol, n)
    decreases |fills|
  {
    if fills != [] {
      OtherBooksAfterFill(orders, n, o, fills[0], qty, symbol);
      OtherBooksAfterFills(AfterFill(orders, fills[0]), n, o, fills[1..], qty - fills[0].quantity, symbol);
    }
  }

  // ---------- One order at a time ----------

  /** An order is on its symbol's book exactly when the table says it rests. */
  lemma OnBookIffResting(orders: Orders, symbol: Symbol, n: OrderId, id: OrderId)
    requires KeyedById(orders) && id < n
    ensures HasId(RestingOrders(orders, symbol, n), id) <==> RestsFor(orders, symbol, id)
  {
    hide RestingOrders;
    RestingOrdersAreOpen(orders, symbol, n);
    var r := RestingOrders(orders, symbol, n);
    if RestsFor(orders, symbol, id) {
      assert EntryOf(orders[id]) in r;
      var k :| 0 <= k < |r| && r[k] == EntryOf(orders[id]);
      assert r[k].orderId == id;
    }
  }

  /** The book after the newest order joined the table. */
  lemma RestingOrdersAfterNewest(orders: Orders, n: OrderId, order: Order, symbol: Symbol)
    requires n !in orders && order.internalId == n
    ensures RestingOrders(orders[n := order], symbol, n + 1)
         == RestingOrders(orders, symbol, n) + (if RestsOnBook(order) && order.symbol == symbol then [EntryOf(order)] else [])
  {
    hide RestingOrders;
    RestingOrdersLast(orders[n := order], symbol, n + 1);
    RestingOrdersFrame(orders[n := order], orders, symbol, n);
  }

  /** The book after an order stopped resting. */
  lemma {:induction false} RestingOrdersAfterRemoval(orders: Orders, id: OrderId, order: Order, symbol: Symbol, n: OrderId)
    requires KeyedById(orders) && id in orders && order.symbol == orders[id].symbol && !RestsOnBook(order)
    ensures RestingOrders(orders[id := order], symbol, n) == Without(RestingOrders(orders, symbol, n), id)
  {
    if n == 0 {
      assert RestingOrders(orders, symbol, n) == [] && RestingOrders(orders[id := order], symbol, n) == [];
    } else {
      hide RestingOrders;
      RestingOrdersLast(orders, symbol, n);
      RestingOrdersLast(orders[id := order], symbol, n);
      RestingOrdersAfterRemoval(orders, id, order, symbol, n - 1);
      var r := RestingOrders(orders, symbol, n - 1);
      if RestsFor(orders, symbol, n - 1) {
        assert (r + [EntryOf(orders[n - 1])])[..|r|] == r;
      }
    }
  }
}
