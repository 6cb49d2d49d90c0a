/** Double-entry bookkeeping: every execution is one trade between two known orders, and the filled quantities add up. */
module Ledger {
  import opened Types
  import opened PriceTime
  import opened Lifecycle
  import opened Agreement

  /** The quantity the executions report for an order, on whichever side it traded. */
  ghost function Executed(executions: seq<Types.Fill>, id: OrderId): Quantity {
    if executions == [] then 0
    else
      var f := executions[|executions| - 1];
      Executed(executions[..|executions| - 1], id) + (if f.aggressiveId == id || f.passiveId == id then f.quantity else 0)
  }

  /** An execution is a trade between an older resting order and a newer one, at the older one's price and within the newer one's limit. */
  ghost predicate TradeOk(orders: Orders, f: Types.Fill) {
    && f.passiveId in orders && f.aggressiveId in orders && f.passiveId < f.aggressiveId && f.quantity > 0
    && var passive, aggressive := orders[f.passiveId], orders[f.aggressiveId];
       && passive.orderType.Limit? && passive.price == f.price && Acceptable(IncomingOf(aggressive), f.price)
       && passive.symbol == aggressive.symbol == f.symbol
       && aggressive.side == f.aggressiveSide && passive.side == Opposite(f.aggressiveSide)
  }

  /** Execution ids are 1, 2, 3, ... without gaps. */
  ghost predicate ExecutionsOk(orders: Orders, executions: seq<Types.Fill>) {
    forall k | 0 <= k < |executions| :: executions[k].executionId == k + 1 && TradeOk(orders, executions[k])
  }

  ghost predicate Balances(orders: Orders, executions: seq<Types.Fill>) {
    forall id | id in orders :: orders[id].filledQty == Executed(executions, id)
  }

  /** Total filled on one side of a symbol, over the orders with ids below `n`. */
  ghost function Traded(orders: Orders, symbol: Symbol, side: Side, n: OrderId): Quantity {
    if n == 0 then 0
    else
      Traded(orders, symbol, side, n - 1)
      + (if n - 1 in orders && orders[n - 1].symbol == symbol && orders[n - 1].side == side then orders[n - 1].filledQty else 0)
  }

  /** Two orders that agree on everything a trade refers to. */
  ghost predicate SameTerms(a: Order, b: Order) {
    a.internalId == b.internalId && a.symbol == b.symbol && a.side == b.side && a.orderType == b.orderType && a.price == b.price
  }

  ghost predicate SameTermsThroughout(a: Orders, b: Orders) {
    a.Keys <= b.Keys && forall id | id in a :: SameTerms(a[id], b[id])
  }

  lemma ExecutionsOkMonotone(a: Orders, b: Orders, executions: seq<Types.Fill>)
    requires SameTermsThroughout(a, b) && ExecutionsOk(a, executions)
    ensures ExecutionsOk(b, executions)
  {
    forall k | 0 <= k < |executions| ensures TradeOk(b, executions[k]) {
      var f := executions[k];
      assert TradeOk(a, f);
      assert SameTerms(a[f.passiveId], b[f.passiveId]) && SameTerms(a[f.aggressiveId], b[f.aggressiveId]);
    }
  }

  lemma {:induction false} ExecutedAbsent(executions: seq<Types.Fill>, id: OrderId)
    requires forall k | 0 <= k < |executions| :: executions[k].aggressiveId != id && executions[k].passiveId != id
    ensures Executed(executions, id) == 0
  {
    if executions != [] { ExecutedAbsent(executions[..|executions| - 1], id); }
  }

  lemma ExecutedAppend(executions: seq<Types.Fill>, f: Types.Fill, id: OrderId)
    ensures Executed(executions + [f], id)
         == Executed(executions, id) + (if f.aggressiveId == id || f.passiveId == id then f.quantity else 0)
  {
    assert (executions + [f])[..|executions|] == executions;
  }

  /** The order table during a submission: the stored orders, and the incoming one as filled so far. */
  ghost function WithIncoming(orders: Orders, order: Order): Orders {
    orders[order.internalId := order]
  }

  ghost predicate LedgerOk(orders: Orders, executions: seq<Types.Fill>) {
    ExecutionsOk(orders, executions) && Balances(orders, executions)
  }

  /** The order table after a fill during a submission, as two single updates. */
  ghost function AfterBoth(orders: Orders, f: Types.Fill, passive: Order, aggressive: Order): Orders {
    orders[f.passiveId := passive][aggressive.internalId := aggressive]
  }

  lemma FillKeepsBalances(before: Orders, executions: seq<Types.Fill>, f: Types.Fill, passive: Order, aggressive: Order)
    requires f.passiveId in before && f.aggressiveId in before && f.passiveId != f.aggressiveId
    requires aggressive.internalId == f.aggressiveId
    requires passive.filledQty == before[f.passiveId].filledQty + f.quantity
    requires aggressive.filledQty == before[f.aggressiveId].filledQty + f.quantity
    requires Balances(before, executions)
    ensures Balances(AfterBoth(before, f, passive, aggressive), executions + [f])
  {
    var after := AfterBoth(before, f, passive, aggressive);
    forall id | id in after ensures after[id].filledQty == Executed(executions + [f], id) {
      ExecutedAppend(executions, f, id);
      assert id in before && before[id].filledQty == Executed(executions, id);
    }
  }

  /** One fill keeps the ledger: both sides gain the same quantity, and one numbered execution records it. */
  lemma FillKeepsLedger(orders: Orders, order: Order, executions: seq<Types.Fill>, f: Types.Fill, status: OrderStatus, status': OrderStatus)
    requires OrdersOk(orders, order.internalId) && order.internalId !in orders
    requires Fits(orders, IncomingOf(order), f, order.remainingQty)
    requires f.executionId == |executions| + 1
    requires LedgerOk(WithIncoming(orders, order.(status := status)), executions)
    ensures LedgerOk(WithIncoming(AfterFill(orders, f), Applied(order, f.quantity).(status := status')), executions + [f])
  {
    hide OrderOk, Executed, Balances;
    var before := WithIncoming(orders, order.(status := status));
    var passive := PassiveAfter(orders[f.passiveId], f.quantity);
    var aggressive := Applied(order, f.quantity).(status := status');
    var after := WithIncoming(AfterFill(orders, f), aggressive);
    assert after == AfterBoth(before, f, passive, aggressive);
    ExecutionsOkMonotone(before, after, executions);
    assert TradeOk(after, f);
    FillKeepsBalances(before, executions, f, passive, aggressive);
  }

  /** A new order that has not traded leaves the ledger as it is. */
  lemma NewOrderKeepsLedger(orders: Orders, executions: seq<Types.Fill>, order: Order)
    requires order.internalId !in orders && order.filledQty == 0
    requires LedgerOk(orders, executions)
    ensures LedgerOk(WithIncoming(orders, order), executions)
  {
    ExecutionsOkMonotone(orders, WithIncoming(orders, order), executions);
    forall k | 0 <= k < |executions| ensures executions[k].aggressiveId != order.internalId && executions[k].passiveId != order.internalId {
      assert TradeOk(orders, executions[k]);
    }
    ExecutedAbsent(executions, order.internalId);
  }

  /** So does a change of status. */
  lemma StatusKeepsLedger(orders: Orders, executions: seq<Types.Fill>, id: OrderId, status: OrderStatus)
    requires id in orders && LedgerOk(orders, executions)
    ensures LedgerOk(orders[id := orders[id].(status := status)], executions)
  {
    ExecutionsOkMonotone(orders, orders[id := orders[id].(status := status)], executions);
  }

  // ---------- Bought and sold ----------

  /** The quantity the executions report for a symbol. */
  ghost function Volume(executions: seq<Types.Fill>, symbol: Symbol): Quantity {
    if executions == [] then 0
    else
      var f := executions[|executions| - 1];
      Volume(executions[..|executions| - 1], symbol) + (if f.symbol == symbol then f.quantity else 0)
  }

  /** What the executions report for the orders on one side of a symbol with ids below `n`. */
  ghost function SideExecuted(orders: Orders, executions: seq<Types.Fill>, symbol: Symbol, side: Side, n: OrderId): Quantity {
    if n == 0 then 0
    else
      SideExecuted(orders, executions, symbol, side, n - 1)
      + (if n - 1 in orders && orders[n - 1].symbol == symbol && orders[n - 1].side == side then Executed(executions, n - 1) else 0)
  }

  lemma {:induction false} TradedIsExecuted(orders: Orders, executions: seq<Types.Fill>, symbol: Symbol, side: Side, n: OrderId)
    requires Balances(orders, executions)
    ensures Traded(orders, symbol, side, n) == SideExecuted(orders, executions, symbol, side, n)
  {
    if n > 0 { TradedIsExecuted(orders, executions, symbol, side, n - 1); }
  }

  lemma {:induction false} NothingExecuted(orders: Orders, symbol: Symbol, side: Side, n: OrderId)
    ensures SideExecuted(orders, [], symbol, side, n) == 0
  {
    if n > 0 { NothingExecuted(orders, symbol, side, n - 1); }
  }

  /** The order on the given side of an execution. */
  ghost function PartyOn(f: Types.Fill, side: Side): OrderId {
    if f.aggressiveSide == side then f.aggressiveId else f.passiveId
  }

  /** One more execution adds its quantity to one order on each side of its symbol. */
  lemma {:induction false} SideExecutedAppend(orders: Orders, executions: seq<Types.Fill>, f: Types.Fill, symbol: Symbol, side: Side, n: OrderId)
    requires TradeOk(orders, f)
    ensures SideExecuted(orders, executions + [f], symbol, side, n)
         == SideExecuted(orders, executions, symbol, side, n) + (if f.symbol == symbol && PartyOn(f, side) < n then f.quantity else 0)
  {
    hide Executed;
    if n > 0 {
      SideExecutedAppend(orders, executions, f, symbol, side, n - 1);
      ExecutedAppend(executions, f, n - 1);
    }
  }

  lemma {:induction false} SideExecutedIsVolume(orders: Orders, executions: seq<Types.Fill>, symbol: Symbol, side: Side, n: OrderId)
    requires forall k | 0 <= k < |executions| :: TradeOk(orders, executions[k])
    requires forall id | id in orders :: id < n
    ensures SideExecuted(orders, executions, symbol, side, n) == Volume(executions, symbol)
  {
    if executions == [] {
      NothingExecuted(orders, symbol, side, n);
    } else {
      hide Executed, SideExecuted;
      var m := |executions| - 1;
      var f := executions[m];
      assert TradeOk(orders, f) && executions == executions[..m] + [f];
      SideExecutedIsVolume(orders, executions[..m], symbol, side, n);
      SideExecutedAppend(orders, executions[..m], f, symbol, side, n);
    }
  }

  /** As much bought as sold of every symbol: both are the volume the executions report. */
  lemma BoughtEqualsSold(orders: Orders, executions: seq<Types.Fill>, symbol: Symbol, n: OrderId)
    requires LedgerOk(orders, executions) && OrdersOk(orders, n)
    ensures Traded(orders, symbol, Buy, n) == Volume(executions, symbol) == Traded(orders, symbol, Sell, n)
  {
    hide Executed, Traded, SideExecuted, Volume;
    TradedIsExecuted(orders, executions, symbol, Buy, n);
    TradedIsExecuted(orders, executions, symbol, Sell, n);
    SideExecutedIsVolume(orders, executions, symbol, Buy, n);
    SideExecutedIsVolume(orders, executions, symbol, Sell, n);
  }
}
