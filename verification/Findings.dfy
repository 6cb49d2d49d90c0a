/** Concrete runs that show where a restart is visible, and what a NUL in a symbol does to one. */
module Findings {
  import opened Types
  import opened PriceTime
  import opened Lifecycle
  import opened Agreement
  import opened Invariant
  import opened Recovery
  import opened Runs
  import Text

  /** Submitting a limit order to a book with nothing resting: it rests whole. */
  lemma SubmitToEmptyBook(s: Oms, req: NewOrderRequest)
    requires Inv(s) && BooksWellFormed(s.books) && Validate(req).None? && req.orderType.Limit?
    requires BookOf(s.books, req.symbol) == []
    ensures var s' := Submit(s, req, None).0;
            && Inv(s') && s'.nextOrderId == s.nextOrderId + 1
            && s'.orders == s.orders[s.nextOrderId := OrderFor(req, s.nextOrderId, OrderStatus.Accepted)]
  {
    hide Inv, Submit, RestingOrders;
    AcceptanceKeepsInv(s, req);
    var pending := OrderFor(req, s.nextOrderId, PendingNew);
    MatchStops([], IncomingOf(pending), pending.orderQty, s.nextExecutionId);
  }

  function SymbolX(): Symbol { "A\0x" }

  function SymbolY(): Symbol { "A\0y" }

  /** Two orders whose symbols differ only behind a NUL. */
  function NulRun(): seq<Op> {
    [SubmitOp(NewOrderRequest("", SymbolX(), Buy, Limit, 100, 1), None),
     SubmitOp(NewOrderRequest("", SymbolY(), Sell, Limit, 90, 1), None)]
  }

  lemma TruncatedSymbols()
    ensures Text.CString(SymbolX()) == "A" && Text.CString(SymbolY()) == "A"
    ensures SymbolX() != SymbolY() && SymbolX() != "" && SymbolY() != ""
  {
    assert SymbolX()[1..][0] == '\0' && SymbolY()[1..][0] == '\0';
    assert SymbolX()[2] != SymbolY()[2];
  }

  /** The running process after both orders: each rests in its own book. */
  lemma NulRunOrders()
    ensures var s := Reached(NulRun());
            && NeverCrossed(s) && s.nextOrderId == 3 && s.orders.Keys == {1, 2}
            && s.orders[1] == OrderFor(NulRun()[0].req, 1, OrderStatus.Accepted)
            && s.orders[2] == OrderFor(NulRun()[1].req, 2, OrderStatus.Accepted)
  {
    hide Inv, Submit, SymbolX, SymbolY, NeverCrossed;
    TruncatedSymbols();
    InitialInv();
    var ops := NulRun();
    RunOfTwo(Initial(), ops);
    var s1 := Step(Initial(), ops[0]);
    InvMeansWellFormedBooks(Initial());
    SubmitToEmptyBook(Initial(), ops[0].req);
    InvMeansWellFormedBooks(s1);
    BookWithoutOrders(s1, ops[1].req.symbol);
    SubmitToEmptyBook(s1, ops[1].req);
    StepIsUncrossed(Initial(), ops[0]);
    StepIsUncrossed(s1, ops[1]);
  }

  /**
  The rows keep only "A" of both symbols, so both orders are restored into one book, and that book is crossed:
  a resting buy at 100 next to a resting sell at 90. The running process never had a crossed book.
  */
  lemma NulSymbolsCanCrossTheRestoredBook()
    ensures var s := Reached(NulRun());
            && NeverCrossed(s)
            && !Uncrossed(BookOf(Restarted(s).books, "A"))
  {
    hide Inv, Reached, RestingOrders, Restarted, NeverCrossed, Uncrossed, SymbolX, SymbolY, Text.CString;
    NulRunOrders();
    TruncatedSymbols();
    var s := Reached(NulRun());
    RestoreNeverFails(s);
    var rows := Rows(s.orders);
    assert rows[1] == OrderRow(s.orders[1]) && rows[2] == OrderRow(s.orders[2]);
    assert rows[1].symbol == "A" && rows[2].symbol == "A";
    assert BookOf(Restarted(s).books, "A") == RestingOrders(rows, "A", 3);
    BookOfTwo(rows, "A");
    TwoCross(EntryOf(rows[1]), EntryOf(rows[2]));
  }

  lemma TwoCross(bid: BookEntry, ask: BookEntry)
    requires bid.side.Buy? && ask.side.Sell? && bid.price >= ask.price
    ensures !Uncrossed([bid, ask])
  {
    assert [bid, ask][0].price >= [bid, ask][1].price;
  }

  lemma RunOfTwo(s: Oms, ops: seq<Op>)
    requires Inv(s) && |ops| == 2
    ensures Inv(Step(s, ops[0])) && Run(s, ops) == Step(Step(s, ops[0]), ops[1])
  {
    hide Inv, Step;
    RunUnfold(s, ops);
    var s1 := Step(s, ops[0]);
    RunUnfold(s1, ops[1..]);
    assert ops[1..][0] == ops[1] && ops[1..][1..] == [];
    RunOfNothing(Step(s1, ops[1]), []);
  }

  /** A book is empty when no order of the table names its symbol. */
  lemma BookWithoutOrders(s: Oms, symbol: Symbol)
    requires Inv(s) && forall id | id in s.orders :: s.orders[id].symbol != symbol
    ensures BookOf(s.books, symbol) == []
  {
    hide RestingOrders;
    InvBook(s, symbol);
    NoneResting(s.orders, symbol, s.nextOrderId);
  }

  lemma {:induction false} NoneResting(orders: Orders, symbol: Symbol, n: OrderId)
    requires forall id: OrderId | id < n :: !RestsFor(orders, symbol, id)
    ensures RestingOrders(orders, symbol, n) == []
  {
    if n > 0 {
      hide RestingOrders;
      RestingOrdersLast(orders, symbol, n);
      NoneResting(orders, symbol, n - 1);
    } else {
      assert RestingOrders(orders, symbol, n) == [];
    }
  }

  lemma BookOfTwo(orders: Orders, symbol: Symbol)
    requires !RestsFor(orders, symbol, 0) && RestsFor(orders, symbol, 1) && RestsFor(orders, symbol, 2)
    ensures RestingOrders(orders, symbol, 3) == [EntryOf(orders[1]), EntryOf(orders[2])]
  {
    hide RestingOrders;
    NoneResting(orders, symbol, 1);
    RestingOrdersLast(orders, symbol, 2);
    RestingOrdersLast(orders, symbol, 3);
  }

  /** A resting sell of 5, taken by a market buy of 10: the buy is left partly filled, and the book exists but is empty. */
  function MarketRun(): seq<Op> {
    [SubmitOp(NewOrderRequest("a", "S", Sell, Limit, 100, 5), None),
     SubmitOp(NewOrderRequest("b", "S", Buy, Market, 0, 10), None)]
  }

  /** The running process after both orders. */
  lemma MarketRunState()
    ensures var s := Reached(MarketRun());
            && s.nextOrderId == 3 && "S" in s.books && s.orders.Keys == {1, 2} && Clean(s)
            && s.orders[2].orderType.Market? && s.orders[2].status.PartiallyFilled? && s.orders[2].symbol == "S"
            && s.orders[1].status.Filled?
  {
    hide Inv, Submit, RestingOrders, Match;
    InitialInv();
    var ops := MarketRun();
    RunOfTwo(Initial(), ops);
    var s1 := Step(Initial(), ops[0]);
    InvMeansWellFormedBooks(Initial());
    SubmitToEmptyBook(Initial(), ops[0].req);
    InvMeansWellFormedBooks(s1);
    MarketTakesAll(s1, ops[1].req);
  }

  /** Cancelling that market order is answered one way before a restart and another way after it. */
  lemma RestartChangesACancelAnswer()
    ensures var s := Reached(MarketRun());
            Cancel(s, 2).1 == Err(OrderNotFound) && Cancel(Restarted(s), 2).1 == Err(BookNotFound)
  {
    hide Inv, Reached, Cancel, RestingOrders, Restarted, Clean, AppendEvent, AfterCancel;
    MarketRunState();
    var s := Reached(MarketRun());
    NoneResting(s.orders, "S", 3);
    InvBook(s, "S");
    CancelCases(s, 2);
    RestoreNeverFails(s);
    RecoveryIsExactIffNulFree(s);
    SameStateKeepsInv(Restarted(s), s);
    assert BookOf(Restarted(s).books, "S") == BookOf(s.books, "S");
    CancelCases(Restarted(s), 2);
  }

  /** The market order of the run above against the one resting order. */
  lemma MarketTakesAll(s: Oms, req: NewOrderRequest)
    requires Inv(s) && BooksWellFormed(s.books) && s.nextOrderId == 2 && 0 !in s.orders && 1 in s.orders
    requires req.symbol != "" && req.side.Buy? && req.orderType.Market? && req.quantity == 10
    requires var e := s.orders[1]; RestsOnBook(e) && e.symbol == req.symbol && e.side.Sell? && e.remainingQty == 5 && e.price > 0 && e.internalId == 1
    ensures var s' := Submit(s, req, None).0;
            && s'.nextOrderId == 3 && req.symbol in s'.books && s'.orders.Keys == s.orders.Keys + {2}
            && s'.orders[1] == PassiveAfter(s.orders[1], 5)
            && s'.orders[2] == OrderFor(req, 2, PendingNew).(filledQty := 5, remainingQty := 5, status := OrderStatus.PartiallyFilled)
  {
    hide Inv, Submit, RestingOrders, Match, Scan, AfterFills, AllFit, EngineMatch;
    AcceptanceKeepsInv(s, req);
    var pending := OrderFor(req, 2, PendingNew);
    var o := IncomingOf(pending);
    InvBook(s, req.symbol);
    NoneResting(s.orders, req.symbol, 1);
    RestingOrdersLast(s.orders, req.symbol, 2);
    var e := EntryOf(s.orders[1]);
    var f := FillOf(o, e, s.nextExecutionId, 5);
    OneEntryTaken(e, o, s.nextExecutionId);
    EngineMatchIs(s, pending, e, f);
    OneFill(s.orders, o, f);
  }

  lemma EngineMatchIs(s: Oms, pending: Order, e: BookEntry, f: Types.Fill)
    requires BooksWellFormed(s.books) && pending.orderQty == 10 && BookOf(s.books, pending.symbol) == [e] && e.remaining > 0 && e.price > 0
    requires Match([e], IncomingOf(pending), 10, s.nextExecutionId) == Matched([], [f], 5)
    ensures EngineMatch(s, pending) == Matched([], [f], 5)
  {
    hide Match;
  }

  lemma OneFill(orders: Orders, o: Incoming, f: Types.Fill)
    requires AllFit(orders, o, [f], 10)
    ensures f.passiveId in orders && AfterFills(orders, o, [f], 10) == AfterFill(orders, f)
  {
    assert [f][1..] == [];
  }

  lemma OneEntryTaken(e: BookEntry, o: Incoming, exec: ExecutionId)
    requires e.side.Sell? && e.remaining == 5 && e.price > 0 && o.side.Buy? && o.orderType.Market?
    ensures Match([e], o, 10, exec) == Matched([], [FillOf(o, e, exec, 5)], 5)
  {
    hide Match, Scan;
    var rest := [e];
    BestIsFirstAmongBest(rest, Sell);
    assert rest[0].side == Sell;
    assert Best(rest, Sell) == Some(0);
    MatchUnfolds(rest, o, 10, exec);
    assert Reduce(rest, 0, 5) == [];
    assert Best([], Sell).None?;
    MatchStops([], o, 5, exec + 1);
  }
}
