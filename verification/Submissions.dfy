/** What a submission makes of its request: the answer, the order that is entered, its trades, and what the log says. */
module Submissions {
  import opened Types
  import opened PriceTime
  import opened Lifecycle
  import opened Agreement
  import opened Ledger
  import opened Durable
  import opened Settlement
  import opened Invariant
  import Allocation
  import Text

  /** The order is the one that was asked for. */
  predicate Enters(o: Order, req: NewOrderRequest) {
    && o.clientOrderId == req.clientOrderId && o.symbol == req.symbol
    && o.side == req.side && o.orderType == req.orderType && o.price == req.price && o.orderQty == req.quantity
  }

  /** A trade for a request entered under `id`: on its side, in its symbol, and within its limit. */
  predicate TradesFor(f: Types.Fill, id: OrderId, req: NewOrderRequest) {
    && f.aggressiveId == id && f.symbol == req.symbol && f.aggressiveSide == req.side && f.quantity > 0
    && (req.orderType.Limit? ==> if req.side.Buy? then f.price <= req.price else f.price >= req.price)
  }

  predicate IsValid(req: NewOrderRequest) {
    req.quantity > 0 && (req.orderType.Limit? ==> req.price > 0) && req.symbol != ""
  }

  /** What one submission of a valid request adds: one order under the next id, and the executions `fills`. */
  ghost predicate Submitted(s: Oms, s': Oms, req: NewOrderRequest, o: Order, fills: seq<Types.Fill>) {
    && s.nextOrderId !in s.orders && s'.nextOrderId == s.nextOrderId + 1
    && s'.orders.Keys == s.orders.Keys + {s.nextOrderId} && s'.orders[s.nextOrderId] == o
    && o.internalId == s.nextOrderId && Enters(o, req)
    && s'.executions == s.executions + fills
    && (forall k | 0 <= k < |fills| :: TradesFor(fills[k], s.nextOrderId, req))
    && Allocation.TotalQuantity(fills) == o.filledQty <= req.quantity
  }

  /** Invalid requests are answered in this order of errors, and change nothing. */
  lemma InvalidRequestIsAnswered(s: Oms, req: NewOrderRequest, verdict: Option<OemsError>)
    requires Inv(s) && !IsValid(req)
    ensures BooksWellFormed(s.books)
    ensures var (s', r) := Submit(s, req, verdict);
            && s' == s
            && r == Err(if req.quantity <= 0 then InvalidQuantity else if req.orderType.Limit? && req.price <= 0 then InvalidPrice else InvalidSymbol)
  {
    hide Inv;
    InvMeansWellFormedBooks(s);
  }

  /** Any valid request is entered as it was asked for, whatever risk says; a risk error is the answer, and else the order is. */
  lemma SubmissionEntersTheRequest(s: Oms, req: NewOrderRequest, verdict: Option<OemsError>) returns (o: Order, fills: seq<Types.Fill>)
    requires Inv(s) && IsValid(req)
    ensures BooksWellFormed(s.books)
    ensures var (s', r) := Submit(s, req, verdict);
            && Submitted(s, s', req, o, fills)
            && (verdict.Some? ==> r == Err(verdict.value) && o.status.Rejected? && fills == [])
            && (verdict.None? ==> r == Ok(o))
  {
    hide Inv, Submit, Submitted;
    InvMeansWellFormedBooks(s);
    assert Validate(req).None? by { ValidMeansNoError(req); }
    if verdict.Some? {
      RejectedSubmission(s, req, verdict.value);
      SubmitRejects(s, req, verdict.value);
      o, fills := OrderFor(req, s.nextOrderId, OrderStatus.Rejected), [];
    } else {
      o, fills := AcceptedSubmission(s, req);
    }
  }

  lemma ValidMeansNoError(req: NewOrderRequest)
    ensures IsValid(req) <==> Validate(req).None?
  {}

  lemma SubmitRejects(s: Oms, req: NewOrderRequest, error: OemsError)
    requires BooksWellFormed(s.books) && Validate(req).None?
    ensures Submit(s, req, Some(error)) == (SubmitRiskRejected(s, req, error), Err(error))
  {
    hide SubmitRiskRejected, SubmitAccepted, SubmitEngineRejected, EngineAdd;
  }

  lemma RejectedSubmission(s: Oms, req: NewOrderRequest, error: OemsError)
    requires Inv(s) && IsValid(req)
    ensures Submitted(s, SubmitRiskRejected(s, req, error), req, OrderFor(req, s.nextOrderId, OrderStatus.Rejected), [])
  {
    hide BooksAgree, LedgerOk, Logged, Mirrored, OrdersOk, SubmitRiskRejected;
    RiskRejectionEffect(s, req, error);
    assert s.executions + [] == s.executions;
  }

  lemma AcceptedSubmission(s: Oms, req: NewOrderRequest) returns (o: Order, fills: seq<Types.Fill>)
    requires Inv(s) && BooksWellFormed(s.books) && IsValid(req)
    ensures Submitted(s, Submit(s, req, None).0, req, o, fills) && Submit(s, req, None).1 == Ok(o)
  {
    hide Inv, Submit, AfterFills, AllFit, Match, FinalStatus;
    ValidMeansNoError(req);
    var pending := OrderFor(req, s.nextOrderId, PendingNew);
    var m := EngineMatch(s, pending);
    AcceptanceKeepsInv(s, req);
    AcceptedAnswer(s, req);
    NextIdIsFree(s);
    o, fills := SettledOrder(pending, m.remaining), m.fills;
    AfterFillsKeepIds(s.orders, IncomingOf(pending), fills, pending.orderQty);
    EngineFillsAreForRequest(s, req);
  }

  lemma NextIdIsFree(s: Oms)
    requires Inv(s)
    ensures s.nextOrderId !in s.orders
  {}

  lemma AcceptedAnswer(s: Oms, req: NewOrderRequest)
    requires Inv(s) && BooksWellFormed(s.books) && Validate(req).None?
    ensures var pending := OrderFor(req, s.nextOrderId, PendingNew);
            Submit(s, req, None).1 == Ok(SettledOrder(pending, EngineMatch(s, pending).remaining))
  {
    hide Inv, Submit, EngineMatch, FinalStatus, Settling, AllFit, AfterFills, EngineAdd;
    var settled, filled := SubmissionSettles(s, req);
  }

  /** The engine's fills are trades for the request, and add up to what it filled. */
  lemma EngineFillsAreForRequest(s: Oms, req: NewOrderRequest)
    requires Inv(s) && BooksWellFormed(s.books) && IsValid(req)
    ensures var m := EngineMatch(s, OrderFor(req, s.nextOrderId, PendingNew));
            && (forall k | 0 <= k < |m.fills| :: TradesFor(m.fills[k], s.nextOrderId, req))
            && Allocation.TotalQuantity(m.fills) == req.quantity - m.remaining && 0 <= m.remaining
  {
    hide Inv, Match;
    var pending := OrderFor(req, s.nextOrderId, PendingNew);
    var rest, o := BookOf(s.books, req.symbol), IncomingOf(pending);
    BookOfIsWellFormed(s.books, req.symbol);
    Allocation.MatchConserves(rest, o, req.quantity, s.nextExecutionId);
    MatchBoundsRemaining(rest, o, req.quantity, s.nextExecutionId);
    var m := Match(rest, o, req.quantity, s.nextExecutionId);
    forall k | 0 <= k < |m.fills| ensures TradesFor(m.fills[k], s.nextOrderId, req) {
      Allocation.FillsAreNumberedAndAcceptable(rest, o, req.quantity, s.nextExecutionId, k);
      if o.orderType.Limit? { Allocation.FillsRespectTheLimit(rest, o, req.quantity, s.nextExecutionId, k); }
    }
  }

  // ---------- What the log says about it ----------

  /** A risk rejection is logged as a request and a rejection that names the error. */
  lemma RejectionIsLogged(s: Oms, req: NewOrderRequest, error: OemsError)
    requires Inv(s) && IsValid(req)
    ensures BooksWellFormed(s.books)
    ensures Submit(s, req, Some(error)).0.events
         == s.events + [OrderEvent(s.nextEventId, s.nextOrderId, NewRequested, req.clientOrderId)]
                     + [OrderEvent(s.nextEventId + 1, s.nextOrderId, EventType.Rejected, Text.ErrorName(error))]
  {
    hide BooksAgree, LedgerOk, Logged, OrdersOk, Submit, SubmitRiskRejected, Text.ErrorName, BooksWellFormed;
    InvMeansWellFormedBooks(s);
    ValidMeansNoError(req);
    SubmitRejects(s, req, error);
    RiskRejectionEffect(s, req, error);
  }

  lemma NothingFilledMeansNoFills(fills: seq<Types.Fill>)
    requires (forall k | 0 <= k < |fills| :: fills[k].quantity > 0)
    ensures Allocation.TotalQuantity(fills) >= 0 && (Allocation.TotalQuantity(fills) == 0 ==> fills == [])
  {
    if fills != [] { NothingFilledMeansNoFills(fills[1..]); }
  }

  /** A market order that trades nothing is accepted and then rejected for lack of liquidity. */
  lemma UnfilledMarketOrderIsLogged(s: Oms, req: NewOrderRequest)
    requires Inv(s) && IsValid(req) && req.orderType.Market?
    ensures BooksWellFormed(s.books)
    ensures var (s', r) := Submit(s, req, None);
            && r.Ok?
            && (r.value.filledQty == 0 ==>
                  && r.value.status.Rejected?
                  && s'.events == s.events + [OrderEvent(s.nextEventId, s.nextOrderId, NewRequested, req.clientOrderId)]
                                           + [OrderEvent(s.nextEventId + 1, s.nextOrderId, EventType.Accepted, "")]
                                           + [OrderEvent(s.nextEventId + 2, s.nextOrderId, EventType.Rejected, "no liquidity for market order")])
  {
    hide Inv, Submit, Match, EngineAdd, InsertEvent, SaveOrder, PriceTime.AddOrder;
    var o, fills := SubmissionEntersTheRequest(s, req, None);
    ValidMeansNoError(req);
    var pending := OrderFor(req, s.nextOrderId, PendingNew);
    EngineAnswersOk(s, req);
    SubmitIsStored(s, req);
    EngineFillsAreForRequest(s, req);
    if o.filledQty == 0 {
      AcceptedAnswer(s, req);
      NothingFilledMeansNoFills(EngineMatch(s, pending).fills);
      assert EngineAdd(s, pending).1.value.fills == [];
    }
  }

  lemma EngineAnswersOk(s: Oms, req: NewOrderRequest)
    requires Inv(s) && BooksWellFormed(s.books) && IsValid(req)
    ensures var pending := OrderFor(req, s.nextOrderId, PendingNew);
            EngineAdd(s, pending).1.Ok? && EngineAdd(s, pending).1.value.fills == EngineMatch(s, pending).fills
  {
    hide Core, BooksAgree, EngineAdd, Match;
    EngineAcceptsNewOrders(s, OrderFor(req, s.nextOrderId, PendingNew));
  }
}
