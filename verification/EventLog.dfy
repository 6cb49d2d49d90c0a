/** The event log as a language: what sequences of events one order may have, and the status they add up to. */
module EventLog {
  import opened Types
  import opened Lifecycle
  import opened Agreement
  import Text

  /** Where replaying an order's events has arrived. `Asked` is a partly filled market order that was asked to be cancelled. */
  datatype Phase = Unborn | At(status: OrderStatus) | Asked | Illegal

  /**
  The lifecycle automaton. A limit order that is asked to be cancelled is cancelled by the next event; a partly
  filled market order rests nowhere, so after a cancel request only further ones may follow.
  */
  function NextPhase(t: OrderType, p: Phase, e: EventType): Phase {
    match p
    case Unborn => if e.NewRequested? then At(PendingNew) else Illegal
    case Illegal => Illegal
    case Asked => if e.CancelRequested? then Asked else Illegal
    case At(status) =>
      match status
      case PendingNew =>
        if e.Accepted? then At(OrderStatus.Accepted) else if e.Rejected? then At(OrderStatus.Rejected) else Illegal
      case Accepted =>
        if e.PartialFill? then At(PartiallyFilled)
        else if e.Fill? then At(Filled)
        else if e.Rejected? && t.Market? then At(OrderStatus.Rejected)
        else if e.CancelRequested? && t.Limit? then At(PendingCancel)
        else Illegal
      case PartiallyFilled =>
        if e.PartialFill? then At(PartiallyFilled)
        else if e.Fill? then At(Filled)
        else if e.CancelRequested? then (if t.Limit? then At(PendingCancel) else Asked)
        else Illegal
      case PendingCancel => if e.Cancelled? then At(OrderStatus.Cancelled) else Illegal
      case Filled => Illegal
      case Cancelled => Illegal
      case Rejected => Illegal
  }

  /** The phase of an order that is stored with the status of `o`. */
  predicate Shows(p: Phase, o: Order) {
    p == At(o.status) || (p.Asked? && o.orderType.Market? && o.status.PartiallyFilled?)
  }

  /** Replay the events of one order. */
  ghost function Replay(events: seq<OrderEvent>, id: OrderId, t: OrderType): Phase {
    if events == [] then Unborn
    else
      var e := events[|events| - 1];
      var p := Replay(events[..|events| - 1], id, t);
      if e.orderId == id then NextPhase(t, p, e.eventType) else p
  }

  /** Replaying the log gives every stored order its stored status, and logs no order that is not stored. */
  ghost predicate LogAgrees(orders: Orders, events: seq<OrderEvent>) {
    && (forall id | id in orders :: Shows(Replay(events, id, orders[id].orderType), orders[id]))
    && (forall k | 0 <= k < |events| :: events[k].orderId in orders)
  }

  predicate IsFillEvent(e: OrderEvent) {
    e.eventType.Fill? || e.eventType.PartialFill?
  }

  /** The fill events of the log, in order. */
  ghost function FillEvents(events: seq<OrderEvent>): seq<OrderEvent> {
    if events == [] then []
    else
      var n := |events| - 1;
      FillEvents(events[..n]) + (if IsFillEvent(events[n]) then [events[n]] else [])
  }

  /** The event tells one of the two orders of an execution its number and quantity. */
  ghost predicate ReportsFill(e: OrderEvent, id: OrderId, f: Types.Fill) {
    e.orderId == id && e.detail == "exec=" + Text.Decimal(f.executionId) + " qty=" + Text.Decimal(f.quantity)
  }

  /** The fill events come in pairs, one pair an execution and in their order: first for the passive order, then for the other. */
  ghost predicate FillsAreLogged(fillEvents: seq<OrderEvent>, executions: seq<Types.Fill>) {
    && |fillEvents| == 2 * |executions|
    && forall k | 0 <= k < |executions| ::
         && ReportsFill(fillEvents[2 * k], executions[k].passiveId, executions[k])
         && ReportsFill(fillEvents[2 * k + 1], executions[k].aggressiveId, executions[k])
  }

  /**
  What an event says: a request gives the client order id, a rejection the name of an error or the lack of liquidity, and
  only fills say more.
  */
  ghost predicate DetailOk(e: OrderEvent, o: Order) {
    match e.eventType
    case NewRequested => e.detail == o.clientOrderId
    case Rejected => e.detail == "no liquidity for market order" || exists error :: e.detail == Text.ErrorName(error)
    case Fill => Text.NulFree(e.detail)
    case PartialFill => Text.NulFree(e.detail)
    case _ => e.detail == ""
  }

  ghost predicate DetailsAreOurs(orders: Orders, events: seq<OrderEvent>) {
    forall k | 0 <= k < |events| :: events[k].orderId in orders && DetailOk(events[k], orders[events[k].orderId])
  }

  /** The status the fills logged so far give an accepted order. */
  function LogStatus(o: Order): OrderStatus {
    if o.filledQty == 0 then OrderStatus.Accepted
    else if o.remainingQty == 0 then OrderStatus.Filled
    else OrderStatus.PartiallyFilled
  }

  lemma ReplayAppend(events: seq<OrderEvent>, e: OrderEvent, id: OrderId, t: OrderType)
    ensures Replay(events + [e], id, t)
         == if e.orderId == id then NextPhase(t, Replay(events, id, t), e.eventType) else Replay(events, id, t)
  {
    assert (events + [e])[..|events|] == events;
  }

  lemma {:induction false} ReplayUnborn(events: seq<OrderEvent>, id: OrderId, t: OrderType)
    requires forall k | 0 <= k < |events| :: events[k].orderId != id
    ensures Replay(events, id, t) == Unborn
  {
    if events != [] { ReplayUnborn(events[..|events| - 1], id, t); }
  }

  lemma FillEventsAppend(events: seq<OrderEvent>, e: OrderEvent)
    ensures FillEvents(events + [e]) == FillEvents(events) + (if IsFillEvent(e) then [e] else [])
  {
    assert (events + [e])[..|events|] == events;
  }

  lemma OtherEventsAreNoFills(events: seq<OrderEvent>, e: OrderEvent)
    requires !IsFillEvent(e)
    ensures FillEvents(events + [e]) == FillEvents(events)
  {
    FillEventsAppend(events, e);
  }

  /** Two more fill events for one more execution. */
  lemma FillsStayLogged(events: seq<OrderEvent>, executions: seq<Types.Fill>, f: Types.Fill, e1: OrderEvent, e2: OrderEvent)
    requires FillsAreLogged(FillEvents(events), executions)
    requires IsFillEvent(e1) && IsFillEvent(e2) && ReportsFill(e1, f.passiveId, f) && ReportsFill(e2, f.aggressiveId, f)
    ensures FillsAreLogged(FillEvents(events + [e1] + [e2]), executions + [f])
  {
    hide ReportsFill, FillEvents;
    FillEventsAppend(events, e1);
    FillEventsAppend(events + [e1], e2);
    var before, after := FillEvents(events), FillEvents(events + [e1] + [e2]);
    var n := |executions|;
    assert after[2 * n] == e1 && after[2 * n + 1] == e2;
    forall k | 0 <= k < n + 1
      ensures ReportsFill(after[2 * k], (executions + [f])[k].passiveId, (executions + [f])[k])
      ensures ReportsFill(after[2 * k + 1], (executions + [f])[k].aggressiveId, (executions + [f])[k])
    {
      if k < n { assert after[2 * k] == before[2 * k] && after[2 * k + 1] == before[2 * k + 1]; }
    }
  }

  /** One more event for a stored order, moving it to the status it is stored with. */
  lemma EventKeepsLog(orders: Orders, events: seq<OrderEvent>, e: OrderEvent, o: Order)
    requires LogAgrees(orders, events) && e.orderId in orders
    requires o.orderType == orders[e.orderId].orderType
    requires Shows(NextPhase(o.orderType, Replay(events, e.orderId, o.orderType), e.eventType), o)
    ensures LogAgrees(orders[e.orderId := o], events + [e])
  {
    var after := orders[e.orderId := o];
    forall id | id in after ensures Shows(Replay(events + [e], id, after[id].orderType), after[id]) {
      ReplayAppend(events, e, id, after[id].orderType);
    }
  }

  /** The first event of a new order. */
  lemma FirstEventKeepsLog(orders: Orders, events: seq<OrderEvent>, e: OrderEvent, o: Order)
    requires LogAgrees(orders, events) && e.orderId !in orders && e.eventType.NewRequested? && o.status.PendingNew?
    ensures LogAgrees(orders[e.orderId := o], events + [e])
  {
    var after := orders[e.orderId := o];
    forall id | id in after ensures Shows(Replay(events + [e], id, after[id].orderType), after[id]) {
      ReplayAppend(events, e, id, after[id].orderType);
      if id == e.orderId { ReplayUnborn(events, id, after[id].orderType); }
    }
  }

  lemma DetailsKept(orders: Orders, events: seq<OrderEvent>, e: OrderEvent, o: Order)
    requires DetailsAreOurs(orders, events)
    requires e.orderId in orders ==> o.clientOrderId == orders[e.orderId].clientOrderId
    requires DetailOk(e, o)
    ensures DetailsAreOurs(orders[e.orderId := o], events + [e])
  {}

  /** Nothing follows a final status: after an event that filled, cancelled or rejected an order there is none for it. */
  lemma {:induction false} NothingFollowsTheEnd(events: seq<OrderEvent>, id: OrderId, t: OrderType, k: nat)
    requires Replay(events, id, t) != Illegal
    requires k < |events| && events[k].orderId == id
    requires events[k].eventType.Fill? || events[k].eventType.Cancelled? || events[k].eventType.Rejected?
    ensures forall j | k < j < |events| :: events[j].orderId != id
    ensures Replay(events, id, t).At?
    ensures var s := Replay(events, id, t).status; s.Filled? || s.Cancelled? || s.Rejected?
  {
    var n := |events| - 1;
    if k < n {
      assert Replay(events[..n], id, t) != Illegal;
      NothingFollowsTheEnd(events[..n], id, t, k);
      assert forall j | k < j < n :: events[..n][j].orderId != id;
    }
  }

  /** A cancel request for a market order leads nowhere: only further requests follow it. */
  lemma {:induction false} OnlyRequestsFollow(events: seq<OrderEvent>, id: OrderId, k: nat)
    requires Replay(events, id, Market) != Illegal
    requires k < |events| && events[k].orderId == id && events[k].eventType.CancelRequested?
    ensures Replay(events, id, Market) == Asked
    ensures forall j | k < j < |events| && events[j].orderId == id :: events[j].eventType.CancelRequested?
  {
    var n := |events| - 1;
    assert Replay(events[..n], id, Market) != Illegal;
    if k < n {
      OnlyRequestsFollow(events[..n], id, k);
      forall j | k < j < n && events[j].orderId == id ensures events[j].eventType.CancelRequested? {
        assert events[..n][j] == events[j];
      }
    }
  }

  /** And it is what the phase `Asked` stands for. */
  lemma {:induction false} AskedWasRequested(events: seq<OrderEvent>, id: OrderId, t: OrderType) returns (k: nat)
    requires Replay(events, id, t) == Asked
    ensures k < |events| && events[k].orderId == id && events[k].eventType.CancelRequested?
  {
    var n := |events| - 1;
    if events[n].orderId == id && events[n].eventType.CancelRequested? {
      k := n;
    } else {
      k := AskedWasRequested(events[..n], id, t);
    }
  }
}
