/** Whole runs of submissions, cancels and restarts. */
module Runs {
  import opened Types
  import opened PriceTime
  import opened Lifecycle
  import opened Agreement
  import opened Ledger
  import opened EventLog
  import opened Durable
  import opened Settlement
  import opened Invariant
  import opened Recovery
  import opened Text

  datatype Op =
    | SubmitOp(req: NewOrderRequest, verdict: Option<OemsError>)
    | CancelOp(id: OrderId)
    | RestartOp

  ghost function Step(s: Oms, op: Op): Oms
    requires Inv(s)
  {
    match op
    case SubmitOp(req, verdict) =>
      InvMeansWellFormedBooks(s);
      Submit(s, req, verdict).0
    case CancelOp(id) => Cancel(s, id).0
    case RestartOp => Restarted(s)
  }

  /** The answer to an operation; a restart answers nothing. */
  ghost function Answer(s: Oms, op: Op): seq<Result<Order>>
    requires Inv(s)
  {
    match op
    case SubmitOp(req, verdict) =>
      InvMeansWellFormedBooks(s);
      [Submit(s, req, verdict).1]
    case CancelOp(id) => [Cancel(s, id).1]
    case RestartOp => []
  }

  // ---------- Texts ----------

  ghost predicate SameTexts(a: Order, b: Order) {
    a.clientOrderId == b.clientOrderId && a.symbol == b.symbol
  }

  lemma {:induction false} FillsKeepTexts(orders: Orders, o: Incoming, fills: seq<Types.Fill>, qty: Quantity)
    requires AllFit(orders, o, fills, qty)
    ensures AfterFills(orders, o, fills, qty).Keys == orders.Keys
    ensures forall id | id in orders :: SameTexts(AfterFills(orders, o, fills, qty)[id], orders[id])
    decreases |fills|
  {
    if fills != [] {
      FillsKeepTexts(AfterFill(orders, fills[0]), o, fills[1..], qty - fills[0].quantity);
    }
  }

  /** The order table afterwards: the same orders with the same texts, and perhaps one more with the texts of the request. */
  ghost predicate TextsAfterSubmit(s: Oms, s': Oms, req: NewOrderRequest) {
    && s'.orders.Keys == s.orders.Keys + (if Validate(req).None? then {s.nextOrderId} else {})
    && (forall id | id in s.orders :: SameTexts(s'.orders[id], s.orders[id]))
    && (Validate(req).None? ==> SameTexts(s'.orders[s.nextOrderId], OrderFor(req, s.nextOrderId, PendingNew)))
  }

  lemma SubmitKeepsTexts(s: Oms, req: NewOrderRequest, verdict: Option<OemsError>)
    requires Inv(s) && BooksWellFormed(s.books)
    ensures TextsAfterSubmit(s, Submit(s, req, verdict).0, req)
  {
    hide Inv, SubmitRiskRejected, SubmitAccepted, SubmitEngineRejected, EngineAdd;
    if Validate(req).Some? {
    } else if verdict.Some? {
      RejectionKeepsTexts(s, req, verdict.value);
    } else {
      AcceptanceKeepsTexts(s, req);
    }
  }

  lemma RejectionKeepsTexts(s: Oms, req: NewOrderRequest, error: OemsError)
    requires Inv(s) && Validate(req).None?
    ensures TextsAfterSubmit(s, SubmitRiskRejected(s, req, error), req)
  {
    hide Core, BooksAgree, SubmitRiskRejected;
    RiskRejectionKeepsCore(s, req, error);
    NextIdIsUnused(s);
  }

  lemma NextIdIsUnused(s: Oms)
    requires Inv(s)
    ensures s.nextOrderId !in s.orders
  {}

  lemma AcceptanceKeepsTexts(s: Oms, req: NewOrderRequest)
    requires Inv(s) && BooksWellFormed(s.books) && Validate(req).None?
    ensures TextsAfterSubmit(s, Submit(s, req, None).0, req)
  {
    hide Inv, Submit, EngineMatch, AfterFills, AllFit, FinalStatus;
    NextIdIsUnused(s);
    AcceptanceKeepsInv(s, req);
    var pending := OrderFor(req, s.nextOrderId, PendingNew);
    FillsKeepTexts(s.orders, IncomingOf(pending), EngineMatch(s, pending).fills, pending.orderQty);
  }

  /** What an operation does to the texts of a stored order: nothing, but a restart keeps only what precedes the first NUL. */
  lemma StepKeepsTexts(s: Oms, op: Op, id: OrderId)
    requires Inv(s) && id in s.orders
    ensures id in Step(s, op).orders
    ensures SameTexts(Step(s, op).orders[id], if op.RestartOp? then OrderRow(s.orders[id]) else s.orders[id])
  {
    hide Inv, Submit, Cancel, Restarted, CString;
    match op
    case SubmitOp(req, verdict) =>
      InvMeansWellFormedBooks(s);
      SubmitKeepsTexts(s, req, verdict);
    case CancelOp(_) => CancelSucceedsIffOpen(s, op.id);
    case RestartOp => RestoreNeverFails(s);
  }

  /** The operation leaves no text with a NUL in the order table that was not there before. */
  ghost predicate StoresCleanTexts(op: Op) {
    op.SubmitOp? && Validate(op.req).None? ==> NulFree(op.req.clientOrderId) && NulFree(op.req.symbol)
  }

  lemma StepIsCleanIff(s: Oms, op: Op)
    requires Inv(s) && !op.RestartOp?
    ensures Clean(Step(s, op)) <==> Clean(s) && StoresCleanTexts(op)
  {
    hide Inv, Submit, Cancel, Restarted, NulFree;
    var s' := Step(s, op);
    match op
    case SubmitOp(req, verdict) =>
      InvMeansWellFormedBooks(s);
      SubmitKeepsTexts(s, req, verdict);
      NextIdIsUnused(s);
      if Clean(s') {
        forall id | id in s.orders ensures CleanOrder(s.orders[id]) { assert CleanOrder(s'.orders[id]); }
        if Validate(req).None? { assert CleanOrder(s'.orders[s.nextOrderId]); }
      }
      if Clean(s) && StoresCleanTexts(op) {
        forall id | id in s'.orders ensures CleanOrder(s'.orders[id]) {
          if id in s.orders { assert CleanOrder(s.orders[id]); }
        }
      }
    case CancelOp(_) =>
      CancelSucceedsIffOpen(s, op.id);
      if Clean(s') {
        forall id | id in s.orders ensures CleanOrder(s.orders[id]) { assert CleanOrder(s'.orders[id]); }
      }
  }

  // ---------- Every run ----------

  /** Every operation keeps the invariant, whatever its texts and whatever risk says. */
  lemma StepKeepsInv(s: Oms, op: Op)
    requires Inv(s)
    ensures Inv(Step(s, op))
  {
    hide Inv, Submit, Cancel, Restarted;
    match op
    case SubmitOp(req, verdict) => SubmitKeepsInv(s, req, verdict);
    case CancelOp(id) => CancelKeepsInv(s, id);
    case RestartOp => RestartKeepsInv(s);
  }

  /** The state a run ends in. Every state of every run satisfies the invariant. */
  ghost function Run(s: Oms, ops: seq<Op>): (r: Oms)
    requires Inv(s)
    ensures Inv(r)
    decreases |ops|
  {
    if ops == [] then s
    else
      StepKeepsInv(s, ops[0]);
      Run(Step(s, ops[0]), ops[1..])
  }

  /** All answers given during a run. */
  ghost function Answers(s: Oms, ops: seq<Op>): seq<Result<Order>>
    requires Inv(s)
    decreases |ops|
  {
    if ops == [] then []
    else
      StepKeepsInv(s, ops[0]);
      Answer(s, ops[0]) + Answers(Step(s, ops[0]), ops[1..])
  }

  lemma RunUnfold(s: Oms, ops: seq<Op>)
    requires Inv(s) && ops != []
    ensures Inv(Step(s, ops[0]))
    ensures Run(s, ops) == Run(Step(s, ops[0]), ops[1..])
    ensures Answers(s, ops) == Answer(s, ops[0]) + Answers(Step(s, ops[0]), ops[1..])
  {
    hide Inv, Step, Answer;
    StepKeepsInv(s, ops[0]);
  }

  lemma RunOfNothing(s: Oms, ops: seq<Op>)
    requires Inv(s) && ops == []
    ensures Run(s, ops) == s && Answers(s, ops) == []
  {
    hide Inv;
  }

  // ---------- Restarts are invisible ----------

  ghost predicate SameAnswers(a: seq<Result<Order>>, b: seq<Result<Order>>) {
    |a| == |b| && forall k | 0 <= k < |a| :: SameAnswer(a[k], b[k])
  }

  /** The operations without the restarts. */
  function WithoutRestarts(ops: seq<Op>): (kept: seq<Op>)
    ensures forall k | 0 <= k < |kept| :: !kept[k].RestartOp?
  {
    if ops == [] then []
    else (if ops[0].RestartOp? then [] else [ops[0]]) + WithoutRestarts(ops[1..])
  }

  lemma WithoutRestartsUnfold(ops: seq<Op>)
    requires ops != []
    ensures ops[0].RestartOp? ==> WithoutRestarts(ops) == WithoutRestarts(ops[1..])
    ensures !ops[0].RestartOp? ==>
              var kept := WithoutRestarts(ops); kept != [] && kept[0] == ops[0] && kept[1..] == WithoutRestarts(ops[1..])
  {}

  /** No stored text holds a NUL when a restart happens. */
  ghost predicate CleanAtRestarts(s: Oms, ops: seq<Op>)
    requires Inv(s)
    decreases |ops|
  {
    if ops == [] then true
    else
      StepKeepsInv(s, ops[0]);
      (ops[0].RestartOp? ==> Clean(s)) && CleanAtRestarts(Step(s, ops[0]), ops[1..])
  }

  lemma CleanAtRestartsUnfold(s: Oms, ops: seq<Op>)
    requires Inv(s) && ops != []
    ensures Inv(Step(s, ops[0]))
    ensures CleanAtRestarts(s, ops) <==> (ops[0].RestartOp? ==> Clean(s)) && CleanAtRestarts(Step(s, ops[0]), ops[1..])
  {
    hide Inv, Step, Clean;
    StepKeepsInv(s, ops[0]);
  }

  predicate HasRestart(ops: seq<Op>) {
    exists k :: 0 <= k < |ops| && ops[k].RestartOp?
  }

  /** Every valid request that precedes a restart has texts free of NULs. */
  ghost predicate RestartsFollowCleanTexts(ops: seq<Op>) {
    forall j, k | 0 <= j < k < |ops| && ops[k].RestartOp? :: StoresCleanTexts(ops[j])
  }

  lemma RestartsFollowUnfold(ops: seq<Op>)
    requires ops != []
    ensures HasRestart(ops) <==> ops[0].RestartOp? || HasRestart(ops[1..])
    ensures RestartsFollowCleanTexts(ops) <==> (HasRestart(ops[1..]) ==> StoresCleanTexts(ops[0])) && RestartsFollowCleanTexts(ops[1..])
  {
    hide StoresCleanTexts;
    var rest := ops[1..];
    if k :| 0 <= k < |ops| && ops[k].RestartOp? && k > 0 { assert rest[k - 1].RestartOp?; }
    if k :| 0 <= k < |rest| && rest[k].RestartOp? { assert ops[k + 1].RestartOp?; }
    if RestartsFollowCleanTexts(ops) {
      forall j, k | 0 <= j < k < |rest| && rest[k].RestartOp? ensures StoresCleanTexts(rest[j]) {
        assert rest[j] == ops[j + 1] && ops[k + 1].RestartOp?;
      }
    }
    if RestartsFollowCleanTexts(rest) && (HasRestart(rest) ==> StoresCleanTexts(ops[0])) {
      forall j, k | 0 <= j < k < |ops| && ops[k].RestartOp? ensures StoresCleanTexts(ops[j]) {
        assert rest[k - 1].RestartOp?;
        if j > 0 { assert rest[j - 1] == ops[j]; }
      }
    }
  }

  /** The condition on states, as a condition on what is handed in. */
  lemma {:induction false} CleanAtRestartsIff(s: Oms, ops: seq<Op>)
    requires Inv(s)
    ensures CleanAtRestarts(s, ops) <==> (HasRestart(ops) ==> Clean(s)) && RestartsFollowCleanTexts(ops)
    decreases |ops|
  {
    hide Inv, Clean, Step, StoresCleanTexts, CleanAtRestarts, HasRestart, RestartsFollowCleanTexts;
    if ops == [] {
      NoRestarts(s, ops);
    } else {
      var s', rest := Step(s, ops[0]), ops[1..];
      CleanAtRestartsUnfold(s, ops);
      RestartsFollowUnfold(ops);
      CleanAtRestartsIff(s', rest);
      if ops[0].RestartOp? {
        RestartStoresNothing(ops[0]);
        if Clean(s) { RestartStaysClean(s); }
      } else {
        StepIsCleanIff(s, ops[0]);
      }
    }
  }

  lemma NoRestarts(s: Oms, ops: seq<Op>)
    requires Inv(s) && ops == []
    ensures CleanAtRestarts(s, ops) && !HasRestart(ops) && RestartsFollowCleanTexts(ops)
  {
    hide Inv;
  }

  lemma RestartStoresNothing(op: Op)
    requires op.RestartOp?
    ensures StoresCleanTexts(op)
  {}

  lemma RestartStaysClean(s: Oms)
    requires Inv(s) && Clean(s)
    ensures Clean(Step(s, RestartOp))
  {
    hide Inv, Restarted, NulFree;
    RecoveryIsExactIffNulFree(s);
  }

  lemma StepRespectsSame(a: Oms, b: Oms, op: Op)
    requires SameState(a, b) && Inv(b) && Inv(a) && !op.RestartOp?
    ensures SameState(Step(a, op), Step(b, op)) && SameAnswers(Answer(a, op), Answer(b, op))
  {
    hide SameState, Inv, Submit, Cancel;
    match op
    case SubmitOp(req, verdict) =>
      InvMeansWellFormedBooks(a);
      InvMeansWellFormedBooks(b);
      if Validate(req).None? && verdict.None? { NewOrderIsAccepted(a, req); }
      SubmitRespectsSame(a, b, req, verdict);
    case CancelOp(id) => CancelRespectsSame(a, b, id);
  }

  lemma NewOrderIsAccepted(s: Oms, req: NewOrderRequest)
    requires Inv(s) && BooksWellFormed(s.books) && Validate(req).None?
    ensures EngineAdd(s, OrderFor(req, s.nextOrderId, PendingNew)).1.Ok?
  {
    hide RestingOrders, Core, BooksAgree, EngineAdd;
    EngineAcceptsNewOrders(s, OrderFor(req, s.nextOrderId, PendingNew));
  }

  lemma SameStateTransitive(a: Oms, b: Oms, c: Oms)
    requires SameState(a, b) && SameState(b, c)
    ensures SameState(a, c)
  {
    forall symbol ensures BookOf(a.books, symbol) == BookOf(c.books, symbol) {
      assert BookOf(a.books, symbol) == BookOf(b.books, symbol) == BookOf(c.books, symbol);
    }
  }

  lemma SameAnswersAppend(a1: seq<Result<Order>>, b1: seq<Result<Order>>, a2: seq<Result<Order>>, b2: seq<Result<Order>>)
    requires SameAnswers(a1, b1) && SameAnswers(a2, b2)
    ensures SameAnswers(a1 + a2, b1 + b2)
  {
    hide SameAnswer;
  }

  lemma RestartIsSame(s: Oms)
    requires Inv(s) && Clean(s)
    ensures SameState(Step(s, RestartOp), s) && Answer(s, RestartOp) == []
  {
    hide Inv, SameState, Restarted;
    RecoveryIsExactIffNulFree(s);
  }

  /** Restarts that meet no NUL change no state and no answer. */
  lemma {:induction false} CleanRestartsAreInvisible(a: Oms, b: Oms, ops: seq<Op>)
    requires SameState(a, b) && Inv(a) && Inv(b) && CleanAtRestarts(a, ops)
    ensures SameState(Run(a, ops), Run(b, WithoutRestarts(ops)))
    ensures SameAnswers(Answers(a, ops), Answers(b, WithoutRestarts(ops)))
    decreases |ops|
  {
    hide SameState, Inv, Clean, Step, Answer, SameAnswers, Run, Answers, WithoutRestarts, CleanAtRestarts;
    if ops == [] {
      NothingToAnswer(a, b, ops);
    } else {
      var op, rest, kept := ops[0], ops[1..], WithoutRestarts(ops);
      RunUnfold(a, ops);
      CleanAtRestartsUnfold(a, ops);
      WithoutRestartsUnfold(ops);
      var a' := Step(a, op);
      if op.RestartOp? {
        RestartIsSame(a);
        SameStateTransitive(a', a, b);
        CleanRestartsAreInvisible(a', b, rest);
        assert [] + Answers(a', rest) == Answers(a', rest);
      } else {
        StepRespectsSame(a, b, op);
        RunUnfold(b, kept);
        CleanRestartsAreInvisible(a', Step(b, op), rest);
        SameAnswersAppend(Answer(a, op), Answer(b, op), Answers(a', rest), Answers(Step(b, op), kept[1..]));
      }
    }
  }

  lemma NothingToAnswer(a: Oms, b: Oms, ops: seq<Op>)
    requires ops == [] && SameState(a, b) && Inv(a) && Inv(b)
    ensures SameState(Run(a, ops), Run(b, WithoutRestarts(ops)))
    ensures SameAnswers(Answers(a, ops), Answers(b, WithoutRestarts(ops)))
  {
    hide Inv, SameState;
    RunOfNothing(a, ops);
    RunOfNothing(b, WithoutRestarts(ops));
  }

  /** A text without NULs stays one, and a text is never changed but by a restart. */
  lemma {:induction false} TextsDuringRun(s: Oms, ops: seq<Op>, id: OrderId)
    requires Inv(s) && id in s.orders
    ensures id in Run(s, ops).orders
    ensures CleanOrder(s.orders[id]) ==> CleanOrder(Run(s, ops).orders[id])
    ensures !HasRestart(ops) ==> SameTexts(Run(s, ops).orders[id], s.orders[id])
    decreases |ops|
  {
    hide Inv, Run, Step, CString;
    if ops == [] {
      RunOfNothing(s, ops);
    } else {
      RunUnfold(s, ops);
      RestartsFollowUnfold(ops);
      StepKeepsTexts(s, ops[0], id);
      TextsDuringRun(Step(s, ops[0]), ops[1..], id);
    }
  }

  /** What a restart cut off is missed ever after. */
  lemma CutTextsAreMissed(a: Oms, b: Oms, rest: seq<Op>, kept: seq<Op>, id: OrderId)
    requires Inv(a) && Inv(b) && !HasRestart(kept)
    requires id in a.orders && id in b.orders && CleanOrder(a.orders[id]) && !CleanOrder(b.orders[id])
    ensures !SameState(Run(a, rest), Run(b, kept))
  {
    hide Inv, Run;
    TextsDuringRun(a, rest, id);
    TextsDuringRun(b, kept, id);
  }

  lemma {:induction false} UncleanRestartsAreVisible(a: Oms, b: Oms, ops: seq<Op>)
    requires SameState(a, b) && Inv(a) && Inv(b) && !CleanAtRestarts(a, ops)
    ensures !SameState(Run(a, ops), Run(b, WithoutRestarts(ops)))
    decreases |ops|
  {
    hide SameState, Inv, Clean, Step, Run, WithoutRestarts, CleanAtRestarts, CleanOrder;
    if ops == [] {
      NoRestarts(a, ops);
    } else {
      var op, rest, kept := ops[0], ops[1..], WithoutRestarts(ops);
      RunUnfold(a, ops);
      CleanAtRestartsUnfold(a, ops);
      WithoutRestartsUnfold(ops);
      var a' := Step(a, op);
      if op.RestartOp? && Clean(a) {
        RestartIsSame(a);
        SameStateTransitive(a', a, b);
        UncleanRestartsAreVisible(a', b, rest);
      } else if op.RestartOp? {
        var id := RestartCutsText(a, b);
        CutTextsAreMissed(a', b, rest, kept, id);
      } else {
        StepRespectsSame(a, b, op);
        RunUnfold(b, kept);
        UncleanRestartsAreVisible(a', Step(b, op), rest);
      }
    }
  }

  lemma RestartCutsText(a: Oms, b: Oms) returns (id: OrderId)
    requires SameState(a, b) && Inv(a) && !Clean(a)
    ensures id in Step(a, RestartOp).orders && id in b.orders
    ensures CleanOrder(Step(a, RestartOp).orders[id]) && !CleanOrder(b.orders[id])
  {
    hide Inv, Step;
    id :| id in a.orders && !CleanOrder(a.orders[id]);
    StepKeepsTexts(a, RestartOp, id);
  }

  /**
  Restarts are invisible, and exactly when: a process that is restarted any number of times, at any points between
  operations, ends in the same state as one that never is if and only if no valid request before a restart holds a NUL in
  its texts. It has then also given the same answers, except for the name of the error when an order rests on no book; in
  particular every later order trades exactly as it would have.
  */
  lemma RestartsAreInvisibleIff(a: Oms, b: Oms, ops: seq<Op>)
    requires SameState(a, b) && Inv(a) && Inv(b)
    ensures SameState(Run(a, ops), Run(b, WithoutRestarts(ops)))
        <==> (HasRestart(ops) ==> Clean(a)) && RestartsFollowCleanTexts(ops)
    ensures (HasRestart(ops) ==> Clean(a)) && RestartsFollowCleanTexts(ops)
        ==> SameAnswers(Answers(a, ops), Answers(b, WithoutRestarts(ops)))
  {
    hide SameState, Inv, Clean, Run, Answers, CleanAtRestarts, RestartsFollowCleanTexts, HasRestart, SameAnswers;
    CleanAtRestartsIff(a, ops);
    if CleanAtRestarts(a, ops) {
      CleanRestartsAreInvisible(a, b, ops);
    } else {
      UncleanRestartsAreVisible(a, b, ops);
    }
  }

  // ---------- No book is ever crossed ----------

  ghost predicate AlwaysUncrossed(s: Oms, ops: seq<Op>)
    requires Inv(s)
    decreases |ops|
  {
    StepsKeepInv(s, ops);
    NeverCrossed(s) && (ops != [] ==> AlwaysUncrossed(Step(s, ops[0]), ops[1..]))
  }

  /** No restart meets open orders that cross and that the tables hold under one symbol. */
  ghost predicate NoRestartCrosses(s: Oms, ops: seq<Op>)
    requires Inv(s)
    decreases |ops|
  {
    StepsKeepInv(s, ops);
    ops != [] ==> (ops[0].RestartOp? ==> RowsDoNotCross(s)) && NoRestartCrosses(Step(s, ops[0]), ops[1..])
  }

  lemma StepsKeepInv(s: Oms, ops: seq<Op>)
    requires Inv(s)
    ensures ops != [] ==> Inv(Step(s, ops[0]))
  {
    if ops != [] { StepKeepsInv(s, ops[0]); }
  }

  lemma StepIsUncrossed(s: Oms, op: Op)
    requires Inv(s) && NeverCrossed(s)
    ensures NeverCrossed(Step(s, op)) <==> (op.RestartOp? ==> RowsDoNotCross(s))
  {
    hide Inv, Submit, Cancel, Restarted, NeverCrossed;
    match op
    case SubmitOp(req, verdict) => SubmitKeepsUncrossed(s, req, verdict);
    case CancelOp(id) => CancelKeepsUncrossed(s, id);
    case RestartOp => RestartIsUncrossedIff(s);
  }

  /** A run that starts uncrossed never crosses a book, exactly when none of its restarts does. */
  lemma {:induction false} RunIsUncrossedIff(s: Oms, ops: seq<Op>)
    requires Inv(s) && NeverCrossed(s)
    ensures AlwaysUncrossed(s, ops) <==> NoRestartCrosses(s, ops)
    decreases |ops|
  {
    hide Inv, Step, NeverCrossed, RowsDoNotCross;
    if ops != [] {
      var s' := Step(s, ops[0]);
      StepsKeepInv(s, ops);
      StepIsUncrossed(s, ops[0]);
      if NeverCrossed(s') {
        RunIsUncrossedIff(s', ops[1..]);
      } else {
        CrossedAtOnce(s', ops[1..]);
      }
    }
  }

  lemma CrossedAtOnce(s: Oms, ops: seq<Op>)
    requires Inv(s) && !NeverCrossed(s)
    ensures !AlwaysUncrossed(s, ops)
  {
    hide Inv, NeverCrossed, Step;
  }

  /** In particular when no valid request before a restart holds a NUL. */
  lemma {:induction false} CleanRunsAreUncrossed(s: Oms, ops: seq<Op>)
    requires Inv(s) && NeverCrossed(s) && CleanAtRestarts(s, ops)
    ensures AlwaysUncrossed(s, ops)
    decreases |ops|
  {
    hide Inv, Step, NeverCrossed, RowsDoNotCross, Clean;
    if ops != [] {
      StepsKeepInv(s, ops);
      if ops[0].RestartOp? { CleanRowsDoNotCross(s); }
      StepIsUncrossed(s, ops[0]);
      CleanRunsAreUncrossed(Step(s, ops[0]), ops[1..]);
    }
  }

  // ---------- What the invariant says about every run ----------

  /** The state a run from an empty system ends in. */
  ghost function Reached(ops: seq<Op>): (s: Oms)
    ensures Inv(s)
  {
    InitialInv();
    Run(Initial(), ops)
  }

  /** From an empty system no run ever shows a crossed book, if no valid request before a restart holds a NUL. */
  lemma EveryCleanRunIsUncrossed(ops: seq<Op>)
    requires RestartsFollowCleanTexts(ops)
    ensures Inv(Initial()) && AlwaysUncrossed(Initial(), ops)
  {
    hide Inv, AlwaysUncrossed, RestartsFollowCleanTexts, NeverCrossed, CleanAtRestarts, HasRestart;
    InitialInv();
    CleanAtRestartsIff(Initial(), ops);
    CleanRunsAreUncrossed(Initial(), ops);
  }

  /** Conservation over every run. */
  lemma EveryRunBalances(ops: seq<Op>, id: OrderId, symbol: Symbol)
    ensures var s := Reached(ops);
            && (id in s.orders ==>
                  && s.orders[id].filledQty + s.orders[id].remainingQty == s.orders[id].orderQty
                  && s.orders[id].filledQty == Executed(s.executions, id)
                  && s.orders[id].filledQty >= 0 && s.orders[id].remainingQty >= 0)
            && Traded(s.orders, symbol, Buy, s.nextOrderId) == Volume(s.executions, symbol) == Traded(s.orders, symbol, Sell, s.nextOrderId)
            && (forall k | 0 <= k < |s.executions| ::
                  s.executions[k].executionId == k + 1 && s.executions[k].passiveId < s.executions[k].aggressiveId)
  {
    hide RestingOrders, Replay, Executed, Traded, Volume, EventsTable, OrdersTable, ExecutionsTable, Reached;
    var s := Reached(ops);
    if id in s.orders { assert OrderOk(s.orders[id]); }
    BoughtEqualsSold(s.orders, s.executions, symbol, s.nextOrderId);
    forall k | 0 <= k < |s.executions|
      ensures s.executions[k].executionId == k + 1 && s.executions[k].passiveId < s.executions[k].aggressiveId
    {
      assert TradeOk(s.orders, s.executions[k]);
    }
  }

  /** Manager and books agree over every run: an order rests with quantity `q` exactly when the manager holds it open with `q` remaining. */
  lemma EveryRunAgrees(ops: seq<Op>, id: OrderId, q: Quantity)
    requires id in Reached(ops).orders
    ensures var s := Reached(ops);
            var o := s.orders[id];
            (exists e :: e in BookOf(s.books, o.symbol) && e.orderId == id && e.remaining == q)
            <==> o.orderType.Limit? && (o.status.Accepted? || o.status.PartiallyFilled?) && o.remainingQty == q > 0
  {
    hide LedgerOk, Logged, Mirrored, RestingOrders, Reached;
    var s := Reached(ops);
    var o := s.orders[id];
    InvBook(s, o.symbol);
    RestingOrdersAreOpen(s.orders, o.symbol, s.nextOrderId);
    var r := RestingOrders(s.orders, o.symbol, s.nextOrderId);
    if RestsOnBook(o) && o.remainingQty == q {
      assert RestsFor(s.orders, o.symbol, id);
      assert EntryOf(o) in r;
    }
  }

  /** The order was asked to be cancelled. */
  ghost predicate WasAsked(events: seq<OrderEvent>, id: OrderId) {
    exists k :: 0 <= k < |events| && events[k].orderId == id && events[k].eventType.CancelRequested?
  }

  lemma AskedIffRequested(events: seq<OrderEvent>, id: OrderId, o: Order)
    requires Shows(Replay(events, id, o.orderType), o)
    ensures Replay(events, id, o.orderType) == if o.orderType.Market? && WasAsked(events, id) then Asked else At(o.status)
  {
    hide Replay, NextPhase;
    if o.orderType.Market? && WasAsked(events, id) {
      var k :| 0 <= k < |events| && events[k].orderId == id && events[k].eventType.CancelRequested?;
      OnlyRequestsFollow(events, id, k);
    } else if Replay(events, id, o.orderType) == Asked {
      var k := AskedWasRequested(events, id, o.orderType);
    }
  }

  /** An event after which no other event of its order may follow. */
  predicate IsFinal(e: EventType) {
    e.Fill? || e.Cancelled? || e.Rejected?
  }

  /**
  The log of every run replays to the stored statuses, but for market orders that were asked to be cancelled, and reports
  every execution to both its orders, in order. Every event says what it should. Nothing follows an order's final event, and after a cancel request for a market order nothing
  but further requests.
  */
  lemma EveryRunReplays(ops: seq<Op>, id: OrderId)
    requires id in Reached(ops).orders
    ensures var s := Reached(ops);
            var o := s.orders[id];
            && Replay(s.events, id, o.orderType) == (if o.orderType.Market? && WasAsked(s.events, id) then Asked else At(o.status))
            && FillsAreLogged(FillEvents(s.events), s.executions) && DetailsAreOurs(s.orders, s.events)
            && (forall k, j | 0 <= k < j < |s.events| && s.events[k].orderId == s.events[j].orderId == id ::
                  && !IsFinal(s.events[k].eventType)
                  && (o.orderType.Market? && s.events[k].eventType.CancelRequested? ==> s.events[j].eventType.CancelRequested?))
  {
    hide LedgerOk, Mirrored, BooksAgree, Replay, FillEvents, FillsAreLogged, DetailsAreOurs, Reached, OrdersOk, NextPhase;
    var s := Reached(ops);
    var o := s.orders[id];
    AskedIffRequested(s.events, id, o);
    forall k, j | 0 <= k < j < |s.events| && s.events[k].orderId == s.events[j].orderId == id
      ensures !IsFinal(s.events[k].eventType)
      ensures o.orderType.Market? && s.events[k].eventType.CancelRequested? ==> s.events[j].eventType.CancelRequested?
    {
      if IsFinal(s.events[k].eventType) {
        NothingFollowsTheEnd(s.events, id, o.orderType, k);
      } else if o.orderType.Market? && s.events[k].eventType.CancelRequested? {
        OnlyRequestsFollow(s.events, id, k);
      }
    }
  }
}
