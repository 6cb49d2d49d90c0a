/**
Price-time priority stated the naive way: the resting orders of one symbol are a single list in
arrival order, and an incoming order repeatedly scans that list for the best-priced, earliest entry
on the opposite side. The book of sorted price levels is proved against this definition.
*/
module PriceTime {
  import opened Types

  /** The incoming order, without its quantity. */
  datatype Incoming = Incoming(symbol: Symbol, id: OrderId, side: Side, orderType: OrderType, price: Price)

  /** What matching leaves behind: the list, the trades in order, and the quantity still unfilled. */
  datatype Matched = Matched(rest: seq<BookEntry>, fills: seq<Fill>, remaining: Quantity)

  /** Resting at `p` is strictly more attractive than resting at `q`. */
  predicate Better(side: Side, p: Price, q: Price) {
    if side.Buy? then p > q else p < q
  }

  predicate Acceptable(o: Incoming, price: Price) {
    o.orderType.Market? || (if o.side.Buy? then price <= o.price else price >= o.price)
  }

  ghost predicate AllPositive(rest: seq<BookEntry>) {
    forall i | 0 <= i < |rest| :: rest[i].remaining > 0 && rest[i].price > 0
  }

  ghost predicate DistinctIds(rest: seq<BookEntry>) {
    forall i, j | 0 <= i < j < |rest| :: rest[i].orderId != rest[j].orderId
  }

  ghost predicate WellFormed(rest: seq<BookEntry>) {
    AllPositive(rest) && DistinctIds(rest)
  }

  ghost predicate HasId(rest: seq<BookEntry>, id: OrderId) {
    exists i :: 0 <= i < |rest| && rest[i].orderId == id
  }

  /** No resting buy reaches a resting sell. */
  ghost predicate Uncrossed(rest: seq<BookEntry>) {
    forall i, j | 0 <= i < |rest| && 0 <= j < |rest| && rest[i].side.Buy? && rest[j].side.Sell? ::
      rest[i].price < rest[j].price
  }

  /** One scan over the first `n` entries: the position of the best price of `side`, the earliest among equals. */
  ghost function Scan(rest: seq<BookEntry>, side: Side, n: nat): (b: Option<nat>)
    requires n <= |rest|
    ensures b.Some? ==> b.value < n && rest[b.value].side == side
  {
    if n == 0 then None
    else
      var b := Scan(rest, side, n - 1);
      if rest[n - 1].side == side && (b.None? || Better(side, rest[n - 1].price, rest[b.value].price)) then Some(n - 1)
      else b
  }

  ghost function Best(rest: seq<BookEntry>, side: Side): (b: Option<nat>)
    ensures b.Some? ==> b.value < |rest| && rest[b.value].side == side
  {
    Scan(rest, side, |rest|)
  }

  /** Entry `i` trades `q`: it disappears when nothing is left of it. */
  ghost function Reduce(rest: seq<BookEntry>, i: nat, q: Quantity): seq<BookEntry>
    requires i < |rest|
  {
    if q == rest[i].remaining then rest[..i] + rest[i + 1..]
    else rest[i := rest[i].(remaining := rest[i].remaining - q)]
  }

  ghost function FillOf(o: Incoming, passive: BookEntry, exec: ExecutionId, q: Quantity): Fill {
    Fill(exec, o.symbol, o.id, passive.orderId, o.side, passive.price, q)
  }

  /** Nothing to trade, nobody to trade with, or the best price is outside the limit. */
  ghost predicate Stops(rest: seq<BookEntry>, o: Incoming, qty: nat) {
    var b := Best(rest, Opposite(o.side));
    qty == 0 || b.None? || !Acceptable(o, rest[b.value].price)
  }

  /** The position of the entry that trades next. */
  ghost function Top(rest: seq<BookEntry>, o: Incoming, qty: nat): nat
    requires !Stops(rest, o, qty)
  {
    Best(rest, Opposite(o.side)).value
  }

  /** Scan, trade, repeat. */
  ghost function Match(rest: seq<BookEntry>, o: Incoming, qty: nat, exec: ExecutionId): Matched
    requires AllPositive(rest)
    decreases |rest|, qty
  {
    if Stops(rest, o, qty) then Matched(rest, [], qty)
    else
      var b := Top(rest, o, qty);
      var trade := Min(qty, rest[b].remaining);
      var m := Match(Reduce(rest, b, trade), o, qty - trade, exec + 1);
      Matched(m.rest, [FillOf(o, rest[b], exec, trade)] + m.fills, m.remaining)
  }

  /** Accept an order: validate, match, and let the remainder of a limit order rest at the end of the list. */
  ghost function AddOrder(rest: seq<BookEntry>, o: Incoming, qty: Quantity, exec: ExecutionId)
    : (r: (seq<BookEntry>, Result<AddOrderResult>))
    requires AllPositive(rest)
  {
    if qty <= 0 then (rest, Err(InvalidQuantity))
    else if o.orderType.Limit? && o.price <= 0 then (rest, Err(InvalidPrice))
    else if HasId(rest, o.id) then (rest, Err(DuplicateOrder))
    else
      var m := Match(rest, o, qty, exec);
      if m.remaining > 0 && o.orderType.Limit? then
        var entry := BookEntry(o.id, o.side, o.price, m.remaining);
        (m.rest + [entry], Ok(AddOrderResult(m.fills, Some(entry))))
      else (m.rest, Ok(AddOrderResult(m.fills, None)))
  }

  /** The list without the order `id`; everything else keeps its place. */
  ghost function Without(rest: seq<BookEntry>, id: OrderId): seq<BookEntry> {
    if rest == [] then []
    else
      var n := |rest| - 1;
      Without(rest[..n], id) + (if rest[n].orderId == id then [] else [rest[n]])
  }

  // ---------- The scan ----------

  lemma {:induction false} ScanIsFirstAmongBest(rest: seq<BookEntry>, side: Side, n: nat)
    requires n <= |rest|
    ensures var b := Scan(rest, side, n);
            && (b.None? ==> forall j | 0 <= j < n :: rest[j].side != side)
            && (b.Some? ==> forall j | 0 <= j < n && rest[j].side == side :: !Better(side, rest[j].price, rest[b.value].price))
            && (b.Some? ==> forall j | 0 <= j < b.value && rest[j].side == side :: Better(side, rest[b.value].price, rest[j].price))
  {
    if n > 0 { ScanIsFirstAmongBest(rest, side, n - 1); }
  }

  /** The scan finds nothing only on an empty side; otherwise nothing beats what it finds, and nothing earlier ties. */
  lemma BestIsFirstAmongBest(rest: seq<BookEntry>, side: Side)
    ensures var b := Best(rest, side);
            && (b.None? ==> forall j | 0 <= j < |rest| :: rest[j].side != side)
            && (b.Some? ==> forall j | 0 <= j < |rest| && rest[j].side == side ::
                              !Better(side, rest[j].price, rest[b.value].price))
            && (b.Some? ==> forall j | 0 <= j < b.value && rest[j].side == side ::
                              Better(side, rest[b.value].price, rest[j].price))
  {
    ScanIsFirstAmongBest(rest, side, |rest|);
  }

  // ---------- One trade ----------

  lemma ReduceKeepsPositive(rest: seq<BookEntry>, i: nat, q: Quantity)
    requires i < |rest| && AllPositive(rest) && 0 < q <= rest[i].remaining
    ensures AllPositive(Reduce(rest, i, q))
  {}

  lemma ReduceKeeps(rest: seq<BookEntry>, i: nat, q: Quantity)
    requires i < |rest| && WellFormed(rest) && 0 < q <= rest[i].remaining
    ensures WellFormed(Reduce(rest, i, q))
    ensures forall id :: HasId(Reduce(rest, i, q), id) ==> HasId(rest, id)
  {
    var r := Reduce(rest, i, q);
    forall k | 0 <= k < |r| ensures HasId(rest, r[k].orderId) {
      var j := if q == rest[i].remaining && k >= i then k + 1 else k;
      assert r[k].orderId == rest[j].orderId;
    }
  }

  lemma MatchStops(rest: seq<BookEntry>, o: Incoming, qty: nat, exec: ExecutionId)
    requires AllPositive(rest) && Stops(rest, o, qty)
    ensures Match(rest, o, qty, exec) == Matched(rest, [], qty)
  {}

  /** Unfolds one trade of a match. */
  lemma MatchUnfolds(rest: seq<BookEntry>, o: Incoming, qty: nat, exec: ExecutionId)
    requires AllPositive(rest) && !Stops(rest, o, qty)
    ensures var b := Top(rest, o, qty);
            var trade := Min(qty, rest[b].remaining);
            && AllPositive(Reduce(rest, b, trade))
            && var m, m' := Match(rest, o, qty, exec), Match(Reduce(rest, b, trade), o, qty - trade, exec + 1);
               m.rest == m'.rest && m.remaining == m'.remaining && m.fills == [FillOf(o, rest[b], exec, trade)] + m'.fills
  {
    hide Scan, Acceptable;
    var b := Top(rest, o, qty);
    ReduceKeepsPositive(rest, b, Min(qty, rest[b].remaining));
  }

  lemma {:induction false} MatchKeeps(rest: seq<BookEntry>, o: Incoming, qty: nat, exec: ExecutionId)
    requires WellFormed(rest)
    ensures WellFormed(Match(rest, o, qty, exec).rest)
    decreases |rest|, qty
  {
    hide Scan, Acceptable;
    if !Stops(rest, o, qty) {
      var b := Top(rest, o, qty);
      var trade := Min(qty, rest[b].remaining);
      ReduceKeeps(rest, b, trade);
      MatchKeeps(Reduce(rest, b, trade), o, qty - trade, exec + 1);
    }
  }

  lemma {:induction false} MatchBoundsRemaining(rest: seq<BookEntry>, o: Incoming, qty: nat, exec: ExecutionId)
    requires AllPositive(rest)
    ensures 0 <= Match(rest, o, qty, exec).remaining <= qty
    decreases |rest|, qty
  {
    hide Scan, Acceptable;
    if !Stops(rest, o, qty) {
      var b := Top(rest, o, qty);
      var trade := Min(qty, rest[b].remaining);
      ReduceKeepsPositive(rest, b, trade);
      MatchBoundsRemaining(Reduce(rest, b, trade), o, qty - trade, exec + 1);
    }
  }

  lemma {:induction false} MatchAddsNoId(rest: seq<BookEntry>, o: Incoming, qty: nat, exec: ExecutionId, id: OrderId)
    requires AllPositive(rest)
    ensures HasId(Match(rest, o, qty, exec).rest, id) ==> HasId(rest, id)
    decreases |rest|, qty
  {
    hide Scan, Acceptable;
    if !Stops(rest, o, qty) {
      var b := Top(rest, o, qty);
      var trade := Min(qty, rest[b].remaining);
      ReduceKeepsPositive(rest, b, trade);
      MatchAddsNoId(Reduce(rest, b, trade), o, qty - trade, exec + 1, id);
    }
  }

  lemma ReduceKeepsUncrossed(rest: seq<BookEntry>, i: nat, q: Quantity)
    requires i < |rest| && Uncrossed(rest)
    ensures Uncrossed(Reduce(rest, i, q))
  {
    var r := Reduce(rest, i, q);
    forall j, k | 0 <= j < |r| && 0 <= k < |r| && r[j].side.Buy? && r[k].side.Sell?
      ensures r[j].price < r[k].price
    {
      var j' := if q == rest[i].remaining && j >= i then j + 1 else j;
      var k' := if q == rest[i].remaining && k >= i then k + 1 else k;
      assert rest[j'].price < rest[k'].price;
    }
  }

  lemma {:induction false} MatchKeepsUncrossed(rest: seq<BookEntry>, o: Incoming, qty: nat, exec: ExecutionId)
    requires AllPositive(rest) && Uncrossed(rest)
    ensures Uncrossed(Match(rest, o, qty, exec).rest)
    decreases |rest|, qty
  {
    hide Scan, Acceptable;
    if !Stops(rest, o, qty) {
      var b := Top(rest, o, qty);
      var trade := Min(qty, rest[b].remaining);
      ReduceKeepsPositive(rest, b, trade);
      ReduceKeepsUncrossed(rest, b, trade);
      MatchKeepsUncrossed(Reduce(rest, b, trade), o, qty - trade, exec + 1);
    }
  }

  /** An order is left unfilled only when no acceptable entry is left for it. */
  lemma {:induction false} UnfilledMeansNothingAcceptable(rest: seq<BookEntry>, o: Incoming, qty: nat, exec: ExecutionId, j: nat)
    requires AllPositive(rest)
    requires Match(rest, o, qty, exec).remaining > 0
    requires j < |Match(rest, o, qty, exec).rest| && Match(rest, o, qty, exec).rest[j].side == Opposite(o.side)
    ensures !Acceptable(o, Match(rest, o, qty, exec).rest[j].price)
    decreases |rest|, qty
  {
    hide Scan;
    if Stops(rest, o, qty) {
      BestIsFirstAmongBest(rest, Opposite(o.side));
    } else {
      var b := Top(rest, o, qty);
      var trade := Min(qty, rest[b].remaining);
      ReduceKeepsPositive(rest, b, trade);
      UnfilledMeansNothingAcceptable(Reduce(rest, b, trade), o, qty - trade, exec + 1, j);
    }
  }

  // ---------- Whole operations ----------

  lemma {:induction false} WithoutHas(rest: seq<BookEntry>, id: OrderId)
    ensures forall e :: e in Without(rest, id) <==> e in rest && e.orderId != id
  {
    if rest != [] {
      var n := |rest| - 1;
      WithoutHas(rest[..n], id);
      assert rest == rest[..n] + [rest[n]];
    }
  }

  lemma {:induction false} WithoutAbsent(rest: seq<BookEntry>, id: OrderId)
    requires !HasId(rest, id)
    ensures Without(rest, id) == rest
  {
    if rest != [] {
      var n := |rest| - 1;
      forall k | 0 <= k < n ensures rest[..n][k].orderId != id { assert rest[k].orderId != id; }
      assert rest[n].orderId != id;
      WithoutAbsent(rest[..n], id);
    }
  }

  lemma {:induction false} WithoutIsDistinct(rest: seq<BookEntry>, id: OrderId)
    requires DistinctIds(rest)
    ensures DistinctIds(Without(rest, id))
  {
    if rest != [] {
      var n := |rest| - 1;
      WithoutIsDistinct(rest[..n], id);
      WithoutHas(rest[..n], id);
      var w := Without(rest[..n], id);
      forall k | 0 <= k < |w| ensures w[k].orderId != rest[n].orderId {
        assert w[k] in rest[..n];
      }
    }
  }

  /** A cancel takes away that order only. */
  lemma WithoutKeeps(rest: seq<BookEntry>, id: OrderId)
    requires WellFormed(rest)
    ensures WellFormed(Without(rest, id))
    ensures forall e :: e in Without(rest, id) <==> e in rest && e.orderId != id
    ensures !HasId(rest, id) ==> Without(rest, id) == rest
  {
    hide Without, DistinctIds;
    WithoutHas(rest, id);
    WithoutIsDistinct(rest, id);
    if !HasId(rest, id) { WithoutAbsent(rest, id); }
    var w := Without(rest, id);
    forall k | 0 <= k < |w| ensures w[k].remaining > 0 && w[k].price > 0 { assert w[k] in w; }
  }

  /**
  The book is never crossed: accepting any order keeps every resting buy strictly below every resting sell,
  and what a market order could not fill never rests.
  */
  lemma AddOrderKeepsBook(rest: seq<BookEntry>, o: Incoming, qty: Quantity, exec: ExecutionId)
    requires WellFormed(rest) && Uncrossed(rest)
    ensures var (after, result) := AddOrder(rest, o, qty, exec);
            && WellFormed(after) && Uncrossed(after)
            && (o.orderType.Market? ==> !HasId(after, o.id) || HasId(rest, o.id))
            && (result.Ok? && o.orderType.Market? && qty > 0 && Match(rest, o, qty, exec).remaining > 0
                ==> forall j | 0 <= j < |after| :: after[j].side == o.side)
  {
    hide Match, Scan;
    if qty > 0 {
      var m := Match(rest, o, qty, exec);
      MatchKeeps(rest, o, qty, exec);
      MatchBoundsRemaining(rest, o, qty, exec);
      MatchKeepsUncrossed(rest, o, qty, exec);
      MatchAddsNoId(rest, o, qty, exec, o.id);
      if m.remaining > 0 {
        forall j | 0 <= j < |m.rest| && m.rest[j].side == Opposite(o.side) ensures !Acceptable(o, m.rest[j].price) {
          UnfilledMeansNothingAcceptable(rest, o, qty, exec, j);
        }
      }
    }
  }

  /** Cancelling keeps the book uncrossed, removes that order only, and keeps everyone else's place. */
  lemma WithoutKeepsUncrossed(rest: seq<BookEntry>, id: OrderId)
    requires WellFormed(rest) && Uncrossed(rest)
    ensures Uncrossed(Without(rest, id))
  {
    WithoutKeeps(rest, id);
    var w := Without(rest, id);
    forall i, j | 0 <= i < |w| && 0 <= j < |w| && w[i].side.Buy? && w[j].side.Sell?
      ensures w[i].price < w[j].price
    {
      assert w[i] in rest && w[j] in rest;
    }
  }

  /** A limit order that finds no counterparty and is cancelled leaves no trace. */
  lemma AddThenCancelRestores(rest: seq<BookEntry>, o: Incoming, qty: Quantity, exec: ExecutionId)
    requires WellFormed(rest) && qty > 0 && o.orderType.Limit? && o.price > 0 && !HasId(rest, o.id)
    requires forall j | 0 <= j < |rest| && rest[j].side == Opposite(o.side) :: !Acceptable(o, rest[j].price)
    ensures Without(AddOrder(rest, o, qty, exec).0, o.id) == rest
  {
    BestIsFirstAmongBest(rest, Opposite(o.side));
    var after := AddOrder(rest, o, qty, exec).0;
    assert after == rest + [BookEntry(o.id, o.side, o.price, qty)];
    assert after[..|after| - 1] == rest;
    WithoutKeeps(rest, o.id);
  }

  // ---------- Any sequence of operations on one book ----------

  datatype BookOp = Add(o: Incoming, qty: Quantity) | Remove(id: OrderId)

  /** The list and the next execution id after one operation. */
  ghost function BookStep(rest: seq<BookEntry>, exec: ExecutionId, op: BookOp): (seq<BookEntry>, ExecutionId)
    requires WellFormed(rest)
  {
    match op
    case Add(o, qty) =>
      var (after, result) := AddOrder(rest, o, qty, exec);
      (after, exec + if result.Ok? then |result.value.fills| else 0)
    case Remove(id) => (Without(rest, id), exec)
  }

  lemma BookStepKeeps(rest: seq<BookEntry>, exec: ExecutionId, op: BookOp)
    requires WellFormed(rest)
    ensures WellFormed(BookStep(rest, exec, op).0)
    ensures Uncrossed(rest) ==> Uncrossed(BookStep(rest, exec, op).0)
  {
    hide WellFormed, AddOrder, Without, Uncrossed;
    match op
    case Add(o, qty) =>
      AddOrderKeepsWellFormed(rest, o, qty, exec);
      if Uncrossed(rest) { AddOrderKeepsBook(rest, o, qty, exec); }
    case Remove(id) =>
      WithoutKeeps(rest, id);
      if Uncrossed(rest) { WithoutKeepsUncrossed(rest, id); }
  }

  lemma AddOrderKeepsWellFormed(rest: seq<BookEntry>, o: Incoming, qty: Quantity, exec: ExecutionId)
    requires WellFormed(rest)
    ensures WellFormed(AddOrder(rest, o, qty, exec).0)
  {
    hide Match, Scan;
    if qty > 0 {
      MatchKeeps(rest, o, qty, exec);
      MatchAddsNoId(rest, o, qty, exec, o.id);
    }
  }

  /** The book after a sequence of operations. */
  ghost function BookRun(rest: seq<BookEntry>, exec: ExecutionId, ops: seq<BookOp>): (after: seq<BookEntry>)
    requires WellFormed(rest)
    ensures WellFormed(after)
    decreases |ops|
  {
    if ops == [] then rest
    else
      BookStepKeeps(rest, exec, ops[0]);
      BookRun(BookStep(rest, exec, ops[0]).0, BookStep(rest, exec, ops[0]).1, ops[1..])
  }

  /** Any sequence of additions and cancels, whatever their ids, keeps every bid below every ask; an empty book is where it starts. */
  lemma {:induction false} EveryBookRunIsUncrossed(rest: seq<BookEntry>, exec: ExecutionId, ops: seq<BookOp>)
    requires WellFormed(rest) && (rest == [] || Uncrossed(rest))
    ensures Uncrossed(BookRun(rest, exec, ops))
    decreases |ops|
  {
    hide WellFormed, BookStep;
    if ops != [] {
      BookStepKeeps(rest, exec, ops[0]);
      EveryBookRunIsUncrossed(BookStep(rest, exec, ops[0]).0, BookStep(rest, exec, ops[0]).1, ops[1..]);
    }
  }
}
