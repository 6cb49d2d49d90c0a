/**
Closed form of price-time matching. Without running the match: an acceptable entry trades exactly what
is left of the incoming quantity after everything ahead of it in the queue, capped by its own size.
*/
module Allocation {
  import opened Types
  import opened PriceTime

  /** Entry `j` stands ahead of entry `i` in the queue of their side. */
  ghost predicate Precedes(rest: seq<BookEntry>, j: nat, i: nat)
    requires i < |rest| && j < |rest|
  {
    && rest[j].side == rest[i].side
    && (Better(rest[i].side, rest[j].price, rest[i].price) || (rest[j].price == rest[i].price && j < i))
  }

  /** Total quantity ahead of entry `i` among the first `n` entries. */
  ghost function AheadOf(rest: seq<BookEntry>, i: nat, n: nat): Quantity
    requires i < |rest| && n <= |rest|
  {
    if n == 0 then 0
    else AheadOf(rest, i, n - 1) + (if Precedes(rest, n - 1, i) then rest[n - 1].remaining else 0)
  }

  ghost predicate Eligible(e: BookEntry, o: Incoming) {
    e.side == Opposite(o.side) && Acceptable(o, e.price)
  }

  /** What entry `i` trades when `qty` arrives. */
  ghost function Share(rest: seq<BookEntry>, o: Incoming, qty: Quantity, i: nat): Quantity
    requires i < |rest|
  {
    if Eligible(rest[i], o) then Max(0, Min(qty - AheadOf(rest, i, |rest|), rest[i].remaining)) else 0
  }

  /** The first `n` entries after each gave up its share; exhausted ones are gone. */
  ghost function Allocated(rest: seq<BookEntry>, o: Incoming, qty: Quantity, n: nat): seq<BookEntry>
    requires n <= |rest|
  {
    if n == 0 then []
    else
      var left := rest[n - 1].remaining - Share(rest, o, qty, n - 1);
      Allocated(rest, o, qty, n - 1) + (if left > 0 then [rest[n - 1].(remaining := left)] else [])
  }

  /** Total quantity the incoming order may trade with. */
  ghost function Liquidity(rest: seq<BookEntry>, o: Incoming): Quantity {
    if rest == [] then 0
    else
      var n := |rest| - 1;
      Liquidity(rest[..n], o) + (if Eligible(rest[n], o) then rest[n].remaining else 0)
  }

  ghost function FilledAgainst(fills: seq<Fill>, id: OrderId): Quantity {
    if fills == [] then 0
    else (if fills[0].passiveId == id then fills[0].quantity else 0) + FilledAgainst(fills[1..], id)
  }

  ghost function TotalQuantity(fills: seq<Fill>): Quantity {
    if fills == [] then 0 else fills[0].quantity + TotalQuantity(fills[1..])
  }

  // ---------- Queue positions ----------

  lemma {:induction false} NothingAheadOfBest(rest: seq<BookEntry>, side: Side, b: nat, n: nat)
    requires Best(rest, side) == Some(b) && n <= |rest|
    ensures AheadOf(rest, b, n) == 0
  {
    BestIsFirstAmongBest(rest, side);
    if n > 0 { NothingAheadOfBest(rest, side, b, n - 1); }
  }

  lemma BestPrecedesAll(rest: seq<BookEntry>, side: Side, b: nat, i: nat)
    requires Best(rest, side) == Some(b) && i < |rest| && i != b && rest[i].side == side
    ensures Precedes(rest, b, i)
  {
    BestIsFirstAmongBest(rest, side);
  }

  lemma {:induction false} AheadBound(rest: seq<BookEntry>, j: nat, i: nat, n: nat)
    requires AllPositive(rest) && j < |rest| && i < |rest| && n <= |rest|
    requires Precedes(rest, j, i)
    ensures AheadOf(rest, i, n) >= AheadOf(rest, j, n) + (if j < n then rest[j].remaining else 0)
  {
    if n > 0 { AheadBound(rest, j, i, n - 1); }
  }

  lemma {:induction false} AheadNonNegative(rest: seq<BookEntry>, i: nat, n: nat)
    requires AllPositive(rest) && i < |rest| && n <= |rest|
    ensures AheadOf(rest, i, n) >= 0
  {
    if n > 0 { AheadNonNegative(rest, i, n - 1); }
  }

  /** The index in `rest` of entry `k` of `rest` without its entry `b`. */
  ghost function Shift(b: nat, k: nat): nat {
    if k < b then k else k + 1
  }

  /** Removing the best entry takes exactly its size off the queue ahead of every other entry of its side. */
  lemma {:induction false} AheadAfterRemoval(rest: seq<BookEntry>, side: Side, b: nat, k: nat, n: nat)
    requires Best(rest, side) == Some(b)
    requires k < |rest| - 1 && n < |rest| && rest[Shift(b, k)].side == side
    ensures AheadOf(rest[..b] + rest[b + 1..], k, n)
         == AheadOf(rest, Shift(b, k), if n <= b then n else n + 1) - (if n <= b then 0 else rest[b].remaining)
    ensures n == b ==> AheadOf(rest, Shift(b, k), b + 1) == AheadOf(rest, Shift(b, k), b) + rest[b].remaining
  {
    var r := rest[..b] + rest[b + 1..];
    BestPrecedesAll(rest, side, b, Shift(b, k));
    if n > 0 {
      AheadAfterRemoval(rest, side, b, k, n - 1);
      assert r[n - 1] == rest[Shift(b, n - 1)] && r[k] == rest[Shift(b, k)];
      assert Precedes(r, n - 1, k) == Precedes(rest, Shift(b, n - 1), Shift(b, k));
    }
  }

  // ---------- One trade against the closed form ----------

  /** When the best entry absorbs the whole quantity, the shares of all others are zero. */
  lemma {:induction false} AllocatedPartial(rest: seq<BookEntry>, o: Incoming, qty: Quantity, b: nat, n: nat)
    requires AllPositive(rest) && n <= |rest|
    requires Best(rest, Opposite(o.side)) == Some(b) && Acceptable(o, rest[b].price)
    requires 0 < qty < rest[b].remaining
    ensures Allocated(rest, o, qty, n) == Reduce(rest, b, qty)[..n]
    ensures forall i | 0 <= i < |rest| :: Share(rest, o, qty, i) == if i == b then qty else 0
  {
    forall i | 0 <= i < |rest| ensures Share(rest, o, qty, i) == if i == b then qty else 0 {
      NothingAheadOfBest(rest, Opposite(o.side), b, |rest|);
      if i != b && rest[i].side == Opposite(o.side) {
        BestPrecedesAll(rest, Opposite(o.side), b, i);
        AheadBound(rest, b, i, |rest|);
      }
    }
    if n > 0 { AllocatedPartial(rest, o, qty, b, n - 1); }
  }

  /** When the best entry is exhausted, the others share what is left of the quantity exactly as before. */
  lemma SharesAfterRemoval(rest: seq<BookEntry>, o: Incoming, qty: Quantity, b: nat, k: nat)
    requires AllPositive(rest) && k < |rest| - 1
    requires Best(rest, Opposite(o.side)) == Some(b) && Acceptable(o, rest[b].price)
    requires rest[b].remaining <= qty
    ensures Share(rest[..b] + rest[b + 1..], o, qty - rest[b].remaining, k) == Share(rest, o, qty, Shift(b, k))
  {
    var r := rest[..b] + rest[b + 1..];
    assert r[k] == rest[Shift(b, k)];
    if Eligible(r[k], o) {
      AheadAfterRemoval(rest, Opposite(o.side), b, k, |r|);
    }
  }

  lemma {:induction false} AllocatedFull(rest: seq<BookEntry>, o: Incoming, qty: Quantity, b: nat, n: nat)
    requires AllPositive(rest) && n < |rest|
    requires Best(rest, Opposite(o.side)) == Some(b) && Acceptable(o, rest[b].price)
    requires rest[b].remaining <= qty
    ensures Share(rest, o, qty, b) == rest[b].remaining
    ensures Allocated(rest[..b] + rest[b + 1..], o, qty - rest[b].remaining, n)
         == Allocated(rest, o, qty, if n <= b then n else n + 1)
    ensures n == b ==> Allocated(rest, o, qty, b) == Allocated(rest, o, qty, b + 1)
  {
    NothingAheadOfBest(rest, Opposite(o.side), b, |rest|);
    if n > 0 {
      AllocatedFull(rest, o, qty, b, n - 1);
      SharesAfterRemoval(rest, o, qty, b, n - 1);
    }
  }

  /** One trade moves exactly the best entry's share; the closed form of what is left is unchanged. */
  lemma AllocatedAfterTrade(rest: seq<BookEntry>, o: Incoming, qty: nat, b: nat)
    requires AllPositive(rest) && Best(rest, Opposite(o.side)) == Some(b) && Acceptable(o, rest[b].price) && qty > 0
    ensures var trade := Min(qty, rest[b].remaining);
            var r := Reduce(rest, b, trade);
            AllPositive(r) && Allocated(r, o, qty - trade, |r|) == Allocated(rest, o, qty, |rest|)
  {
    var trade := Min(qty, rest[b].remaining);
    var r := Reduce(rest, b, trade);
    ReduceKeepsPositive(rest, b, trade);
    if trade < rest[b].remaining {
      AllocatedPartial(rest, o, qty, b, |rest|);
      AllocatedNothing(r, o, 0, |r|);
    } else {
      AllocatedFull(rest, o, qty, b, |rest| - 1);
      assert b <= |rest| - 1 && |r| == |rest| - 1;
    }
  }

  /** One trade takes the best entry's part of its share and leaves every other share as it was. */
  lemma ShareAfterTrade(rest: seq<BookEntry>, o: Incoming, qty: nat, b: nat, i: nat)
    requires AllPositive(rest) && Best(rest, Opposite(o.side)) == Some(b) && Acceptable(o, rest[b].price)
    requires qty > 0 && i < |rest|
    ensures var trade := Min(qty, rest[b].remaining);
            var r := Reduce(rest, b, trade);
            && AllPositive(r)
            && (trade < rest[b].remaining ==>
                  i < |r| && r[i].orderId == rest[i].orderId
                  && Share(rest, o, qty, i) == (if i == b then trade else 0) && Share(r, o, 0, i) == 0)
            && (trade == rest[b].remaining && i == b ==> Share(rest, o, qty, i) == trade)
            && (trade == rest[b].remaining && i != b ==>
                  var k := if i < b then i else i - 1;
                  k < |r| && r[k] == rest[i] && Share(rest, o, qty, i) == Share(r, o, qty - trade, k))
  {
    var trade := Min(qty, rest[b].remaining);
    var r := Reduce(rest, b, trade);
    ReduceKeepsPositive(rest, b, trade);
    if trade < rest[b].remaining {
      AllocatedPartial(rest, o, qty, b, |rest|);
      AllocatedNothing(r, o, 0, |r|);
    } else if i == b {
      AllocatedFull(rest, o, qty, b, 0);
    } else {
      var k := if i < b then i else i - 1;
      assert r[k] == rest[i] && Shift(b, k) == i;
      SharesAfterRemoval(rest, o, qty, b, k);
    }
  }

  lemma FilledAgainstCons(f: Fill, fills: seq<Fill>, id: OrderId)
    ensures FilledAgainst([f] + fills, id) == (if f.passiveId == id then f.quantity else 0) + FilledAgainst(fills, id)
  {
    assert ([f] + fills)[1..] == fills;
  }

  lemma MatchStep(rest: seq<BookEntry>, o: Incoming, qty: nat, exec: ExecutionId, b: nat, trade: nat, id: OrderId)
    requires AllPositive(rest) && !Stops(rest, o, qty) && b == Top(rest, o, qty) && trade == Min(qty, rest[b].remaining)
    ensures AllPositive(Reduce(rest, b, trade))
    ensures var m, m' := Match(rest, o, qty, exec), Match(Reduce(rest, b, trade), o, qty - trade, exec + 1);
            && m.rest == m'.rest && m.remaining == m'.remaining
            && FilledAgainst(m.fills, id) == (if rest[b].orderId == id then trade else 0) + FilledAgainst(m'.fills, id)
  {
    hide Match, Scan, Acceptable;
    MatchUnfolds(rest, o, qty, exec);
    FilledAgainstCons(FillOf(o, rest[b], exec, trade), Match(Reduce(rest, b, trade), o, qty - trade, exec + 1).fills, id);
  }

  // ---------- Main results ----------

  /** With nothing to trade, or nothing acceptable, every entry keeps its place and its size. */
  lemma {:induction false} AllocatedNothing(rest: seq<BookEntry>, o: Incoming, qty: nat, n: nat)
    requires AllPositive(rest) && n <= |rest|
    requires qty == 0 || forall i | 0 <= i < |rest| :: !Eligible(rest[i], o)
    ensures Allocated(rest, o, qty, n) == rest[..n]
    ensures forall i | 0 <= i < |rest| :: Share(rest, o, qty, i) == 0
  {
    forall i | 0 <= i < |rest| ensures Share(rest, o, qty, i) == 0 {
      AheadNonNegative(rest, i, |rest|);
    }
    if n > 0 { AllocatedNothing(rest, o, qty, n - 1); }
  }

  lemma StoppedMeansNothingEligible(rest: seq<BookEntry>, o: Incoming)
    requires var b := Best(rest, Opposite(o.side)); b.None? || !Acceptable(o, rest[b.value].price)
    ensures forall i | 0 <= i < |rest| :: !Eligible(rest[i], o)
  {
    BestIsFirstAmongBest(rest, Opposite(o.side));
  }

  lemma {:induction false} FilledAgainstAbsent(rest: seq<BookEntry>, o: Incoming, qty: nat, exec: ExecutionId, id: OrderId)
    requires AllPositive(rest) && !HasId(rest, id)
    ensures FilledAgainst(Match(rest, o, qty, exec).fills, id) == 0
    decreases |rest|, qty
  {
    hide Scan, Acceptable;
    if !Stops(rest, o, qty) {
      var b := Top(rest, o, qty);
      var trade := Min(qty, rest[b].remaining);
      ReduceKeepsPositive(rest, b, trade);
      FilledAgainstAbsent(Reduce(rest, b, trade), o, qty - trade, exec + 1, id);
    }
  }

  /** The list left by scan-and-trade is the closed form: every entry gave up exactly its share. */
  lemma {:induction false} MatchLeavesAllocated(rest: seq<BookEntry>, o: Incoming, qty: nat, exec: ExecutionId)
    requires AllPositive(rest)
    ensures Match(rest, o, qty, exec).rest == Allocated(rest, o, qty, |rest|)
    decreases |rest|, qty
  {
    hide Scan, Acceptable;
    if Stops(rest, o, qty) {
      if qty != 0 { StoppedMeansNothingEligible(rest, o); }
      AllocatedNothing(rest, o, qty, |rest|);
    } else {
      var b := Top(rest, o, qty);
      var trade := Min(qty, rest[b].remaining);
      var r := Reduce(rest, b, trade);
      AllocatedAfterTrade(rest, o, qty, b);
      MatchLeavesAllocated(r, o, qty - trade, exec + 1);
    }
  }

  /** The trades made by scan-and-trade are the closed form: each entry trades exactly its share. */
  lemma {:induction false} MatchTradesShares(rest: seq<BookEntry>, o: Incoming, qty: nat, exec: ExecutionId, i: nat)
    requires WellFormed(rest) && i < |rest|
    ensures FilledAgainst(Match(rest, o, qty, exec).fills, rest[i].orderId) == Share(rest, o, qty, i)
    decreases |rest|, qty
  {
    hide Scan, Acceptable;
    if Stops(rest, o, qty) {
      if qty != 0 { StoppedMeansNothingEligible(rest, o); }
      AllocatedNothing(rest, o, qty, |rest|);
    } else {
      var b := Top(rest, o, qty);
      var trade := Min(qty, rest[b].remaining);
      var r := Reduce(rest, b, trade);
      ReduceKeeps(rest, b, trade);
      MatchStep(rest, o, qty, exec, b, trade, rest[i].orderId);
      ShareAfterTrade(rest, o, qty, b, i);
      if trade < rest[b].remaining {
        MatchTradesShares(r, o, qty - trade, exec + 1, i);
      } else if i == b {
        assert !HasId(r, rest[b].orderId);
        FilledAgainstAbsent(r, o, qty - trade, exec + 1, rest[b].orderId);
      } else {
        MatchTradesShares(r, o, qty - trade, exec + 1, if i < b then i else i - 1);
      }
    }
  }

  /** No queue jumping: an entry trades only when everything ahead of it is exhausted. */
  lemma NoQueueJumping(rest: seq<BookEntry>, o: Incoming, qty: nat, exec: ExecutionId, j: nat, i: nat)
    requires WellFormed(rest) && j < |rest| && i < |rest| && Precedes(rest, j, i)
    requires FilledAgainst(Match(rest, o, qty, exec).fills, rest[i].orderId) > 0
    ensures FilledAgainst(Match(rest, o, qty, exec).fills, rest[j].orderId) == rest[j].remaining
    ensures !HasId(Match(rest, o, qty, exec).rest, rest[j].orderId)
  {
    MatchLeavesAllocated(rest, o, qty, exec);
    MatchTradesShares(rest, o, qty, exec, i);
    MatchTradesShares(rest, o, qty, exec, j);
    AheadBound(rest, j, i, |rest|);
    AheadNonNegative(rest, j, |rest|);
    AllocatedDrops(rest, o, qty, j, |rest|);
  }

  lemma {:induction false} AllocatedDrops(rest: seq<BookEntry>, o: Incoming, qty: nat, j: nat, n: nat)
    requires DistinctIds(rest) && j < |rest| && n <= |rest| && Share(rest, o, qty, j) == rest[j].remaining
    ensures !HasId(Allocated(rest, o, qty, n), rest[j].orderId)
  {
    if n > 0 { AllocatedDrops(rest, o, qty, j, n - 1); }
  }

  lemma {:induction false} LiquidityNone(rest: seq<BookEntry>, o: Incoming)
    requires forall i | 0 <= i < |rest| :: !Eligible(rest[i], o)
    ensures Liquidity(rest, o) == 0
  {
    if rest != [] { LiquidityNone(rest[..|rest| - 1], o); }
  }

  lemma {:induction false} LiquidityNonNegative(rest: seq<BookEntry>, o: Incoming)
    requires AllPositive(rest)
    ensures Liquidity(rest, o) >= 0
  {
    if rest != [] { LiquidityNonNegative(rest[..|rest| - 1], o); }
  }

  lemma {:induction false} LiquidityAfterTrade(rest: seq<BookEntry>, o: Incoming, b: nat, q: Quantity)
    requires b < |rest| && Eligible(rest[b], o) && 0 < q <= rest[b].remaining
    ensures Liquidity(Reduce(rest, b, q), o) == Liquidity(rest, o) - q
  {
    var n := |rest| - 1;
    var r := Reduce(rest, b, q);
    if b == n {
      if q == rest[b].remaining {
        assert r == rest[..n];
      } else {
        assert r[..n] == rest[..n];
      }
    } else {
      LiquidityAfterTrade(rest[..n], o, b, q);
      assert r[..|r| - 1] == Reduce(rest[..n], b, q);
      assert r[|r| - 1] == rest[n];
    }
  }

  /** The trades and the unfilled rest add up to the incoming quantity. */
  lemma {:induction false} MatchConserves(rest: seq<BookEntry>, o: Incoming, qty: nat, exec: ExecutionId)
    requires AllPositive(rest)
    ensures var m := Match(rest, o, qty, exec); TotalQuantity(m.fills) + m.remaining == qty
    decreases |rest|, qty
  {
    hide Scan, Acceptable;
    if !Stops(rest, o, qty) {
      var b := Top(rest, o, qty);
      var trade := Min(qty, rest[b].remaining);
      ReduceKeepsPositive(rest, b, trade);
      MatchConserves(Reduce(rest, b, trade), o, qty - trade, exec + 1);
    }
  }

  lemma {:induction false} MatchConsumesLiquidity(rest: seq<BookEntry>, o: Incoming, qty: nat, exec: ExecutionId)
    requires AllPositive(rest)
    ensures var m := Match(rest, o, qty, exec); Liquidity(rest, o) - Liquidity(m.rest, o) == qty - m.remaining
    ensures var m := Match(rest, o, qty, exec); m.remaining > 0 ==> Liquidity(m.rest, o) == 0
    decreases |rest|, qty
  {
    hide Scan, Acceptable;
    if Stops(rest, o, qty) {
      if qty != 0 {
        StoppedMeansNothingEligible(rest, o);
        LiquidityNone(rest, o);
      }
    } else {
      var b := Top(rest, o, qty);
      var trade := Min(qty, rest[b].remaining);
      ReduceKeepsPositive(rest, b, trade);
      LiquidityAfterTrade(rest, o, b, trade);
      MatchConsumesLiquidity(Reduce(rest, b, trade), o, qty - trade, exec + 1);
    }
  }

  /** Maximality: the incoming order trades as much as its quantity, side and limit allow. */
  lemma MatchIsMaximal(rest: seq<BookEntry>, o: Incoming, qty: nat, exec: ExecutionId)
    requires WellFormed(rest)
    ensures TotalQuantity(Match(rest, o, qty, exec).fills) == Min(qty, Liquidity(rest, o))
  {
    MatchKeeps(rest, o, qty, exec);
    MatchBoundsRemaining(rest, o, qty, exec);
    MatchConserves(rest, o, qty, exec);
    MatchConsumesLiquidity(rest, o, qty, exec);
    LiquidityNonNegative(Match(rest, o, qty, exec).rest, o);
  }

  /** The trades are numbered consecutively, name the incoming order, and respect its limit. */
  lemma {:induction false} FillsAreNumberedAndAcceptable(rest: seq<BookEntry>, o: Incoming, qty: nat, exec: ExecutionId, k: nat)
    requires AllPositive(rest) && k < |Match(rest, o, qty, exec).fills|
    ensures var f := Match(rest, o, qty, exec).fills[k];
            && f.executionId == exec + k && f.symbol == o.symbol && f.aggressiveId == o.id && f.aggressiveSide == o.side
            && f.quantity > 0 && Acceptable(o, f.price)
    decreases |rest|, qty
  {
    hide Scan, Acceptable;
    var b := Top(rest, o, qty);
    var trade := Min(qty, rest[b].remaining);
    ReduceKeepsPositive(rest, b, trade);
    if k > 0 {
      FillsAreNumberedAndAcceptable(Reduce(rest, b, trade), o, qty - trade, exec + 1, k - 1);
    }
  }

  /** No trade is worse for the incoming order than its limit. */
  lemma FillsRespectTheLimit(rest: seq<BookEntry>, o: Incoming, qty: nat, exec: ExecutionId, k: nat)
    requires AllPositive(rest) && k < |Match(rest, o, qty, exec).fills| && o.orderType.Limit?
    ensures var f := Match(rest, o, qty, exec).fills[k]; if o.side.Buy? then f.price <= o.price else f.price >= o.price
  {
    hide Match;
    FillsAreNumberedAndAcceptable(rest, o, qty, exec, k);
  }

  /**
  The answer to a new order. Which error it is; otherwise what rests is reported exactly when it does: the unfilled part of a
  limit order, at its own price, as the latest arrival.
  */
  lemma AnswerReportsWhatRests(rest: seq<BookEntry>, o: Incoming, qty: Quantity, exec: ExecutionId)
    requires WellFormed(rest)
    ensures var (after, r) := AddOrder(rest, o, qty, exec);
            if qty <= 0 then after == rest && r == Err(InvalidQuantity)
            else if o.orderType.Limit? && o.price <= 0 then after == rest && r == Err(InvalidPrice)
            else if HasId(rest, o.id) then after == rest && r == Err(DuplicateOrder)
            else
              && r.Ok?
              && var unfilled := qty - TotalQuantity(r.value.fills);
                 if o.orderType.Limit? && unfilled > 0 then
                   var entry := BookEntry(o.id, o.side, o.price, unfilled);
                   r.value.resting == Some(entry) && after != [] && after[|after| - 1] == entry
                 else r.value.resting == None && unfilled >= 0 && !HasId(after, o.id)
  {
    hide Match, TotalQuantity;
    if qty > 0 {
      MatchConserves(rest, o, qty, exec);
      MatchBoundsRemaining(rest, o, qty, exec);
      MatchAddsNoId(rest, o, qty, exec, o.id);
    }
  }

  lemma OneFillUnlessExhausted(rest: seq<BookEntry>, o: Incoming, qty: nat, exec: ExecutionId)
    requires AllPositive(rest) && !Stops(rest, o, qty)
    ensures qty < rest[Top(rest, o, qty)].remaining ==> |Match(rest, o, qty, exec).fills| == 1
  {
    hide Match, Scan, Acceptable;
    var b := Top(rest, o, qty);
    MatchUnfolds(rest, o, qty, exec);
    if qty < rest[b].remaining {
      MatchStops(Reduce(rest, b, qty), o, 0, exec + 1);
    }
  }

  /** Trade `k` is against a resting order of the other side, at its price; every trade but the last exhausts it. */
  lemma {:induction false} FillExhaustsItsEntry(rest: seq<BookEntry>, o: Incoming, qty: nat, exec: ExecutionId, k: nat) returns (i: nat)
    requires AllPositive(rest) && k < |Match(rest, o, qty, exec).fills|
    ensures i < |rest| && rest[i].side == Opposite(o.side)
    ensures var f := Match(rest, o, qty, exec).fills;
            && rest[i].orderId == f[k].passiveId && rest[i].price == f[k].price && f[k].quantity <= rest[i].remaining
            && (k < |f| - 1 ==> f[k].quantity == rest[i].remaining)
            && (k > 0 ==> i != Top(rest, o, qty) && f[0].quantity == rest[Top(rest, o, qty)].remaining)
    decreases |rest|, qty
  {
    hide Match, Scan, Acceptable;
    if Stops(rest, o, qty) { MatchStops(rest, o, qty, exec); }
    var b := Top(rest, o, qty);
    var trade := Min(qty, rest[b].remaining);
    MatchUnfolds(rest, o, qty, exec);
    OneFillUnlessExhausted(rest, o, qty, exec);
    if k == 0 {
      i := b;
    } else {
      var r := Reduce(rest, b, trade);
      var i' := FillExhaustsItsEntry(r, o, qty - trade, exec + 1, k - 1);
      i := Shift(b, i');
      assert r[i'] == rest[i];
    }
  }

  /** Prices never improve from one trade to a later one, and no resting order trades twice. */
  lemma {:induction false} FillPricesWorsen(rest: seq<BookEntry>, o: Incoming, qty: nat, exec: ExecutionId, k: nat, l: nat)
    requires WellFormed(rest) && k < l < |Match(rest, o, qty, exec).fills|
    ensures var f := Match(rest, o, qty, exec).fills;
            !Better(Opposite(o.side), f[l].price, f[k].price) && f[l].passiveId != f[k].passiveId
    decreases |rest|, qty
  {
    hide Match, Scan, Acceptable;
    if Stops(rest, o, qty) { MatchStops(rest, o, qty, exec); }
    var b := Top(rest, o, qty);
    var trade := Min(qty, rest[b].remaining);
    MatchUnfolds(rest, o, qty, exec);
    ReduceKeeps(rest, b, trade);
    if k == 0 {
      var i := FillExhaustsItsEntry(rest, o, qty, exec, l);
      BestIsFirstAmongBest(rest, Opposite(o.side));
    } else {
      FillPricesWorsen(Reduce(rest, b, trade), o, qty - trade, exec + 1, k - 1, l - 1);
    }
  }

  // ---------- Additivity ----------

  /** Two trades against one entry are one trade of the sum. */
  lemma ReduceTwice(rest: seq<BookEntry>, b: nat, q1: Quantity, q2: Quantity)
    requires b < |rest| && 0 < q1 < rest[b].remaining && 0 < q2 <= rest[b].remaining - q1
    ensures Reduce(Reduce(rest, b, q1), b, q2) == Reduce(rest, b, q1 + q2)
  {}

  lemma {:induction false} ScanAfterPartial(rest: seq<BookEntry>, side: Side, b: nat, e: BookEntry, n: nat)
    requires b < |rest| && e.side == rest[b].side && e.price == rest[b].price && n <= |rest|
    ensures Scan(rest[b := e], side, n) == Scan(rest, side, n)
  {
    if n > 0 { ScanAfterPartial(rest, side, b, e, n - 1); }
  }

  /** Changing only the size of an entry does not move the best position. */
  lemma BestAfterPartial(rest: seq<BookEntry>, side: Side, b: nat, e: BookEntry)
    requires b < |rest| && e.side == rest[b].side && e.price == rest[b].price
    ensures Best(rest[b := e], side) == Best(rest, side)
  {
    ScanAfterPartial(rest, side, b, e, |rest|);
  }

  /** The numbering of trades influences nothing else. */
  lemma {:induction false} SameButNumbers(rest: seq<BookEntry>, o: Incoming, qty: nat, e1: ExecutionId, e2: ExecutionId, id: OrderId)
    requires AllPositive(rest)
    ensures var m1, m2 := Match(rest, o, qty, e1), Match(rest, o, qty, e2);
            m1.rest == m2.rest && m1.remaining == m2.remaining && FilledAgainst(m1.fills, id) == FilledAgainst(m2.fills, id)
    decreases |rest|, qty
  {
    hide Scan, Acceptable;
    if !Stops(rest, o, qty) {
      var b := Top(rest, o, qty);
      var trade := Min(qty, rest[b].remaining);
      ReduceKeepsPositive(rest, b, trade);
      SameButNumbers(Reduce(rest, b, trade), o, qty - trade, e1 + 1, e2 + 1, id);
    }
  }

  ghost predicate SplitAgrees(first: Matched, second: Matched, whole: Matched, id: OrderId) {
    && second.rest == whole.rest
    && first.remaining + second.remaining == whole.remaining
    && FilledAgainst(first.fills, id) + FilledAgainst(second.fills, id) == FilledAgainst(whole.fills, id)
  }

  /** A quantity the best entry absorbs, followed by more: the second match resumes with that same entry. */
  lemma SplitInsideBest(rest: seq<BookEntry>, o: Incoming, q1: nat, q2: nat, e1: ExecutionId, e2: ExecutionId, e: ExecutionId, id: OrderId)
    requires AllPositive(rest) && !Stops(rest, o, q1) && q1 < rest[Top(rest, o, q1)].remaining
    ensures AllPositive(Match(rest, o, q1, e1).rest)
    ensures SplitAgrees(Match(rest, o, q1, e1), Match(Match(rest, o, q1, e1).rest, o, q2, e2), Match(rest, o, q1 + q2, e), id)
  {
    hide Match, Scan, Acceptable;
    var b := Top(rest, o, q1);
    var r := Reduce(rest, b, q1);
    ReduceKeepsPositive(rest, b, q1);
    MatchStep(rest, o, q1, e1, b, q1, id);
    BestAfterPartial(rest, Opposite(o.side), b, r[b]);
    var t := Min(q1 + q2, rest[b].remaining);
    MatchStep(rest, o, q1 + q2, e, b, t, id);
    MatchStops(r, o, 0, e1 + 1);
    if q2 > 0 {
      var t2 := t - q1;
      MatchStep(r, o, q2, e2, b, t2, id);
      ReduceTwice(rest, b, q1, t2);
      ReduceKeepsPositive(r, b, t2);
      SameButNumbers(Reduce(r, b, t2), o, q2 - t2, e2 + 1, e + 1, id);
    } else {
      SameButNumbers(r, o, 0, e2, e + 1, id);
    }
  }

  /**
  Splitting an order changes nothing: matching q1 and then q2 under the same limit leaves the same list and
  trades the same amount with every resting order as matching q1 + q2 at once.
  */
  lemma {:induction false} MatchIsAdditive(rest: seq<BookEntry>, o: Incoming, q1: nat, q2: nat, e1: ExecutionId, e2: ExecutionId, e: ExecutionId, id: OrderId)
    requires AllPositive(rest)
    ensures AllPositive(Match(rest, o, q1, e1).rest)
    ensures SplitAgrees(Match(rest, o, q1, e1), Match(Match(rest, o, q1, e1).rest, o, q2, e2), Match(rest, o, q1 + q2, e), id)
    decreases |rest|, q1
  {
    hide Match, Scan, Acceptable;
    if Stops(rest, o, q1) {
      MatchStops(rest, o, q1, e1);
      if q1 > 0 {
        MatchStops(rest, o, q2, e2);
        MatchStops(rest, o, q1 + q2, e);
      }
    }
    if q1 == 0 {
      SameButNumbers(rest, o, q2, e2, e, id);
    } else if !Stops(rest, o, q1) {
      var b := Top(rest, o, q1);
      if q1 < rest[b].remaining {
        SplitInsideBest(rest, o, q1, q2, e1, e2, e, id);
      } else {
        var t := rest[b].remaining;
        ReduceKeepsPositive(rest, b, t);
        MatchStep(rest, o, q1, e1, b, t, id);
        MatchStep(rest, o, q1 + q2, e, b, t, id);
        MatchIsAdditive(Reduce(rest, b, t), o, q1 - t, q2, e1 + 1, e2, e + 1, id);
      }
    }
  }
}
