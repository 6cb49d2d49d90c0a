/**
The price-time-priority book of one symbol: two maps from price to a first-in-first-out queue, and an index
from order id to side and price. The ghost field `resting` is the flat arrival-ordered list the maps stand
for; every method is proved to do to that list what the naive definition in `PriceTime` does.
*/
module OrderBooks {
  import opened Types
  import opened PriceTime
  import opened BookLevels
  import opened Snapshots

  /** The match `whole` is the trades made so far followed by the match of what is left. */
  ghost predicate Resumes(whole: Matched, fills: seq<Fill>, rest: seq<BookEntry>, o: Incoming, remaining: Quantity, exec: ExecutionId) {
    AllPositive(rest) && remaining >= 0
    && var m := Match(rest, o, remaining, exec);
       whole == Matched(m.rest, fills + m.fills, m.remaining)
  }

  lemma ResumesAfterTrade(whole: Matched, fills: seq<Fill>, rest: seq<BookEntry>, o: Incoming, remaining: Quantity, exec: ExecutionId)
    requires Resumes(whole, fills, rest, o, remaining, exec) && !Stops(rest, o, remaining)
    ensures var b := Top(rest, o, remaining);
            var trade := Min(remaining, rest[b].remaining);
            Resumes(whole, fills + [FillOf(o, rest[b], exec, trade)], Reduce(rest, b, trade), o, remaining - trade, exec + 1)
  {
    hide Scan, Match, Acceptable;
    var b := Top(rest, o, remaining);
    var trade := Min(remaining, rest[b].remaining);
    MatchUnfolds(rest, o, remaining, exec);
    var m' := Match(Reduce(rest, b, trade), o, remaining - trade, exec + 1);
    assert fills + ([FillOf(o, rest[b], exec, trade)] + m'.fills) == fills + [FillOf(o, rest[b], exec, trade)] + m'.fills;
  }

  lemma ResumesAtStart(rest: seq<BookEntry>, o: Incoming, qty: nat, exec: ExecutionId)
    requires AllPositive(rest)
    ensures Resumes(Match(rest, o, qty, exec), [], rest, o, qty, exec)
  {
    hide Match;
    var m := Match(rest, o, qty, exec);
    assert [] + m.fills == m.fills;
  }

  lemma ResumesAtEnd(whole: Matched, fills: seq<Fill>, rest: seq<BookEntry>, o: Incoming, remaining: Quantity, exec: ExecutionId)
    requires Resumes(whole, fills, rest, o, remaining, exec) && Stops(rest, o, remaining)
    ensures whole == Matched(rest, fills, remaining)
  {
    hide Match;
    MatchStops(rest, o, remaining, exec);
    assert fills + [] == fills;
  }

  lemma OutsideLimitStops(levels: Levels, best: Price, rest: seq<BookEntry>, o: Incoming, remaining: nat)
    requires LevelsMatch(levels, rest, Opposite(o.side)) && best in levels
    requires forall p | p in levels :: !Better(Opposite(o.side), p, best)
    requires !Acceptable(o, best)
    ensures Stops(rest, o, remaining)
  {
    hide Best, Level;
    LevelStarts(levels, best, rest, Opposite(o.side));
    HeadIsScanned(levels, best, rest, Opposite(o.side));
  }

  lemma ExhaustedStops(levels: Levels, rest: seq<BookEntry>, o: Incoming, remaining: nat)
    requires LevelsMatch(levels, rest, Opposite(o.side)) && (remaining == 0 || levels == map[])
    ensures Stops(rest, o, remaining)
  {
    hide Best, Level;
    if levels == map[] { NoLevelsNoScan(levels, rest, Opposite(o.side)); }
  }

  /** Trading with the head of the best level is the next step of the naive match. */
  lemma TradeStep(whole: Matched, fills: seq<Fill>, levels: Levels, best: Price, own: Levels, index: map<OrderId, IndexEntry>,
                  rest: seq<BookEntry>, o: Incoming, remaining: Quantity, exec: ExecutionId) returns (rest': seq<BookEntry>)
    requires WellFormed(rest) && remaining > 0
    requires best in levels && LevelsMatchDuring(levels, best, rest, Opposite(o.side)) && levels[best] != []
    requires forall p | p in levels :: !Better(Opposite(o.side), p, best)
    requires LevelsMatch(own, rest, o.side) && IndexMatches(index, rest)
    requires Acceptable(o, best)
    requires Resumes(whole, fills, rest, o, remaining, exec)
    ensures var passive := levels[best][0];
            var trade := Min(remaining, passive.remaining);
            && passive.remaining > 0 && passive.price == best
            && WellFormed(rest') && |rest'| <= |rest|
            && LevelsMatchDuring(levels[best := ReducedQueue(levels[best], passive, trade)], best, rest', Opposite(o.side))
            && LevelsMatch(own, rest', o.side)
            && IndexMatches(if trade == passive.remaining then index - {passive.orderId} else index, rest')
            && Resumes(whole, fills + [FillOf(o, passive, exec, trade)], rest', o, remaining - trade, exec + 1)
            && (trade == passive.remaining ==> |rest'| < |rest|)
  {
    hide Best, Queue, Level, LevelsMatch, LevelsMatchDuring, IndexMatches, DistinctIds, Resumes, Better;
    HeadIsScanned(levels, best, rest, Opposite(o.side));
    var b := Best(rest, Opposite(o.side)).value;
    var trade := Min(remaining, rest[b].remaining);
    rest' := Reduce(rest, b, trade);
    ResumesAfterTrade(whole, fills, rest, o, remaining, exec);
    ReduceKeeps(rest, b, trade);
    LevelsAfterReduce(levels, best, rest, Opposite(o.side), b, trade);
    OtherSideAfterReduce(own, rest, o.side, b, trade);
    IndexAfterReduce(index, rest, b, trade);
  }

  /** An indexed order is in the level the index names, so the inner searches of a cancel never fail. */
  lemma IndexedEntryIsInLevel(levels: Levels, index: map<OrderId, IndexEntry>, rest: seq<BookEntry>, id: OrderId) returns (e: BookEntry)
    requires IndexMatches(index, rest) && id in index && LevelsMatch(levels, rest, index[id].side)
    ensures e in rest && e.orderId == id && e.side == index[id].side && e.price == index[id].price
    ensures e.price in levels && e in levels[e.price]
  {
    hide Queue;
    var i :| 0 <= i < |rest| && rest[i].orderId == id;
    e := rest[i];
    QueueMembers(rest, e.side, e.price, |rest|);
  }

  /** Erasing position `k` of a level removes exactly that order from its side. */
  lemma RemovalFromLevel(levels: Levels, rest: seq<BookEntry>, side: Side, p: Price, k: nat)
    requires WellFormed(rest) && LevelsMatch(levels, rest, side) && p in levels && k < |levels[p]|
    ensures var removed := levels[p][k];
            var level := levels[p][..k] + levels[p][k + 1..];
            && removed in rest && removed.side == side && removed.price == p
            && LevelsMatch(if level == [] then levels - {p} else levels[p := level], Without(rest, removed.orderId), side)
  {
    hide Queue;
    QueueMembers(rest, side, p, |rest|);
    QueueDistinct(rest, side, p, |rest|);
    var removed := levels[p][k];
    assert removed in rest[..|rest|];
    EraseIsWithout(levels[p], k, removed.orderId);
    LevelsAfterWithout(levels, rest, side, removed);
  }

  lemma NonEmptyHasElement(prices: set<Price>)
    requires |prices| > 0
    ensures exists p :: p in prices
  {
    assert (forall p :: p !in prices) ==> prices == {};
  }

  /** A finite side that is not empty has a best price. */
  lemma {:induction false} BestPriceExists(prices: set<Price>, side: Side)
    requires |prices| > 0
    ensures exists p :: p in prices && forall q | q in prices :: !Better(side, q, p)
  {
    NonEmptyHasElement(prices);
    var x :| x in prices;
    var others := prices - {x};
    assert prices == others + {x};
    if |others| == 0 {
      assert forall q | q in prices :: !Better(side, q, x);
    } else {
      BestPriceExists(others, side);
      var y :| y in others && forall q | q in others :: !Better(side, q, y);
      var best := if Better(side, x, y) then x else y;
      assert forall q | q in prices :: !Better(side, q, best);
    }
  }

  /** The key a price-ordered map iterates first. */
  method FirstPrice(levels: Levels, side: Side) returns (best: Price)
    requires levels != map[]
    ensures best in levels && forall q | q in levels :: !Better(side, q, best)
  {
    assert |levels.Keys| > 0;
    BestPriceExists(levels.Keys, side);
    best :| best in levels.Keys && forall q | q in levels.Keys :: !Better(side, q, best);
  }

  /** The rows already emitted are those of the best prices; the levels in `todo` come later. */
  ghost predicate RowsSoFar(rows: seq<PriceLevel>, todo: Levels, levels: Levels, rest: seq<BookEntry>, side: Side) {
    && LevelsMatch(levels, rest, side)
    && (forall p | p in todo :: p in levels && todo[p] == levels[p])
    && |rows| + |todo| == |levels|
    && (forall i, j | 0 <= i < j < |rows| :: Better(side, rows[i].price, rows[j].price))
    && (forall i, p | 0 <= i < |rows| && p in todo :: Better(side, rows[i].price, p))
    && (forall i | 0 <= i < |rows| ::
          && rows[i].totalQty == SumRemaining(Level(rest, side, rows[i].price))
          && rows[i].orderCount == |Level(rest, side, rows[i].price)| > 0)
    && (forall p | p in levels && p !in todo :: exists i :: 0 <= i < |rows| && rows[i].price == p)
  }

  lemma RowsStart(levels: Levels, rest: seq<BookEntry>, side: Side)
    requires LevelsMatch(levels, rest, side)
    ensures RowsSoFar([], levels, levels, rest, side)
  {}

  lemma SumOneMore(queue: seq<BookEntry>, k: nat)
    requires k < |queue|
    ensures SumRemaining(queue[..k + 1]) == SumRemaining(queue[..k]) + queue[k].remaining
  {
    assert queue[..k + 1][..k] == queue[..k];
  }

  lemma RowsExtend(rows: seq<PriceLevel>, todo: Levels, levels: Levels, rest: seq<BookEntry>, side: Side, price: Price)
    requires RowsSoFar(rows, todo, levels, rest, side)
    requires price in todo && forall q | q in todo :: !Better(side, q, price)
    ensures RowsSoFar(rows + [PriceLevel(price, SumRemaining(todo[price]), |todo[price]|)], todo - {price}, levels, rest, side)
  {
    hide Level, SumRemaining, LevelsMatch, Better;
    LevelOfTodo(rows, todo, levels, rest, side, price);
    var row := PriceLevel(price, SumRemaining(todo[price]), |todo[price]|);
    var rows' := rows + [row];
    var todo' := todo - {price};
    OneKeyLess(todo, price);
    RowsStaySorted(rows, todo, side, row);
    forall p | p in levels && p !in todo' ensures exists i :: 0 <= i < |rows'| && rows'[i].price == p {
      if p == price {
        assert rows'[|rows|].price == p;
      } else {
        var i :| 0 <= i < |rows| && rows[i].price == p;
        assert rows'[i].price == p;
      }
    }
  }

  lemma OneKeyLess(todo: Levels, price: Price)
    requires price in todo
    ensures |todo - {price}| == |todo| - 1
  {
    var todo' := todo - {price};
    assert todo.Keys == todo'.Keys + {price};
    assert |todo.Keys| == |todo'.Keys| + 1;
  }

  lemma LevelOfTodo(rows: seq<PriceLevel>, todo: Levels, levels: Levels, rest: seq<BookEntry>, side: Side, price: Price)
    requires RowsSoFar(rows, todo, levels, rest, side) && price in todo
    ensures todo[price] == Level(rest, side, price) && todo[price] != []
  {
    hide Level, SumRemaining;
  }

  lemma RowsStaySorted(rows: seq<PriceLevel>, todo: Levels, side: Side, row: PriceLevel)
    requires forall i, j | 0 <= i < j < |rows| :: Better(side, rows[i].price, rows[j].price)
    requires forall i, p | 0 <= i < |rows| && p in todo :: Better(side, rows[i].price, p)
    requires row.price in todo && forall q | q in todo :: !Better(side, q, row.price)
    ensures var rows' := rows + [row];
            && (forall i, j | 0 <= i < j < |rows'| :: Better(side, rows'[i].price, rows'[j].price))
            && (forall i, p | 0 <= i < |rows'| && p in todo - {row.price} :: Better(side, rows'[i].price, p))
  {
    var rows' := rows + [row];
    forall i, p | 0 <= i < |rows'| && p in todo - {row.price} ensures Better(side, rows'[i].price, p) {
      assert p in todo;
      if i < |rows| { assert Better(side, rows[i].price, p); }
    }
  }

  lemma RowsEnd(rows: seq<PriceLevel>, levels: Levels, rest: seq<BookEntry>, side: Side)
    requires RowsSoFar(rows, map[], levels, rest, side)
    ensures IsSnapshot(rows, rest, side) && |rows| == |levels|
  {
    hide Level, SumRemaining;
  }

  class OrderBook {
    const symbol: Symbol
    /** Bids: the best is the highest price; first in, first out within a price. */
    var bids: Levels
    /** Asks: the best is the lowest price; first in, first out within a price. */
    var asks: Levels
    var idIndex: map<OrderId, IndexEntry>
    var nextExecutionId: ExecutionId
    /** All resting orders of both sides in arrival order. */
    ghost var resting: seq<BookEntry>

    ghost predicate Valid()
      reads this
    {
      && WellFormed(resting)
      && LevelsMatch(bids, resting, Buy)
      && LevelsMatch(asks, resting, Sell)
      && IndexMatches(idIndex, resting)
    }

    constructor (symbol: Symbol)
      ensures Valid() && resting == [] && this.symbol == symbol && nextExecutionId == 1
      ensures bids == map[] && asks == map[] && idIndex == map[]
    {
      this.symbol := symbol;
      bids, asks, idIndex, nextExecutionId := map[], map[], map[], 1;
      resting := [];
    }

    /** Match an incoming order against the opposite side. */
    method MatchAgainst(o: Incoming, qty: Quantity) returns (fills: seq<Fill>, remaining: Quantity)
      requires Valid() && qty > 0
      modifies this
      ensures Valid()
      ensures var m := Match(old(resting), o, qty, old(nextExecutionId));
              resting == m.rest && fills == m.fills && remaining == m.remaining
      ensures nextExecutionId == old(nextExecutionId) + |fills|
    {
      hide Best, Match, Level, LevelsMatch, LevelsMatchDuring, IndexMatches, DistinctIds, AllPositive, Resumes, Stops, Reduce;
      ghost var whole := Match(resting, o, qty, nextExecutionId);
      ResumesAtStart(resting, o, qty, nextExecutionId);
      fills, remaining := [], qty;
      var opposite := if o.side.Buy? then asks else bids;
      ghost var own := if o.side.Buy? then bids else asks;
      ghost var opp := Opposite(o.side);
      ghost var rest := resting;
      while remaining > 0 && opposite != map[]
        invariant bids == old(bids) && asks == old(asks)
        invariant WellFormed(rest) && remaining >= 0
        invariant LevelsMatch(opposite, rest, opp) && LevelsMatch(own, rest, o.side)
        invariant IndexMatches(idIndex, rest)
        invariant Resumes(whole, fills, rest, o, remaining, nextExecutionId)
        invariant nextExecutionId == old(nextExecutionId) + |fills|
        decreases |rest|, remaining
      {
        var best := FirstPrice(opposite, Opposite(o.side));
        if o.orderType.Limit? && !Acceptable(o, best) {
          OutsideLimitStops(opposite, best, rest, o, remaining);
          break;
        }
        LevelStarts(opposite, best, rest, opp);
        var queue := opposite[best];
        ghost var length, before := |rest|, remaining;
        ghost var prices := opposite.Keys;
        while remaining > 0 && queue != []
          invariant bids == old(bids) && asks == old(asks)
          invariant WellFormed(rest) && 0 <= remaining <= before && |rest| <= length
          invariant opposite.Keys == prices && best in opposite && queue == opposite[best]
          invariant LevelsMatchDuring(opposite, best, rest, opp) && LevelsMatch(own, rest, o.side)
          invariant IndexMatches(idIndex, rest)
          invariant Resumes(whole, fills, rest, o, remaining, nextExecutionId)
          invariant nextExecutionId == old(nextExecutionId) + |fills|
          invariant |rest| < length || remaining < before || queue != []
          decreases |rest|, remaining
        {
          var passive := queue[0];
          var trade := Min(remaining, passive.remaining);
          ghost var rest' := TradeStep(whole, fills, opposite, best, own, idIndex, rest, o, remaining, nextExecutionId);
          fills := fills + [Fill(nextExecutionId, o.symbol, o.id, passive.orderId, o.side, passive.price, trade)];
          nextExecutionId := nextExecutionId + 1;
          remaining := remaining - trade;
          if passive.remaining - trade == 0 {
            idIndex := idIndex - {passive.orderId};
            queue := queue[1..];
          } else {
            queue := [passive.(remaining := passive.remaining - trade)] + queue[1..];
          }
          opposite := opposite[best := queue];
          rest := rest';
        }
        if queue == [] {
          EmptyLevelGoes(opposite, best, rest, opp);
          opposite := opposite - {best};
        } else {
          LevelStays(opposite, best, rest, opp);
        }
      }
      if remaining == 0 || opposite == map[] { ExhaustedStops(opposite, rest, o, remaining); }
      ResumesAtEnd(whole, fills, rest, o, remaining, nextExecutionId);
      if o.side.Buy? {
        asks := opposite;
      } else {
        bids := opposite;
      }
      resting := rest;
    }

    /** Rest a quantity at the back of its price level. */
    method Rest(id: OrderId, side: Side, price: Price, qty: Quantity) returns (entry: BookEntry)
      requires Valid() && !HasId(resting, id) && qty > 0 && price > 0
      modifies this
      ensures Valid()
      ensures entry == BookEntry(id, side, price, qty) && resting == old(resting) + [entry]
      ensures nextExecutionId == old(nextExecutionId)
    {
      hide Queue, LevelsMatch, IndexMatches, WellFormed;
      entry := BookEntry(id, side, price, qty);
      WellFormedAfterAppend(resting, entry);
      LevelsAfterAppend(bids, resting, Buy, entry);
      LevelsAfterAppend(asks, resting, Sell, entry);
      IndexAfterAppend(idIndex, resting, entry);
      if side.Buy? {
        bids := bids[price := (if price in bids then bids[price] else []) + [entry]];
      } else {
        asks := asks[price := (if price in asks then asks[price] else []) + [entry]];
      }
      idIndex := idIndex[id := IndexEntry(side, price)];
      resting := resting + [entry];
    }

    /** Accept a new order: match it, and let what remains of a limit order rest. */
    method AddOrder(id: OrderId, side: Side, orderType: OrderType, price: Price, qty: Quantity)
      returns (r: Result<AddOrderResult>)
      requires Valid()
      modifies this
      ensures Valid()
      ensures (resting, r) == PriceTime.AddOrder(old(resting), Incoming(symbol, id, side, orderType, price), qty, old(nextExecutionId))
      ensures nextExecutionId == old(nextExecutionId) + (if r.Ok? then |r.value.fills| else 0)
      ensures r.Err? ==> unchanged(this)
    {
      hide Scan, Match, Queue;
      if qty <= 0 {
        return Err(InvalidQuantity);
      }
      if orderType.Limit? && price <= 0 {
        return Err(InvalidPrice);
      }
      if id in idIndex {
        return Err(DuplicateOrder);
      }
      var o := Incoming(symbol, id, side, orderType, price);
      MatchAddsNoId(resting, o, qty, nextExecutionId, id);
      MatchBoundsRemaining(resting, o, qty, nextExecutionId);
      var fills, remaining := MatchAgainst(o, qty);
      if remaining > 0 {
        if orderType.Market? {
          return Ok(AddOrderResult(fills, None));
        }
        var entry := Rest(id, side, price, remaining);
        return Ok(AddOrderResult(fills, Some(entry)));
      }
      return Ok(AddOrderResult(fills, None));
    }

    /** Remove a resting order. The searches by price and by id inside always succeed. */
    method CancelOrder(id: OrderId) returns (r: Result<BookEntry>)
      requires Valid()
      modifies this
      ensures Valid() && nextExecutionId == old(nextExecutionId)
      ensures r.Ok? <==> HasId(old(resting), id)
      ensures r.Ok? ==> r.value in old(resting) && r.value.orderId == id && resting == Without(old(resting), id)
      ensures r.Err? ==> r.error == OrderNotFound && unchanged(this)
    {
      hide Queue, WellFormed, LevelsMatch, IndexMatches;
      IndexKnows(idIndex, resting, id);
      if id !in idIndex {
        return Err(OrderNotFound);
      }
      var place := idIndex[id];
      var levels := if place.side.Buy? then bids else asks;
      ghost var e := IndexedEntryIsInLevel(levels, idIndex, resting, id);
      var level := levels[place.price];
      var k := 0;
      while level[k].orderId != id
        invariant 0 <= k < |level|
        invariant e !in level[..k]
        decreases |level| - k
      {
        assert level[..k + 1] == level[..k] + [level[k]];
        assert e in level[k + 1..] by {
          assert level == level[..k + 1] + level[k + 1..];
        }
        k := k + 1;
      }
      var removed := level[k];
      RemovalFromLevel(levels, resting, place.side, place.price, k);
      OtherSideAfterWithout(if place.side.Buy? then asks else bids, resting, Opposite(place.side), removed);
      IndexAfterWithout(idIndex, resting, id);
      WithoutKeeps(resting, id);
      level := level[..k] + level[k + 1..];
      if level == [] {
        levels := levels - {place.price};
      } else {
        levels := levels[place.price := level];
      }
      if place.side.Buy? {
        bids := levels;
      } else {
        asks := levels;
      }
      idIndex := idIndex - {id};
      resting := Without(resting, id);
      r := Ok(removed);
    }

    /** Put a persisted order back on the book without matching it. */
    method RestoreRestingOrder(id: OrderId, side: Side, price: Price, qty: Quantity) returns (r: Result<()>)
      requires Valid()
      modifies this
      ensures Valid() && nextExecutionId == old(nextExecutionId)
      ensures r == if qty <= 0 then Err(InvalidQuantity) else if price <= 0 then Err(InvalidPrice)
                   else if HasId(old(resting), id) then Err(DuplicateOrder) else Ok(())
      ensures r.Ok? ==> resting == old(resting) + [BookEntry(id, side, price, qty)]
      ensures r.Err? ==> unchanged(this)
    {
      if qty <= 0 {
        return Err(InvalidQuantity);
      }
      if price <= 0 {
        return Err(InvalidPrice);
      }
      if id in idIndex {
        return Err(DuplicateOrder);
      }
      var _ := Rest(id, side, price, qty);
      return Ok(());
    }

    /** The depth of one side, best price first. */
    static method SideLevels(levels: Levels, side: Side, ghost rest: seq<BookEntry>) returns (rows: seq<PriceLevel>)
      requires LevelsMatch(levels, rest, side)
      ensures IsSnapshot(rows, rest, side) && |rows| == |levels|
    {
      hide Level, LevelsMatch, RowsSoFar, IsSnapshot;
      rows := [];
      var todo := levels;
      RowsStart(levels, rest, side);
      while todo != map[]
        invariant RowsSoFar(rows, todo, levels, rest, side)
        decreases |todo|
      {
        var price := FirstPrice(todo, side);
        var queue := todo[price];
        var total := 0;
        for k := 0 to |queue|
          invariant total == SumRemaining(queue[..k])
        {
          SumOneMore(queue, k);
          total := total + queue[k].remaining;
        }
        assert queue[..|queue|] == queue;
        RowsExtend(rows, todo, levels, rest, side, price);
        rows := rows + [PriceLevel(price, total, |queue|)];
        OneKeyLess(todo, price);
        todo := todo - {price};
      }
      RowsEnd(rows, levels, rest, side);
    }

    method Bids() returns (rows: seq<PriceLevel>)
      requires Valid()
      ensures IsSnapshot(rows, resting, Buy) && |rows| == |bids|
    {
      rows := SideLevels(bids, Buy, resting);
    }

    method Asks() returns (rows: seq<PriceLevel>)
      requires Valid()
      ensures IsSnapshot(rows, resting, Sell) && |rows| == |asks|
    {
      rows := SideLevels(asks, Sell, resting);
    }

    method OrderCount() returns (count: nat)
      requires Valid()
      ensures count == |resting|
    {
      IndexSize(idIndex, resting);
      count := |idIndex|;
    }
  }
}
