/** Depth snapshots of a book, stated over the flat list of resting orders. */
module Snapshots {
  import opened Types
  import opened PriceTime
  import opened BookLevels

  /** One row of a depth snapshot. */
  datatype PriceLevel = PriceLevel(price: Price, totalQty: Quantity, orderCount: nat)

  ghost function SumRemaining(queue: seq<BookEntry>): Quantity {
    if queue == [] then 0 else SumRemaining(queue[..|queue| - 1]) + queue[|queue| - 1].remaining
  }

  ghost function SumCounts(levels: seq<PriceLevel>): nat {
    if levels == [] then 0 else SumCounts(levels[..|levels| - 1]) + levels[|levels| - 1].orderCount
  }

  /** How many of the first `n` orders rest on `side` at one of `prices`. */
  ghost function CountAt(rest: seq<BookEntry>, side: Side, prices: set<Price>, n: nat): nat
    requires n <= |rest|
  {
    if n == 0 then 0
    else CountAt(rest, side, prices, n - 1) + (if rest[n - 1].side == side && rest[n - 1].price in prices then 1 else 0)
  }

  /** The rows are strictly sorted best first, and each sums up the queue resting at its price. */
  ghost predicate IsSnapshot(rows: seq<PriceLevel>, rest: seq<BookEntry>, side: Side) {
    && (forall i, j | 0 <= i < j < |rows| :: Better(side, rows[i].price, rows[j].price))
    && (forall i | 0 <= i < |rows| ::
          && rows[i].totalQty == SumRemaining(Level(rest, side, rows[i].price))
          && rows[i].orderCount == |Level(rest, side, rows[i].price)| > 0)
    && (forall k | 0 <= k < |rest| && rest[k].side == side :: exists i :: 0 <= i < |rows| && rows[i].price == rest[k].price)
  }

  lemma {:induction false} CountOneMore(rest: seq<BookEntry>, side: Side, prices: set<Price>, p: Price, n: nat)
    requires n <= |rest| && p !in prices
    ensures CountAt(rest, side, prices + {p}, n) == CountAt(rest, side, prices, n) + |Queue(rest, side, p, n)|
  {
    if n > 0 { CountOneMore(rest, side, prices, p, n - 1); }
  }

  lemma {:induction false} CountBothSides(rest: seq<BookEntry>, bidPrices: set<Price>, askPrices: set<Price>, n: nat)
    requires n <= |rest|
    requires forall i | 0 <= i < n :: rest[i].price in (if rest[i].side.Buy? then bidPrices else askPrices)
    ensures CountAt(rest, Buy, bidPrices, n) + CountAt(rest, Sell, askPrices, n) == n
  {
    if n > 0 { CountBothSides(rest, bidPrices, askPrices, n - 1); }
  }

  lemma {:induction false} CountNone(rest: seq<BookEntry>, side: Side, n: nat)
    requires n <= |rest|
    ensures CountAt(rest, side, {}, n) == 0
  {
    if n > 0 { CountNone(rest, side, n - 1); }
  }

  /** As many index entries as resting orders. */
  lemma {:induction false} IndexSize(index: map<OrderId, IndexEntry>, rest: seq<BookEntry>)
    requires DistinctIds(rest) && IndexMatches(index, rest)
    ensures |index| == |rest|
  {
    if rest == [] {
      assert index.Keys == {};
      assert |index.Keys| == 0;
    } else {
      var n := |rest| - 1;
      var id := rest[n].orderId;
      var smaller := index - {id};
      forall k | k in smaller ensures HasId(rest[..n], k) {
        var i :| 0 <= i < |rest| && rest[i].orderId == k;
        assert rest[..n][i].orderId == k;
      }
      IndexSize(smaller, rest[..n]);
      assert index.Keys == smaller.Keys + {id};
      assert |index.Keys| == |smaller.Keys| + 1;
    }
  }

  /** The order counts of the two snapshots of a book add up to the number of resting orders. */
  lemma SnapshotsCountEveryOrder(rest: seq<BookEntry>, bidRows: seq<PriceLevel>, askRows: seq<PriceLevel>)
    requires IsSnapshot(bidRows, rest, Buy) && IsSnapshot(askRows, rest, Sell)
    ensures SumCounts(bidRows) + SumCounts(askRows) == |rest|
  {
    hide Queue, Level;
    var bidPrices := set i | 0 <= i < |bidRows| :: bidRows[i].price;
    var askPrices := set i | 0 <= i < |askRows| :: askRows[i].price;
    RowsCountTheirPrices(rest, Buy, bidRows);
    RowsCountTheirPrices(rest, Sell, askRows);
    CountBothSides(rest, bidPrices, askPrices, |rest|);
  }

  lemma {:induction false} RowsCountTheirPrices(rest: seq<BookEntry>, side: Side, rows: seq<PriceLevel>)
    requires forall i, j | 0 <= i < j < |rows| :: Better(side, rows[i].price, rows[j].price)
    requires forall i | 0 <= i < |rows| :: rows[i].orderCount == |Level(rest, side, rows[i].price)|
    ensures SumCounts(rows) == CountAt(rest, side, set i | 0 <= i < |rows| :: rows[i].price, |rest|)
  {
    var prices := set i | 0 <= i < |rows| :: rows[i].price;
    if rows == [] {
      CountNone(rest, side, |rest|);
      assert prices == {};
    } else {
      var n := |rows| - 1;
      var init := rows[..n];
      var initPrices := set i | 0 <= i < |init| :: init[i].price;
      RowsCountTheirPrices(rest, side, init);
      assert rows[n].price !in initPrices;
      CountOneMore(rest, side, initPrices, rows[n].price, |rest|);
      forall p | p in prices ensures p in initPrices + {rows[n].price} {
        var i :| 0 <= i < |rows| && rows[i].price == p;
        if i < n { assert init[i].price == p; }
      }
      forall p | p in initPrices + {rows[n].price} ensures p in prices {
        if p == rows[n].price {
          assert rows[n].price in prices;
        } else {
          var i :| 0 <= i < |init| && init[i].price == p;
          assert rows[i].price == p;
        }
      }
      assert prices == initPrices + {rows[n].price};
    }
  }

  lemma {:induction false} QueueComesFromSide(rest: seq<BookEntry>, side: Side, p: Price, n: nat) returns (i: nat)
    requires n <= |rest| && Queue(rest, side, p, n) != []
    ensures i < n && rest[i].side == side && rest[i].price == p
  {
    if rest[n - 1].side == side && rest[n - 1].price == p {
      i := n - 1;
    } else {
      i := QueueComesFromSide(rest, side, p, n - 1);
    }
  }

  /** A book is uncrossed exactly when its best bid, if both sides have one, is below its best ask. */
  lemma UncrossedIffBestBelow(rest: seq<BookEntry>, bidRows: seq<PriceLevel>, askRows: seq<PriceLevel>)
    requires IsSnapshot(bidRows, rest, Buy) && IsSnapshot(askRows, rest, Sell)
    ensures Uncrossed(rest) <==> (bidRows != [] && askRows != [] ==> bidRows[0].price < askRows[0].price)
  {
    hide Queue;
    if bidRows != [] && askRows != [] {
      var i := QueueComesFromSide(rest, Buy, bidRows[0].price, |rest|);
      var j := QueueComesFromSide(rest, Sell, askRows[0].price, |rest|);
      if bidRows[0].price < askRows[0].price {
        forall i, j | 0 <= i < |rest| && 0 <= j < |rest| && rest[i].side.Buy? && rest[j].side.Sell?
          ensures rest[i].price < rest[j].price
        {
          var k :| 0 <= k < |bidRows| && bidRows[k].price == rest[i].price;
          var l :| 0 <= l < |askRows| && askRows[l].price == rest[j].price;
          assert k > 0 ==> Better(Buy, bidRows[0].price, bidRows[k].price);
          assert l > 0 ==> Better(Sell, askRows[0].price, askRows[l].price);
        }
      }
    }
  }
}
