/**
How the sorted price levels and the id index of a book represent the flat arrival-ordered list: each level
holds, in arrival order, exactly the entries of its side and price.
*/
module BookLevels {
  import opened Types
  import opened PriceTime

  datatype IndexEntry = IndexEntry(side: Side, price: Price)

  type Levels = map<Price, seq<BookEntry>>

  /** The queue at one side and price among the first `n` entries, in arrival order. */
  ghost function Queue(rest: seq<BookEntry>, side: Side, p: Price, n: nat): seq<BookEntry>
    requires n <= |rest|
  {
    if n == 0 then []
    else
      Queue(rest, side, p, n - 1)
      + (if rest[n - 1].side == side && rest[n - 1].price == p then [rest[n - 1]] else [])
  }

  ghost function Level(rest: seq<BookEntry>, side: Side, p: Price): seq<BookEntry> {
    Queue(rest, side, p, |rest|)
  }

  /** Every level is non-empty and is the queue of its price; every price of the side has its level. */
  ghost predicate LevelsMatch(levels: Levels, rest: seq<BookEntry>, side: Side) {
    && (forall p | p in levels :: levels[p] == Level(rest, side, p) && levels[p] != [])
    && (forall i | 0 <= i < |rest| && rest[i].side == side :: rest[i].price in levels)
  }

  /** As `LevelsMatch`, while the level `best` is being worked on and may be empty. */
  ghost predicate LevelsMatchDuring(levels: Levels, best: Price, rest: seq<BookEntry>, side: Side) {
    && (forall p | p in levels :: levels[p] == Level(rest, side, p) && (p != best ==> levels[p] != []))
    && (forall i | 0 <= i < |rest| && rest[i].side == side :: rest[i].price in levels)
    && best in levels
  }

  /** The index knows exactly the resting ids, each with the side and price it rests at. */
  ghost predicate IndexMatches(index: map<OrderId, IndexEntry>, rest: seq<BookEntry>) {
    && (forall i | 0 <= i < |rest| ::
          rest[i].orderId in index && index[rest[i].orderId] == IndexEntry(rest[i].side, rest[i].price))
    && (forall id | id in index :: HasId(rest, id))
  }

  lemma IndexKnows(index: map<OrderId, IndexEntry>, rest: seq<BookEntry>, id: OrderId)
    requires IndexMatches(index, rest)
    ensures id in index <==> HasId(rest, id)
  {}

  // ---------- Queues ----------

  lemma {:induction false} QueueMembers(rest: seq<BookEntry>, side: Side, p: Price, n: nat)
    requires n <= |rest|
    ensures forall e | e in Queue(rest, side, p, n) :: e.side == side && e.price == p && e in rest[..n]
    ensures forall i | 0 <= i < n && rest[i].side == side && rest[i].price == p :: rest[i] in Queue(rest, side, p, n)
  {
    if n > 0 {
      QueueMembers(rest, side, p, n - 1);
      assert rest[..n] == rest[..n - 1] + [rest[n - 1]];
    }
  }

  lemma {:induction false} QueueFrame(a: seq<BookEntry>, b: seq<BookEntry>, side: Side, p: Price, n: nat)
    requires n <= |a| && n <= |b| && forall i | 0 <= i < n :: a[i] == b[i]
    ensures Queue(a, side, p, n) == Queue(b, side, p, n)
  {
    if n > 0 { QueueFrame(a, b, side, p, n - 1); }
  }

  lemma {:induction false} QueueEmpty(rest: seq<BookEntry>, side: Side, p: Price, n: nat)
    requires n <= |rest| && forall i | 0 <= i < n :: !(rest[i].side == side && rest[i].price == p)
    ensures Queue(rest, side, p, n) == []
  {
    if n > 0 { QueueEmpty(rest, side, p, n - 1); }
  }

  lemma LevelAppend(rest: seq<BookEntry>, e: BookEntry, side: Side, p: Price)
    ensures Level(rest + [e], side, p) == Level(rest, side, p) + (if e.side == side && e.price == p then [e] else [])
  {
    QueueFrame(rest + [e], rest, side, p, |rest|);
  }

  /** The first entry of its side and price heads its queue. */
  lemma {:induction false} QueueHead(rest: seq<BookEntry>, b: nat, n: nat)
    requires b < n <= |rest|
    requires forall j | 0 <= j < b :: !(rest[j].side == rest[b].side && rest[j].price == rest[b].price)
    ensures Queue(rest, rest[b].side, rest[b].price, n) != []
    ensures Queue(rest, rest[b].side, rest[b].price, n)[0] == rest[b]
  {
    if n == b + 1 {
      QueueEmpty(rest, rest[b].side, rest[b].price, b);
    } else {
      QueueHead(rest, b, n - 1);
    }
  }

  lemma QueueLast(rest: seq<BookEntry>, side: Side, p: Price, n: nat)
    requires 0 < n <= |rest|
    ensures Queue(rest, side, p, n) == Queue(rest, side, p, n - 1)
              + (if rest[n - 1].side == side && rest[n - 1].price == p then [rest[n - 1]] else [])
  {}

  /** The first entry of its side and price stands in front of the queue the others form without it. */
  lemma {:induction false} QueueSplit(rest: seq<BookEntry>, b: nat, e: BookEntry, side: Side, p: Price, n: nat)
    requires b < n <= |rest| && e.side == rest[b].side && e.price == rest[b].price
    requires forall j | 0 <= j < b :: !(rest[j].side == rest[b].side && rest[j].price == rest[b].price)
    ensures Queue(rest[b := e], side, p, n)
         == (if side == e.side && p == e.price then [e] else []) + Queue(rest[..b] + rest[b + 1..], side, p, n - 1)
  {
    hide Queue;
    var removed := rest[..b] + rest[b + 1..];
    QueueLast(rest[b := e], side, p, n);
    if n == b + 1 {
      QueueFrame(rest[b := e], rest, side, p, b);
      QueueFrame(removed, rest, side, p, b);
      if side == e.side && p == e.price { QueueEmpty(rest, side, p, b); }
    } else {
      QueueSplit(rest, b, e, side, p, n - 1);
      QueueLast(removed, side, p, n - 1);
      assert removed[n - 2] == rest[n - 1] == rest[b := e][n - 1];
    }
  }

  /** The level of entry `b` after it traded `q`. */
  ghost function ReducedQueue(queue: seq<BookEntry>, e: BookEntry, q: Quantity): seq<BookEntry>
    requires queue != []
  {
    if q == e.remaining then queue[1..] else [e.(remaining := e.remaining - q)] + queue[1..]
  }

  /** Trading with the head of a level changes that level's head and no other level. */
  lemma LevelAfterReduce(rest: seq<BookEntry>, b: nat, q: Quantity, side: Side, p: Price)
    requires b < |rest| && 0 < q <= rest[b].remaining
    requires forall j | 0 <= j < b :: !(rest[j].side == rest[b].side && rest[j].price == rest[b].price)
    ensures side == rest[b].side && p == rest[b].price ==>
              && Level(rest, side, p) != [] && Level(rest, side, p)[0] == rest[b]
              && Level(Reduce(rest, b, q), side, p) == ReducedQueue(Level(rest, side, p), rest[b], q)
    ensures side != rest[b].side || p != rest[b].price ==> Level(Reduce(rest, b, q), side, p) == Level(rest, side, p)
  {
    hide Queue;
    assert rest[b := rest[b]] == rest;
    QueueSplit(rest, b, rest[b], side, p, |rest|);
    QueueSplit(rest, b, rest[b].(remaining := rest[b].remaining - q), side, p, |rest|);
  }

  /** The head of the best level is what the scan of the flat list finds. */
  lemma HeadIsScanned(levels: Levels, best: Price, rest: seq<BookEntry>, side: Side)
    requires LevelsMatchDuring(levels, best, rest, side) && levels[best] != []
    requires forall p | p in levels :: !Better(side, p, best)
    ensures Best(rest, side).Some?
    ensures rest[Best(rest, side).value].price == best && rest[Best(rest, side).value] == levels[best][0]
    ensures var b := Best(rest, side).value;
            forall j | 0 <= j < b :: !(rest[j].side == rest[b].side && rest[j].price == rest[b].price)
  {
    hide Scan;
    QueueMembers(rest, side, best, |rest|);
    assert levels[best][0] in rest[..|rest|];
    BestIsFirstAmongBest(rest, side);
    var b := Best(rest, side).value;
    assert rest[b].price in levels;
    QueueHead(rest, b, |rest|);
  }

  /** An empty side has no levels, and the scan finds nothing on it. */
  lemma NoLevelsNoScan(levels: Levels, rest: seq<BookEntry>, side: Side)
    requires LevelsMatch(levels, rest, side) && levels == map[]
    ensures Best(rest, side).None?
  {}

  // ---------- One trade on the representation ----------

  lemma IndexAfterReduce(index: map<OrderId, IndexEntry>, rest: seq<BookEntry>, b: nat, q: Quantity)
    requires WellFormed(rest) && b < |rest| && 0 < q <= rest[b].remaining && IndexMatches(index, rest)
    ensures q == rest[b].remaining ==> IndexMatches(index - {rest[b].orderId}, Reduce(rest, b, q))
    ensures q != rest[b].remaining ==> IndexMatches(index, Reduce(rest, b, q))
  {
    var r := Reduce(rest, b, q);
    forall i | 0 <= i < |rest| && i != b ensures HasId(r, rest[i].orderId) {
      var k := if q == rest[b].remaining && i > b then i - 1 else i;
      assert r[k].orderId == rest[i].orderId;
    }
    if q != rest[b].remaining { assert r[b].orderId == rest[b].orderId; }
  }

  lemma LevelsAfterReduce(levels: Levels, best: Price, rest: seq<BookEntry>, side: Side, b: nat, q: Quantity)
    requires LevelsMatchDuring(levels, best, rest, side)
    requires b < |rest| && rest[b].side == side && rest[b].price == best && 0 < q <= rest[b].remaining
    requires forall j | 0 <= j < b :: !(rest[j].side == side && rest[j].price == best)
    ensures levels[best] != []
    ensures LevelsMatchDuring(levels[best := ReducedQueue(levels[best], rest[b], q)], best, Reduce(rest, b, q), side)
  {
    hide Queue;
    var r := Reduce(rest, b, q);
    LevelAfterReduce(rest, b, q, side, best);
    forall p | p in levels && p != best ensures Level(r, side, p) == Level(rest, side, p) {
      LevelAfterReduce(rest, b, q, side, p);
    }
    forall i | 0 <= i < |r| && r[i].side == side ensures r[i].price in levels {
      var k := if q == rest[b].remaining && i >= b then i + 1 else i;
      assert r[i].price == rest[k].price && r[i].side == rest[k].side;
    }
  }

  lemma OtherSideAfterReduce(levels: Levels, rest: seq<BookEntry>, side: Side, b: nat, q: Quantity)
    requires LevelsMatch(levels, rest, side)
    requires b < |rest| && rest[b].side != side && 0 < q <= rest[b].remaining
    requires forall j | 0 <= j < b :: !(rest[j].side == rest[b].side && rest[j].price == rest[b].price)
    ensures LevelsMatch(levels, Reduce(rest, b, q), side)
  {
    hide Queue;
    var r := Reduce(rest, b, q);
    forall p | p in levels ensures Level(r, side, p) == Level(rest, side, p) {
      LevelAfterReduce(rest, b, q, side, p);
    }
    forall i | 0 <= i < |r| && r[i].side == side ensures r[i].price in levels {
      var k := if q == rest[b].remaining && i >= b then i + 1 else i;
      assert r[i].price == rest[k].price && r[i].side == rest[k].side;
    }
  }

  /** Work on an existing level starts with something in it. */
  lemma LevelStarts(levels: Levels, best: Price, rest: seq<BookEntry>, side: Side)
    requires LevelsMatch(levels, rest, side) && best in levels
    ensures LevelsMatchDuring(levels, best, rest, side) && levels[best] != []
  {}

  /** A level that was worked on and still holds something stays. */
  lemma LevelStays(levels: Levels, best: Price, rest: seq<BookEntry>, side: Side)
    requires LevelsMatchDuring(levels, best, rest, side) && levels[best] != []
    ensures LevelsMatch(levels, rest, side)
  {}

  /** A level that was worked on and emptied is erased. */
  lemma EmptyLevelGoes(levels: Levels, best: Price, rest: seq<BookEntry>, side: Side)
    requires LevelsMatchDuring(levels, best, rest, side) && levels[best] == []
    ensures LevelsMatch(levels - {best}, rest, side)
  {
    hide Queue;
    QueueMembers(rest, side, best, |rest|);
  }

  // ---------- Resting and cancelling on the representation ----------

  /** A side after `e` joined the back of its level. */
  ghost function LevelsWith(levels: Levels, e: BookEntry): Levels {
    levels[e.price := (if e.price in levels then levels[e.price] else []) + [e]]
  }

  lemma LevelsAfterAppend(levels: Levels, rest: seq<BookEntry>, side: Side, e: BookEntry)
    requires LevelsMatch(levels, rest, side)
    ensures e.side == side ==> LevelsMatch(LevelsWith(levels, e), rest + [e], side)
    ensures e.side != side ==> LevelsMatch(levels, rest + [e], side)
  {
    hide Queue;
    forall p | p in levels && p != e.price ensures Level(rest + [e], side, p) == Level(rest, side, p) {
      LevelAppend(rest, e, side, p);
    }
    LevelAppend(rest, e, side, e.price);
    if e.side == side && e.price !in levels {
      QueueEmpty(rest, side, e.price, |rest|);
    }
  }

  lemma WellFormedAfterAppend(rest: seq<BookEntry>, e: BookEntry)
    requires WellFormed(rest) && !HasId(rest, e.orderId) && e.remaining > 0 && e.price > 0
    ensures WellFormed(rest + [e])
  {}

  lemma IndexAfterAppend(index: map<OrderId, IndexEntry>, rest: seq<BookEntry>, e: BookEntry)
    requires IndexMatches(index, rest) && !HasId(rest, e.orderId)
    ensures IndexMatches(index[e.orderId := IndexEntry(e.side, e.price)], rest + [e])
  {
    var r := rest + [e];
    forall i | 0 <= i < |rest| ensures HasId(r, rest[i].orderId) { assert r[i] == rest[i]; }
    assert r[|rest|] == e;
  }

  /** Cancelling an order commutes with grouping the list into levels. */
  lemma {:induction false} LevelOfWithout(rest: seq<BookEntry>, id: OrderId, side: Side, p: Price)
    ensures Level(Without(rest, id), side, p) == Without(Level(rest, side, p), id)
  {
    if rest != [] {
      var n := |rest| - 1;
      var init, last := rest[..n], rest[n];
      LevelOfWithout(init, id, side, p);
      assert rest == init + [last];
      LevelAppend(init, last, side, p);
      WithoutAppend(Level(init, side, p), last, id);
      LevelAppend(Without(init, id), last, side, p);
      assert Without(rest, id) == if last.orderId == id then Without(init, id) else Without(init, id) + [last];
      assert Level(rest, side, p) == if last.side == side && last.price == p then Level(init, side, p) + [last] else Level(init, side, p);
    }
  }

  lemma WithoutAppend(rest: seq<BookEntry>, e: BookEntry, id: OrderId)
    ensures Without(rest + [e], id) == Without(rest, id) + (if e.orderId == id then [] else [e])
  {
    assert (rest + [e])[..|rest|] == rest;
  }

  /** Erasing the one position that holds `id` is what `Without` means. */
  lemma {:induction false} EraseIsWithout(q: seq<BookEntry>, k: nat, id: OrderId)
    requires k < |q| && q[k].orderId == id && forall i | 0 <= i < |q| && i != k :: q[i].orderId != id
    ensures Without(q, id) == q[..k] + q[k + 1..]
  {
    var n := |q| - 1;
    if k == n {
      WithoutAbsent(q[..n], id);
    } else {
      EraseIsWithout(q[..n], k, id);
    }
  }

  lemma {:induction false} QueueDistinct(rest: seq<BookEntry>, side: Side, p: Price, n: nat)
    requires n <= |rest| && DistinctIds(rest)
    ensures DistinctIds(Queue(rest, side, p, n))
  {
    if n > 0 {
      QueueDistinct(rest, side, p, n - 1);
      var q := Queue(rest, side, p, n - 1);
      QueueMembers(rest, side, p, n - 1);
      forall i | 0 <= i < |q| ensures q[i].orderId != rest[n - 1].orderId {
        assert q[i] in rest[..n - 1];
      }
    }
  }

  /** Levels that do not hold the cancelled order do not notice. */
  lemma LevelUntouched(rest: seq<BookEntry>, e: BookEntry, side: Side, p: Price)
    requires DistinctIds(rest) && e in rest && (side != e.side || p != e.price)
    ensures Level(Without(rest, e.orderId), side, p) == Level(rest, side, p)
  {
    hide Queue, Without;
    LevelOfWithout(rest, e.orderId, side, p);
    QueueMembers(rest, side, p, |rest|);
    var q := Level(rest, side, p);
    forall i | 0 <= i < |q| ensures q[i].orderId != e.orderId {
      assert q[i] in q && q[i] in rest[..|rest|];
    }
    WithoutAbsent(q, e.orderId);
  }

  lemma OtherSideAfterWithout(levels: Levels, rest: seq<BookEntry>, side: Side, e: BookEntry)
    requires WellFormed(rest) && LevelsMatch(levels, rest, side) && e in rest && e.side != side
    ensures LevelsMatch(levels, Without(rest, e.orderId), side)
  {
    hide Queue;
    var r := Without(rest, e.orderId);
    WithoutKeeps(rest, e.orderId);
    forall p | p in levels ensures Level(r, side, p) == levels[p] { LevelUntouched(rest, e, side, p); }
    forall i | 0 <= i < |r| && r[i].side == side ensures r[i].price in levels { assert r[i] in rest; }
  }

  /** A side after cancelling `e`: its level loses it, and the level goes when it was the last one. */
  ghost function LevelsWithout(levels: Levels, e: BookEntry): Levels
    requires e.price in levels
  {
    var queue := Without(levels[e.price], e.orderId);
    if queue == [] then levels - {e.price} else levels[e.price := queue]
  }

  lemma LevelsAfterWithout(levels: Levels, rest: seq<BookEntry>, side: Side, e: BookEntry)
    requires WellFormed(rest) && LevelsMatch(levels, rest, side) && e in rest && e.side == side
    ensures LevelsMatch(LevelsWithout(levels, e), Without(rest, e.orderId), side)
  {
    hide Queue;
    var r := Without(rest, e.orderId);
    WithoutKeeps(rest, e.orderId);
    LevelOfWithout(rest, e.orderId, side, e.price);
    forall p | p in levels && p != e.price ensures Level(r, side, p) == levels[p] { LevelUntouched(rest, e, side, p); }
    forall i | 0 <= i < |r| && r[i].side == side ensures r[i].price in LevelsWithout(levels, e) {
      assert r[i] in rest;
      QueueMembers(r, side, r[i].price, |r|);
    }
  }

  lemma IndexAfterWithout(index: map<OrderId, IndexEntry>, rest: seq<BookEntry>, id: OrderId)
    requires WellFormed(rest) && IndexMatches(index, rest)
    ensures IndexMatches(index - {id}, Without(rest, id))
  {
    WithoutKeeps(rest, id);
    var r := Without(rest, id);
    forall i | 0 <= i < |r|
      ensures r[i].orderId in index - {id} && index[r[i].orderId] == IndexEntry(r[i].side, r[i].price)
    {
      assert r[i] in rest;
    }
    forall k | k in index - {id} ensures HasId(r, k) {
      var i :| 0 <= i < |rest| && rest[i].orderId == k;
      assert rest[i] in r;
    }
  }

  // ---------- Uniqueness ----------

  /** The representation is determined by the list: equal lists have equal levels and equal indexes. */
  lemma RepresentationIsDetermined(rest: seq<BookEntry>, side: Side, l1: Levels, l2: Levels, i1: map<OrderId, IndexEntry>, i2: map<OrderId, IndexEntry>)
    requires LevelsMatch(l1, rest, side) && LevelsMatch(l2, rest, side)
    requires IndexMatches(i1, rest) && IndexMatches(i2, rest)
    ensures l1 == l2 && i1 == i2
  {
    hide Queue;
    assert rest[..|rest|] == rest;
    forall p | p in l1 ensures p in l2 { QueueMembers(rest, side, p, |rest|); assert l1[p][0] in rest[..|rest|]; }
    forall p | p in l2 ensures p in l1 { QueueMembers(rest, side, p, |rest|); assert l2[p][0] in rest[..|rest|]; }
    assert l1.Keys == l2.Keys;
    forall p | p in l1 ensures l1[p] == l2[p] {}
    assert l1 == l2;
    forall id ensures (id in i1 <==> id in i2) && (id in i1 ==> i1[id] == i2[id]) {
      if HasId(rest, id) {
        var k :| 0 <= k < |rest| && rest[k].orderId == id;
        assert i1[rest[k].orderId] == i2[rest[k].orderId];
      }
    }
    assert i1 == i2;
  }
}
