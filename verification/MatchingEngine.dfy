/** The multi-symbol engine: one book per symbol, created on first use, and execution ids that are global. */
module MatchingEngines {
  import opened Types
  import opened PriceTime
  import opened Lifecycle
  import opened OrderBooks
  import BookLevels

  /** The same trades under consecutive ids starting at `exec`. */
  ghost predicate Renumbered(a: seq<Types.Fill>, b: seq<Types.Fill>, exec: ExecutionId) {
    |a| == |b| && forall k | 0 <= k < |a| :: b[k] == a[k].(executionId := exec + k)
  }

  /** Matching under another starting id makes the same trades, renumbered. */
  lemma {:induction false} MatchRenumbers(rest: seq<BookEntry>, o: Incoming, qty: nat, e1: ExecutionId, e2: ExecutionId)
    requires AllPositive(rest)
    ensures var m1, m2 := Match(rest, o, qty, e1), Match(rest, o, qty, e2);
            m1.rest == m2.rest && m1.remaining == m2.remaining && Renumbered(m1.fills, m2.fills, e2)
    decreases |rest|, qty
  {
    hide Match, Scan, Acceptable;
    if Stops(rest, o, qty) {
      MatchStops(rest, o, qty, e1);
      MatchStops(rest, o, qty, e2);
    } else {
      var b := Top(rest, o, qty);
      var trade := Min(qty, rest[b].remaining);
      MatchUnfolds(rest, o, qty, e1);
      MatchUnfolds(rest, o, qty, e2);
      MatchRenumbers(Reduce(rest, b, trade), o, qty - trade, e1 + 1, e2 + 1);
    }
  }

  lemma UpdatedTwice(m: map<Symbol, seq<BookEntry>>, k: Symbol, a: seq<BookEntry>, b: seq<BookEntry>)
    ensures m[k := a][k := b] == m[k := b]
  {}

  lemma RenumberedIsUnique(a: seq<Types.Fill>, b: seq<Types.Fill>, c: seq<Types.Fill>, exec: ExecutionId)
    requires Renumbered(a, b, exec) && Renumbered(a, c, exec)
    ensures b == c
  {}

  lemma WellFormedIsPositive(rest: seq<BookEntry>)
    requires WellFormed(rest)
    ensures AllPositive(rest)
  {}

  lemma AddOrderRenumbers(rest: seq<BookEntry>, o: Incoming, qty: Quantity, e1: ExecutionId, e2: ExecutionId)
    requires AllPositive(rest)
    ensures var (rest1, r1) := PriceTime.AddOrder(rest, o, qty, e1);
            var (rest2, r2) := PriceTime.AddOrder(rest, o, qty, e2);
            && rest1 == rest2 && (r1.Ok? <==> r2.Ok?)
            && (r1.Err? ==> r1 == r2)
            && (r1.Ok? ==> r2 == Ok(r1.value.(fills := r2.value.fills)) && Renumbered(r1.value.fills, r2.value.fills, e2))
  {
    hide Match;
    if qty > 0 { MatchRenumbers(rest, o, qty, e1, e2); }
  }

  class MatchingEngine {
    var books: map<Symbol, OrderBook>
    var nextExecutionId: ExecutionId
    /** The resting orders of every book. */
    ghost var resting: map<Symbol, seq<BookEntry>>

    ghost predicate Valid()
      reads `books, `resting, books.Values
    {
      && resting.Keys == books.Keys
      && (forall symbol | symbol in books ::
            books[symbol].Valid() && books[symbol].symbol == symbol && books[symbol].resting == resting[symbol])
      && (forall s1, s2 | s1 in books && s2 in books && s1 != s2 :: books[s1] != books[s2])
    }

    lemma RestingIsWellFormed()
      requires Valid()
      ensures BooksWellFormed(resting)
    {
      forall symbol | symbol in resting ensures WellFormed(resting[symbol]) { assert books[symbol].Valid(); }
    }

    constructor ()
      ensures Valid() && books == map[] && resting == map[] && nextExecutionId == 1
    {
      books, nextExecutionId, resting := map[], 1, map[];
    }

    /** Find the book of a symbol, or add an empty one. */
    method GetOrCreateBook(symbol: Symbol) returns (book: OrderBook)
      requires Valid()
      modifies this
      ensures Valid() && nextExecutionId == old(nextExecutionId)
      ensures symbol in books && book == books[symbol] && books == old(books)[symbol := book]
      ensures if symbol in old(books) then book == old(books)[symbol] else fresh(book)
      ensures fresh(books.Values - old(books.Values))
      ensures resting == old(resting)[symbol := BookOf(old(resting), symbol)]
    {
      hide OrderBook.Valid;
      if symbol in books {
        book := books[symbol];
      } else {
        book := new OrderBook(symbol);
        books := books[symbol := book];
        resting := resting[symbol := []];
      }
    }

    method AddOrder(symbol: Symbol, id: OrderId, side: Side, orderType: OrderType, price: Price, qty: Quantity)
      returns (r: Result<AddOrderResult>)
      requires Valid()
      modifies this, books.Values
      ensures Valid() && fresh(books.Values - old(books.Values))
      ensures BooksWellFormed(old(resting))
      ensures var added :=
                PriceTime.AddOrder(BookOf(old(resting), symbol), Incoming(symbol, id, side, orderType, price), qty, old(nextExecutionId));
              resting == old(resting)[symbol := added.0] && r == added.1
      ensures nextExecutionId == old(nextExecutionId) + (if r.Ok? then |r.value.fills| else 0)
    {
      hide PriceTime.AddOrder, WellFormed, Renumbered, OrderBook.Valid;
      RestingIsWellFormed();
      BookOfIsWellFormed(resting, symbol);
      WellFormedIsPositive(BookOf(resting, symbol));
      var book := GetOrCreateBook(symbol);
      ghost var o := Incoming(symbol, id, side, orderType, price);
      AddOrderRenumbers(book.resting, o, qty, book.nextExecutionId, nextExecutionId);
      ghost var expected := PriceTime.AddOrder(book.resting, o, qty, nextExecutionId).1;
      UpdatedTwice(old(resting), symbol, book.resting, PriceTime.AddOrder(book.resting, o, qty, book.nextExecutionId).0);
      r := AddToBook(book, id, side, orderType, price, qty);
      assert fresh(books.Values - old(books.Values));
      if r.Ok? {
        var fills := Renumber(r.value.fills);
        RenumberedIsUnique(r.value.fills, fills, expected.value.fills, old(nextExecutionId));
        r := Ok(r.value.(fills := fills));
      }
    }

    /** The book's own part of adding an order, which numbers the fills by the book's own counter. */
    method AddToBook(book: OrderBook, id: OrderId, side: Side, orderType: OrderType, price: Price, qty: Quantity)
      returns (r: Result<AddOrderResult>)
      requires Valid() && book.symbol in books && books[book.symbol] == book
      modifies this`resting, book
      ensures Valid()
      ensures AllPositive(old(book.resting))
      ensures var added :=
                PriceTime.AddOrder(old(book.resting), Incoming(book.symbol, id, side, orderType, price), qty, old(book.nextExecutionId));
              resting == old(resting)[book.symbol := added.0] && r == added.1
    {
      hide PriceTime.AddOrder, AllPositive, DistinctIds, BookLevels.LevelsMatch, BookLevels.IndexMatches;
      r := book.AddOrder(id, side, orderType, price, qty);
      resting := resting[book.symbol := book.resting];
    }

    /** Give every fill the next global execution id. */
    method Renumber(made: seq<Types.Fill>) returns (fills: seq<Types.Fill>)
      modifies this`nextExecutionId
      ensures Renumbered(made, fills, old(nextExecutionId))
      ensures nextExecutionId == old(nextExecutionId) + |made|
    {
      fills := made;
      for k := 0 to |fills|
        invariant |fills| == |made| && nextExecutionId == old(nextExecutionId) + k
        invariant forall j | 0 <= j < k :: fills[j] == made[j].(executionId := old(nextExecutionId) + j)
        invariant forall j | k <= j < |fills| :: fills[j] == made[j]
      {
        fills := fills[k := fills[k].(executionId := nextExecutionId)];
        nextExecutionId := nextExecutionId + 1;
      }
    }

    method CancelOrder(symbol: Symbol, id: OrderId) returns (r: Result<BookEntry>)
      requires Valid()
      modifies this`resting, books.Values
      ensures Valid()
      ensures var error := EngineCancelError(old(resting), symbol, id);
              && (error.Some? ==> r == Err(error.value) && resting == old(resting))
              && (error.None? ==> r.Ok? && r.value in old(resting)[symbol] && r.value.orderId == id
                                  && resting == old(resting)[symbol := Without(old(resting)[symbol], id)])
    {
      hide OrderBook.Valid;
      if symbol !in books {
        return Err(BookNotFound);
      }
      var book := books[symbol];
      r := book.CancelOrder(id);
      resting := resting[symbol := book.resting];
    }

    /** Put a persisted open limit order back on its book; any other order is ignored. */
    method RestoreRestingOrder(o: Order) returns (r: Result<()>)
      requires Valid()
      modifies this, books.Values
      ensures Valid() && fresh(books.Values - old(books.Values)) && nextExecutionId == old(nextExecutionId)
      ensures o.orderType.Market? || o.remainingQty <= 0 ==> r.Ok? && resting == old(resting)
      ensures o.orderType.Limit? && o.remainingQty > 0 ==>
                var rest := BookOf(old(resting), o.symbol);
                var error := RestoreError(rest, o);
                && r == (if error.Some? then Err(error.value) else Ok(()))
                && resting == old(resting)[o.symbol := if error.None? then rest + [EntryOf(o)] else rest]
    {
      hide WellFormed, RestoreError, OrderBook.Valid;
      if o.orderType.Market? || o.remainingQty <= 0 {
        return Ok(());
      }
      var book := GetOrCreateBook(o.symbol);
      UpdatedTwice(old(resting), o.symbol, book.resting,
                   if RestoreError(book.resting, o).None? then book.resting + [EntryOf(o)] else book.resting);
      r := RestoreToBook(book, o);
    }

    method RestoreToBook(book: OrderBook, o: Order) returns (r: Result<()>)
      requires Valid() && book.symbol == o.symbol && book.symbol in books && books[book.symbol] == book
      modifies this`resting, book
      ensures Valid()
      ensures var error := RestoreError(old(book.resting), o);
              && r == (if error.Some? then Err(error.value) else Ok(()))
              && resting == old(resting)[o.symbol := if error.None? then old(book.resting) + [EntryOf(o)] else old(book.resting)]
    {
      hide AllPositive, DistinctIds, BookLevels.LevelsMatch, BookLevels.IndexMatches;
      r := book.RestoreRestingOrder(o.internalId, o.side, o.price, o.remainingQty);
      resting := resting[book.symbol := book.resting];
    }

    method SeedNextExecutionId(next: ExecutionId)
      modifies this`nextExecutionId
      ensures nextExecutionId == Max(1, next)
    {
      nextExecutionId := Max(1, next);
    }
  }
}
