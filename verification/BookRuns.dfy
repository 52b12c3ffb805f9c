/** Both order book objects driven through the same calls. */
module BookRuns {
  import opened PriceLevels
  import opened Books
  import OrderBook
  import OrderBookV2

  method ReplaySimple(ops: seq<Op>) returns (snapshot: Book)
    ensures snapshot == Listing(RunMap(ops))
  {
    var book := new OrderBook.OrderBook();
    for i := 0 to |ops|
      invariant fresh(book) && book.Valid() && book.View() == RunMap(ops[..i])
    {
      assert ops[..i + 1][..i] == ops[..i];
      if ops[i].Tick? { book.Update(ops[i]); } else { book.Clear(); }
    }
    assert ops[..|ops|] == ops;
    snapshot := book.GenerateSnapshot();
  }

  method ReplayFast(ops: seq<Op>) returns (snapshot: Book)
    ensures snapshot == RunBook(ops)
  {
    var book := new OrderBookV2.OrderBookV2();
    for i := 0 to |ops|
      invariant fresh(book) && fresh(book.hot) && fresh(book.cold0) && fresh(book.cold0.bids) && fresh(book.cold0.asks)
      invariant fresh(book.cold1) && fresh(book.cold1.bids) && fresh(book.cold1.asks)
      invariant book.Valid() && book.View() == RunBook(ops[..i])
    {
      assert ops[..i + 1][..i] == ops[..i];
      if ops[i].Tick? { book.Update(ops[i]); } else { book.Clear(); }
    }
    assert ops[..|ops|] == ops;
    snapshot := book.GenerateSnapshot();
  }

  /** Whatever the calls, the two books end in the same snapshot, timestamps included. */
  method ReplayBoth(ops: seq<Op>) returns (fast: Book, simple: Book)
    ensures fast == simple && Ladder(fast.bids, fast.asks)
  {
    fast := ReplayFast(ops);
    simple := ReplaySimple(ops);
    FastRefinesSimple(ops);
  }
}
