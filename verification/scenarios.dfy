/** Concrete runs of the per-book loop on small books. Tokens 1 and 2 stand
    for two token addresses. */
module Scenarios {
  import opened Wrappers
  import opened Orders
  import opened Books
  import opened Sizing
  import opened Matching

  /** A bid paying 50 of token 2 for 100 of token 1 (rate 1/2) against an ask
      selling 30 of token 1 for 80 of token 2 (rate 3/8) crosses; with both
      balances at zero the base side (100) outweighs the quote side converted
      to base (80 * 30 / 80 = 30), the base leg goes first, and the loop then
      finds no bid left. */
  lemma CrossedPairExecutes()
    ensures
      var bid, ask := Order(1, 2, 100, 50), Order(2, 1, 80, 30);
      RunBook(Book(1, 2, [bid], [ask]), (t: Token) => Some(0))
        == BookRun([Round(bid, ask, [1, 2], Execute(Sizes(100, 80, 30), BaseFirst))], OutOfBids)
  {
    var bid, ask := Order(1, 2, 100, 50), Order(2, 1, 80, 30);
    var b := Book(1, 2, [bid], [ask]);
    assert HighestBid(b) == Some(Taken(bid, Book(1, 2, [], [ask])));
    assert LowestAsk(Book(1, 2, [], [ask])) == Some(Taken(ask, Book(1, 2, [], [])));
    assert Size(bid, ask, 0, 0) == Sizes(100, 80, 30);
    assert Examine(bid, ask, (t: Token) => Some(0))
      == Round(bid, ask, [1, 2], Execute(Sizes(100, 80, 30), BaseFirst));
    assert RunBook(Book(1, 2, [], []), (t: Token) => Some(0)) == BookRun([], OutOfBids);
  }

  /** A book with a single bid and no ask ends without a round. */
  lemma LoneBidEndsAtOnce()
    ensures RunBook(Book(1, 2, [Order(1, 2, 100, 50)], []), (t: Token) => Some(0)) == BookRun([], OutOfAsks)
  {
    var b := Book(1, 2, [Order(1, 2, 100, 50)], []);
    assert HighestBid(b) == Some(Taken(Order(1, 2, 100, 50), Book(1, 2, [], [])));
  }

  /** A bid at rate 3/10 against an ask at rate 1/2 does not cross: one round,
      and no balance is queried even though every query would fail. */
  lemma UncrossedPairQueriesNothing()
    ensures
      var bid, ask := Order(1, 2, 10, 3), Order(2, 1, 10, 5);
      RunBook(Book(1, 2, [bid], [ask]), (t: Token) => None)
        == BookRun([Round(bid, ask, [], NoCross)], Stopped)
  {
    var bid, ask := Order(1, 2, 10, 3), Order(2, 1, 10, 5);
    var b := Book(1, 2, [bid], [ask]);
    assert HighestBid(b) == Some(Taken(bid, Book(1, 2, [], [ask])));
    assert LowestAsk(Book(1, 2, [], [ask])) == Some(Taken(ask, Book(1, 2, [], [])));
  }

  /** Both rates are sellAmount/buyAmount, so a bid's rate is quote per base
      while an ask's rate is base per quote. A bid paying 50 of token 2 for
      100 of token 1 and an ask selling 80 of token 1 for 30 of token 2 price
      token 1 at 1/2 and 3/8 of token 2, yet the test compares 1/2 with 8/3
      and finds no crossing. */
  lemma MixedUnitsHideCrossing()
    ensures
      var bid, ask := Order(1, 2, 100, 50), Order(2, 1, 30, 80);
      && bid.sellAmount * ask.sellAmount > ask.buyAmount * bid.buyAmount
      && RunBook(Book(1, 2, [bid], [ask]), (t: Token) => Some(0)) == BookRun([Round(bid, ask, [], NoCross)], Stopped)
  {
    var bid, ask := Order(1, 2, 100, 50), Order(2, 1, 30, 80);
    var b := Book(1, 2, [bid], [ask]);
    assert HighestBid(b) == Some(Taken(bid, Book(1, 2, [], [ask])));
    assert LowestAsk(Book(1, 2, [], [ask])) == Some(Taken(ask, Book(1, 2, [], [])));
  }
}
