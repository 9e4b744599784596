/** The order book of one token pair: bids and asks, each retrievable best
    first. The Go `Book` type lives in a file that is not part of this model;
    this module models only the behaviour the matcher relies on. */
module Books {
  import opened Wrappers
  import opened Orders

  /** A book for the pair (base, quote). Bids buy base for quote, asks buy
      quote for base. Both sides keep insertion order; extraction chooses. */
  datatype Book = Book(base: Token, quote: Token, bids: seq<Order>, asks: seq<Order>)

  /** The result of a successful extraction: the best order and the book without it. */
  datatype Taken = Taken(order: Order, rest: Book)

  /** Which end of a side is best: the highest rate for bids, the lowest for asks. */
  datatype Preference = Highest | Lowest

  /** `a` is strictly better than `b` under preference `p`. */
  predicate Beats(a: Order, b: Order, p: Preference) {
    match p
    case Highest => RateBelow(b, a)
    case Lowest => RateBelow(a, b)
  }

  predicate ValidBook(b: Book) {
    AllHaveRates(b.bids) && AllHaveRates(b.asks)
  }

  /** Every bid buys the base for the quote, every ask buys the quote for the base. */
  predicate Oriented(b: Book) {
    && (forall o :: o in b.bids ==> o.buyToken == b.base && o.sellToken == b.quote)
    && (forall o :: o in b.asks ==> o.buyToken == b.quote && o.sellToken == b.base)
  }

  /** An empty book for a pair. */
  function Empty(base: Token, quote: Token): Book {
    Book(base, quote, [], [])
  }

  function AddBid(b: Book, o: Order): Book {
    b.(bids := b.bids + [o])
  }

  function AddAsk(b: Book, o: Order): Book {
    b.(asks := b.asks + [o])
  }

  lemma NotBeatenChain(a: Order, b: Order, c: Order, p: Preference)
    requires HasRate(a) && HasRate(b) && HasRate(c)
    requires !Beats(a, b, p) && Beats(c, b, p)
    ensures Beats(c, a, p)
  {
  }

  /** The position of the best order of a non-empty side; among orders of
      equal rate the earliest inserted is chosen. */
  function BestIndex(s: seq<Order>, p: Preference): (i: nat)
    requires |s| > 0 && AllHaveRates(s)
    ensures i < |s|
    ensures forall j :: 0 <= j < |s| ==> !Beats(s[j], s[i], p)
    ensures forall j :: 0 <= j < i ==> Beats(s[i], s[j], p)
    decreases |s|
  {
    if |s| == 1 then 0
    else
      var n := |s| - 1;
      var k := BestIndex(s[..n], p);
      assert s[..n][k] == s[k];
      assert forall j :: 0 <= j < n ==> s[..n][j] == s[j];
      if Beats(s[n], s[k], p) then
        assert forall j :: 0 <= j < n ==> Beats(s[n], s[j], p) by {
          forall j | 0 <= j < n ensures Beats(s[n], s[j], p) {
            NotBeatenChain(s[j], s[k], s[n], p);
          }
        }
        n
      else
        k
  }

  /** `s` without its element at position `i`. */
  function RemoveAt(s: seq<Order>, i: nat): (r: seq<Order>)
    requires i < |s|
    ensures |r| == |s| - 1
    ensures multiset(r) + multiset{s[i]} == multiset(s)
    ensures forall o :: o in r ==> o in s
  {
    assert s == s[..i] + [s[i]] + s[i+1..];
    var r := s[..i] + s[i+1..];
    assert forall o :: o in r ==> o in s by {
      forall o | o in r ensures o in s {
        assert o in multiset(r);
      }
    }
    r
  }

  /** Removes and returns the bid of greatest rate; fails exactly when there are no bids. */
  function HighestBid(b: Book): (r: Option<Taken>)
    requires AllHaveRates(b.bids)
    ensures r.None? <==> |b.bids| == 0
    ensures r.Some? ==>
      && r.value.order in b.bids
      && (forall o :: o in b.bids ==> RateAtMost(o, r.value.order))
      && |r.value.rest.bids| == |b.bids| - 1
      && multiset(r.value.rest.bids) + multiset{r.value.order} == multiset(b.bids)
      && (forall o :: o in r.value.rest.bids ==> o in b.bids)
      && r.value.rest == b.(bids := r.value.rest.bids)
  {
    if |b.bids| == 0 then None
    else
      var i := BestIndex(b.bids, Highest);
      Some(Taken(b.bids[i], b.(bids := RemoveAt(b.bids, i))))
  }

  /** Removes and returns the ask of smallest rate; fails exactly when there are no asks. */
  function LowestAsk(b: Book): (r: Option<Taken>)
    requires AllHaveRates(b.asks)
    ensures r.None? <==> |b.asks| == 0
    ensures r.Some? ==>
      && r.value.order in b.asks
      && (forall o :: o in b.asks ==> RateAtMost(r.value.order, o))
      && |r.value.rest.asks| == |b.asks| - 1
      && multiset(r.value.rest.asks) + multiset{r.value.order} == multiset(b.asks)
      && (forall o :: o in r.value.rest.asks ==> o in b.asks)
      && r.value.rest == b.(asks := r.value.rest.asks)
  {
    if |b.asks| == 0 then None
    else
      var i := BestIndex(b.asks, Lowest);
      Some(Taken(b.asks[i], b.(asks := RemoveAt(b.asks, i))))
  }
}
