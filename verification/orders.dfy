/** Orders of the maker market and the exchange rate they imply. */
module Orders {

  /** A token contract address; the matcher only compares tokens for equality. */
  type Token = nat

  /** One standing offer: buy `buyAmount` of `buyToken` for `sellAmount` of `sellToken`. */
  datatype Order = Order(buyToken: Token, sellToken: Token, buyAmount: nat, sellAmount: nat)

  /** An order's rate sellAmount/buyAmount is only defined for a positive buy amount. */
  predicate HasRate(o: Order) {
    o.buyAmount > 0
  }

  predicate AllHaveRates(s: seq<Order>) {
    forall o :: o in s ==> HasRate(o)
  }

  /** The exact rate of an order, as a rational number. */
  function Rate(o: Order): real
    requires HasRate(o)
  {
    o.sellAmount as real / o.buyAmount as real
  }

  /** `a`'s rate is strictly below `b`'s, decided by cross-multiplication. */
  predicate RateBelow(a: Order, b: Order) {
    a.sellAmount * b.buyAmount < b.sellAmount * a.buyAmount
  }

  /** `a`'s rate is at most `b`'s. */
  predicate RateAtMost(a: Order, b: Order) {
    !RateBelow(b, a)
  }

  /** Cross-multiplication decides exactly the order of the rational rates. */
  lemma RateBelowIsRateOrder(a: Order, b: Order)
    requires HasRate(a) && HasRate(b)
    ensures RateBelow(a, b) <==> Rate(a) < Rate(b)
  {
    var ab, bb := a.buyAmount as real, b.buyAmount as real;
    var scale := ab * bb;
    assert scale > 0.0;
    assert Rate(a) * scale == (a.sellAmount * b.buyAmount) as real;
    assert Rate(b) * scale == (b.sellAmount * a.buyAmount) as real;
    ScaleKeepsOrder(Rate(a), Rate(b), scale);
  }

  /** Multiplying by a positive number keeps the order of two reals. */
  lemma ScaleKeepsOrder(x: real, y: real, c: real)
    requires c > 0.0
    ensures x < y <==> x * c < y * c
  {
    assert (y - x) * c == y * c - x * c;
  }

  /** Rates of orders with positive buy amounts form a total preorder. */
  lemma RateAtMostTransitive(a: Order, b: Order, c: Order)
    requires HasRate(a) && HasRate(b) && HasRate(c)
    requires RateAtMost(a, b) && RateAtMost(b, c)
    ensures RateAtMost(a, c)
  {
  }
}
