/** Trade sizing of one crossed bid/ask pair against the available balances. */
module Sizing {
  import opened Orders

  /** The greatest of three integers (Go's `Max`). Ties resolve to `x`, then
      to `y`; on values, as here, a tie is the same number either way. */
  function Max(x: int, y: int, z: int): (r: int)
    ensures r >= x && r >= y && r >= z
    ensures r == x || r == y || r == z
  {
    if x >= y && x >= z then x
    else if y >= x && y >= z then y
    else z
  }

  /** Which leg of the twin would be executed first. */
  datatype Leg = BaseFirst | QuoteFirst

  /** The candidate sizes computed for one crossed pair: the base-side size,
      the quote-side size, and the quote-side size converted to base tokens. */
  datatype Sizes = Sizes(baseAmount: nat, quoteAmount: nat, quoteAsBase: nat)

  /** The sizes for a crossed pair, given the base and quote balances. */
  function Size(bid: Order, ask: Order, baseAvailable: nat, quoteAvailable: nat): (s: Sizes)
    requires HasRate(ask)
    ensures s.baseAmount >= baseAvailable && s.baseAmount >= bid.buyAmount && s.baseAmount >= ask.sellAmount
    ensures s.baseAmount in {baseAvailable, bid.buyAmount, ask.sellAmount}
    ensures s.quoteAmount >= quoteAvailable && s.quoteAmount >= bid.sellAmount && s.quoteAmount >= ask.buyAmount
    ensures s.quoteAmount in {quoteAvailable, bid.sellAmount, ask.buyAmount}
    ensures s.quoteAsBase * ask.buyAmount <= s.quoteAmount * ask.sellAmount < (s.quoteAsBase + 1) * ask.buyAmount
    ensures s.baseAmount == 0 && s.quoteAsBase == 0 ==>
      baseAvailable == 0 && bid.buyAmount == 0 && ask.sellAmount == 0
  {
    var base := Max(baseAvailable, bid.buyAmount, ask.sellAmount);
    var quote := Max(quoteAvailable, bid.sellAmount, ask.buyAmount);
    var product := quote * ask.sellAmount;
    var asBase := product / ask.buyAmount;
    assert asBase * ask.buyAmount + product % ask.buyAmount == product;
    Sizes(base, quote, asBase)
  }

  /** The larger of the two base-denominated sizes goes first. */
  function FirstLeg(s: Sizes): (l: Leg)
    ensures (if l.BaseFirst? then s.baseAmount else s.quoteAsBase)
         >= (if l.BaseFirst? then s.quoteAsBase else s.baseAmount)
    ensures s.baseAmount == s.quoteAsBase ==> l.QuoteFirst?
  {
    if s.baseAmount > s.quoteAsBase then BaseFirst else QuoteFirst
  }
}
