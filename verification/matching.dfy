/** `arbitrage`: the per-book matching loop over the highest bid and the
    lowest ask, with its balance queries and sizing decisions. */
module Matching {
  import opened Wrappers
  import opened Orders
  import opened Books
  import opened Sizing
  import opened Twins

  /** How one round of the per-book loop ended. */
  datatype Verdict =
    | NoCross                               // the prices do not overlap: the book is done
    | BaseMismatch                          // bid.BuyToken != ask.SellToken: the book is abandoned
    | QuoteMismatch                         // bid.SellToken != ask.BuyToken: the book is abandoned
    | BaseBalanceFailed                     // the base balance query failed: the book is abandoned
    | QuoteBalanceFailed                    // the quote balance query failed: the book is abandoned
    | CantTrade(sizing: Sizes)             // both base-denominated sizes are zero: the book is abandoned
    | Execute(sizing: Sizes, first: Leg)   // a twin would be executed and the loop goes on

  /** One round: the extracted bid and ask, the tokens whose balance was
      queried, in order, and the verdict. */
  datatype Round = Round(bid: Order, ask: Order, queried: seq<Token>, verdict: Verdict)

  /** Why the per-book loop stopped: a side ran empty, or the last round ended it. */
  datatype Exit = OutOfBids | OutOfAsks | Stopped

  /** The trace of the per-book loop. */
  datatype BookRun = BookRun(rounds: seq<Round>, exit: Exit)

  /** The outcome of `arbitrage` over all books: one trace per book, and the
      returned twins or error. */
  datatype ArbitrageOutcome = ArbitrageOutcome(runs: seq<BookRun>, twins: Result<seq<Twin>, string>)

  /** The bid's rate strictly exceeds the ask's. */
  predicate Crosses(bid: Order, ask: Order) {
    RateBelow(ask, bid)
  }

  /** The bid buys what the ask sells (the base) and sells what the ask buys (the quote). */
  predicate Aligned(bid: Order, ask: Order) {
    bid.buyToken == ask.sellToken && bid.sellToken == ask.buyToken
  }

  predicate EndsBook(v: Verdict) {
    !v.Execute?
  }

  /** What each verdict of a round means, and when balances are queried:
      every verdict holds exactly when its condition does, the base balance
      is read before the quote balance, and an execution uses the sizes
      `Size` computes from the two balances read. */
  predicate RoundSound(r: Round, balance: Token -> Option<nat>) {
    var base, quote := r.bid.buyToken, r.bid.sellToken;
    var tradable := Crosses(r.bid, r.ask) && Aligned(r.bid, r.ask);
    && (r.verdict.NoCross? <==> !Crosses(r.bid, r.ask))
    && (r.verdict.BaseMismatch? <==> Crosses(r.bid, r.ask) && base != r.ask.sellToken)
    && (r.verdict.QuoteMismatch? <==>
          Crosses(r.bid, r.ask) && base == r.ask.sellToken && quote != r.ask.buyToken)
    && (r.verdict.BaseBalanceFailed? <==> tradable && balance(base).None?)
    && (r.verdict.QuoteBalanceFailed? <==> tradable && balance(base).Some? && balance(quote).None?)
    && (r.verdict.Execute? <==> tradable && balance(base).Some? && balance(quote).Some?)
    && (r.queried == [] <==> !tradable)
    && (r.queried != [] ==>
          && r.queried[0] == base
          && (|r.queried| == 2 <==> balance(base).Some?)
          && (|r.queried| == 2 ==> r.queried[1] == quote)
          && |r.queried| <= 2)
    && (r.verdict.Execute? ==>
          && HasRate(r.ask)
          && r.verdict.sizing == Size(r.bid, r.ask, balance(base).value, balance(quote).value)
          && (r.verdict.sizing.baseAmount > 0 || r.verdict.sizing.quoteAsBase > 0)
          && (r.verdict.first.BaseFirst? <==> r.verdict.sizing.baseAmount > r.verdict.sizing.quoteAsBase))
  }

  /** A round on an aligned, crossed pair whose balances were both read. */
  function Decide(bid: Order, ask: Order, baseAvailable: nat, quoteAvailable: nat): (v: Verdict)
    requires HasRate(ask)
    ensures v.CantTrade? || v.Execute?
    ensures v.sizing == Size(bid, ask, baseAvailable, quoteAvailable)
    ensures v.CantTrade? <==> baseAvailable == 0 && bid.buyAmount == 0 && ask.sellAmount == 0
    ensures v.Execute? ==> (v.first.BaseFirst? <==> v.sizing.baseAmount > v.sizing.quoteAsBase)
  {
    var s := Size(bid, ask, baseAvailable, quoteAvailable);
    if s.baseAmount == 0 && s.quoteAsBase == 0 then CantTrade(s)
    else Execute(s, FirstLeg(s))
  }

  /** One round on the extracted pair, before any decision to continue. */
  function Examine(bid: Order, ask: Order, balance: Token -> Option<nat>): (r: Round)
    requires HasRate(bid) && HasRate(ask)
    ensures r.bid == bid && r.ask == ask
    ensures RoundSound(r, balance)
    ensures !r.verdict.CantTrade?
  {
    if !Crosses(bid, ask) then Round(bid, ask, [], NoCross)
    else if bid.buyToken != ask.sellToken then Round(bid, ask, [], BaseMismatch)
    else if bid.sellToken != ask.buyToken then Round(bid, ask, [], QuoteMismatch)
    else
      var base, quote := bid.buyToken, bid.sellToken;
      match balance(base)
      case None => Round(bid, ask, [base], BaseBalanceFailed)
      case Some(baseAvailable) =>
        match balance(quote)
        case None => Round(bid, ask, [base, quote], QuoteBalanceFailed)
        case Some(quoteAvailable) => Round(bid, ask, [base, quote], Decide(bid, ask, baseAvailable, quoteAvailable))
  }

  /** Every round's orders come from the book. */
  predicate DrawnFrom(b: Book, rounds: seq<Round>) {
    forall i :: 0 <= i < |rounds| ==> rounds[i].bid in b.bids && rounds[i].ask in b.asks
  }

  /** Every round decided as `RoundSound` describes, and none found a zero size. */
  predicate AllSound(rounds: seq<Round>, balance: Token -> Option<nat>) {
    forall i {:trigger RoundSound(rounds[i], balance)} :: 0 <= i < |rounds| ==>
      RoundSound(rounds[i], balance) && !rounds[i].verdict.CantTrade?
  }

  /** Only an execution lets the loop go on, so only the last round may end
      the book, and the run is `Stopped` exactly when it does. */
  predicate OnlyLastEnds(r: BookRun) {
    && (forall i :: 0 <= i < |r.rounds| - 1 ==> r.rounds[i].verdict.Execute?)
    && (r.exit.Stopped? <==> |r.rounds| > 0 && EndsBook(r.rounds[|r.rounds| - 1].verdict))
  }

  /** The monotonic frontier: bids come out with non-increasing rates and
      asks with non-decreasing rates. */
  predicate BestFirst(rounds: seq<Round>) {
    forall i, j :: 0 <= i < j < |rounds| ==>
      RateAtMost(rounds[j].bid, rounds[i].bid) && RateAtMost(rounds[i].ask, rounds[j].ask)
  }

  /** Each round takes, from what the earlier rounds left of the book, a bid
      of greatest rate and an ask of least rate. */
  predicate BestRemaining(bids: multiset<Order>, asks: multiset<Order>, rounds: seq<Round>)
    decreases |rounds|
  {
    |rounds| > 0 ==>
      var bid, ask := rounds[0].bid, rounds[0].ask;
      && bid in bids && ask in asks
      && (forall o :: o in bids ==> RateAtMost(o, bid))
      && (forall o :: o in asks ==> RateAtMost(ask, o))
      && BestRemaining(bids - multiset{bid}, asks - multiset{ask}, rounds[1..])
  }

  /** What a trace of the per-book loop over `b` guarantees. Each round uses
      up the best remaining bid and ask, which bounds the number of rounds;
      the loop stops only when a side runs empty or a round ends the book. */
  predicate Traced(b: Book, r: BookRun, balance: Token -> Option<nat>) {
    && |r.rounds| <= |b.bids| && |r.rounds| <= |b.asks|
    && DrawnFrom(b, r.rounds)
    && BestRemaining(multiset(b.bids), multiset(b.asks), r.rounds)
    && AllSound(r.rounds, balance)
    && OnlyLastEnds(r)
    && BestFirst(r.rounds)
    && (r.exit.OutOfBids? ==> |r.rounds| == |b.bids|)
    && (r.exit.OutOfAsks? ==> |r.rounds| == |b.asks| < |b.bids|)
  }

  /** `rest` is what remains of `b` once `bid` and `ask`, its best orders,
      are taken out. */
  predicate TakenBest(b: Book, bid: Order, ask: Order, rest: Book) {
    && bid in b.bids && ask in b.asks
    && |rest.bids| == |b.bids| - 1 && |rest.asks| == |b.asks| - 1
    && (forall o :: o in b.bids ==> RateAtMost(o, bid))
    && (forall o :: o in b.asks ==> RateAtMost(ask, o))
    && multiset(rest.bids) == multiset(b.bids) - multiset{bid}
    && multiset(rest.asks) == multiset(b.asks) - multiset{ask}
    && (forall o :: o in rest.bids ==> o in b.bids)
    && (forall o :: o in rest.asks ==> o in b.asks)
  }

  /** Prepending a sound round keeps every round sound. */
  lemma PrependSound(round: Round, rounds: seq<Round>, balance: Token -> Option<nat>)
    requires RoundSound(round, balance) && !round.verdict.CantTrade?
    requires AllSound(rounds, balance)
    ensures AllSound([round] + rounds, balance)
  {
    var all := [round] + rounds;
    forall i | 0 <= i < |all| ensures RoundSound(all[i], balance) && !all[i].verdict.CantTrade? {
      if i > 0 {
        assert all[i] == rounds[i - 1];
        assert RoundSound(rounds[i - 1], balance);
      }
    }
  }

  /** Prepending the best pair of `b` to rounds drawn best-first from `rest`
      draws the whole sequence best-first from `b`. */
  lemma PrependBest(b: Book, rest: Book, round: Round, rounds: seq<Round>)
    requires TakenBest(b, round.bid, round.ask, rest)
    requires DrawnFrom(rest, rounds) && BestFirst(rounds)
    ensures DrawnFrom(b, [round] + rounds) && BestFirst([round] + rounds)
  {
    assert forall i :: 0 < i < |[round] + rounds| ==> ([round] + rounds)[i] == rounds[i - 1];
  }

  /** A round that executed, followed by the trace of the rest of the book,
      is a trace of the whole book. */
  lemma ExtendTrace(b: Book, balance: Token -> Option<nat>, rest: Book, round: Round, later: BookRun)
    requires TakenBest(b, round.bid, round.ask, rest)
    requires round.verdict.Execute?
    requires RoundSound(round, balance) && !round.verdict.CantTrade?
    requires Traced(rest, later, balance)
    ensures Traced(b, BookRun([round] + later.rounds, later.exit), balance)
  {
    var rounds := [round] + later.rounds;
    assert rounds[1..] == later.rounds;
    PrependSound(round, later.rounds, balance);
    PrependBest(b, rest, round, later.rounds);
    assert forall i :: 0 < i < |rounds| ==> rounds[i] == later.rounds[i - 1];
  }

  /** A round that ends the book is, on its own, a trace of the book. */
  lemma LastRoundTrace(b: Book, balance: Token -> Option<nat>, rest: Book, round: Round)
    requires TakenBest(b, round.bid, round.ask, rest)
    requires EndsBook(round.verdict)
    requires RoundSound(round, balance) && !round.verdict.CantTrade?
    ensures Traced(b, BookRun([round], Stopped), balance)
  {
    assert [round][1..] == [];
  }

  /** Taking the highest bid and then the lowest ask takes the best of each side. */
  lemma TakeBoth(b: Book, bid: Order, afterBid: Book, ask: Order, rest: Book)
    requires ValidBook(b)
    requires HighestBid(b) == Some(Taken(bid, afterBid))
    requires LowestAsk(afterBid) == Some(Taken(ask, rest))
    ensures TakenBest(b, bid, ask, rest)
  {
  }

  /** The per-book loop: extract the highest bid, then the lowest ask, examine
      them, and go on with the rest of the book only after an execution. It
      terminates because every round removes a bid. */
  function RunBook(b: Book, balance: Token -> Option<nat>): (r: BookRun)
    requires ValidBook(b)
    ensures Traced(b, r, balance)
    decreases |b.bids|
  {
    match HighestBid(b)
    case None => BookRun([], OutOfBids)
    case Some(Taken(bid, afterBid)) =>
      match LowestAsk(afterBid)
      case None => BookRun([], OutOfAsks)
      case Some(Taken(ask, rest)) =>
        var round := Examine(bid, ask, balance);
        if EndsBook(round.verdict) then
          TakeBoth(b, bid, afterBid, ask, rest);
          LastRoundTrace(b, balance, rest, round);
          BookRun([round], Stopped)
        else
          var later := RunBook(rest, balance);
          TakeBoth(b, bid, afterBid, ask, rest);
          ExtendTrace(b, balance, rest, round, later);
          BookRun([round] + later.rounds, later.exit)
  }

  /** A trace of a book with a bid and an ask holds at least one round, and a
      trace that leaves bids behind ends on a side running empty of asks or a
      round that ends the book. */
  lemma TraceCoversBook(b: Book, r: BookRun, balance: Token -> Option<nat>)
    requires Traced(b, r, balance)
    ensures |b.bids| > 0 && |b.asks| > 0 ==> |r.rounds| > 0
    ensures |r.rounds| < |b.bids| ==>
      (r.exit.OutOfAsks? && |r.rounds| == |b.asks|) || (r.exit.Stopped? && EndsBook(r.rounds[|r.rounds| - 1].verdict))
  {
  }

  /** Once the best bid and the best ask do not cross, no bid and ask of the
      book cross, which justifies leaving the book at the first non-crossing pair. */
  lemma NoCrossingIsFinal(b: Book, bid: Order, afterBid: Book, ask: Order, rest: Book)
    requires ValidBook(b)
    requires HighestBid(b) == Some(Taken(bid, afterBid))
    requires LowestAsk(afterBid) == Some(Taken(ask, rest))
    requires !Crosses(bid, ask)
    ensures forall x, y :: x in b.bids && y in b.asks ==> !Crosses(x, y)
  {
    forall x, y | x in b.bids && y in b.asks ensures !Crosses(x, y) {
      RateAtMostTransitive(x, bid, ask);
      RateAtMostTransitive(x, ask, y);
    }
  }

  /** No round of the run reports a token mismatch. */
  predicate NoMismatch(r: BookRun) {
    forall i :: 0 <= i < |r.rounds| ==>
      !r.rounds[i].verdict.BaseMismatch? && !r.rounds[i].verdict.QuoteMismatch?
  }

  /** On a book whose orders are oriented as its pair, no round of a trace
      reports a token mismatch. */
  lemma OrientedBookNeverMismatches(b: Book, r: BookRun, balance: Token -> Option<nat>)
    requires Oriented(b) && Traced(b, r, balance)
    ensures NoMismatch(r)
  {
    forall i | 0 <= i < |r.rounds|
      ensures !r.rounds[i].verdict.BaseMismatch? && !r.rounds[i].verdict.QuoteMismatch?
    {
      assert RoundSound(r.rounds[i], balance);
    }
  }

  /** The loop over all books: each book runs on its own, whatever happened
      to the books before it. */
  function RunBooks(books: seq<Book>, balance: Token -> Option<nat>): (runs: seq<BookRun>)
    requires forall i :: 0 <= i < |books| ==> ValidBook(books[i])
    ensures |runs| == |books|
    ensures forall i :: 0 <= i < |books| ==> runs[i] == RunBook(books[i], balance)
  {
    if |books| == 0 then []
    else [RunBook(books[0], balance)] + RunBooks(books[1..], balance)
  }

  /** `arbitrage`: every book is processed independently and the result is
      always an empty list of twins with no error, since the execution steps
      are unimplemented. */
  function Arbitrage(books: seq<Book>, balance: Token -> Option<nat>): (r: ArbitrageOutcome)
    requires forall i :: 0 <= i < |books| ==> ValidBook(books[i])
    ensures |r.runs| == |books|
    ensures forall i :: 0 <= i < |books| ==> Traced(books[i], r.runs[i], balance)
    ensures forall i :: 0 <= i < |books| && Oriented(books[i]) ==> NoMismatch(r.runs[i])
    ensures r.twins == Success([])
  {
    var runs := RunBooks(books, balance);
    forall i | 0 <= i < |books| && Oriented(books[i]) ensures NoMismatch(runs[i]) {
      OrientedBookNeverMismatches(books[i], runs[i], balance);
    }
    ArbitrageOutcome(runs, Success([]))
  }
}
