/** The matcher's scheduling loop, as a fold over timer ticks and a stop
    signal, and one matching cycle per tick. */
module Engine {
  import opened Wrappers
  import opened Orders
  import opened Books
  import opened BookBuilder
  import opened Matching
  import opened Twins

  /** What the loop receives: a timer tick, with what the market and the
      balance query answer during that cycle, or the stop signal. */
  datatype Event =
    | Tick(market: Result<seq<Order>, string>, balance: Token -> Option<nat>)
    | Done

  /** What one cycle produced. */
  datatype CycleReport =
    | OrdersFailed(error: string)
    | ArbitrageFailed(error: string)
    | Completed(runs: seq<BookRun>, twinCount: nat, tally: Tally)

  /** The orders the market delivers have rates. */
  predicate RatedMarket(market: Result<seq<Order>, string>) {
    market.Success? ==> AllHaveRates(market.value)
  }

  /** Books built from rated orders are valid and oriented. */
  lemma BooksReady(orders: seq<Order>, books: seq<Book>)
    requires AllHaveRates(orders) && OrientedFrom(orders, books)
    ensures forall i :: 0 <= i < |books| ==> ValidBook(books[i]) && Oriented(books[i])
  {
    forall i | 0 <= i < |books| ensures ValidBook(books[i]) && Oriented(books[i]) {
      assert forall o :: o in books[i].bids ==> o in orders;
      assert forall o :: o in books[i].asks ==> o in orders;
    }
  }

  /** One cycle on a tick: build the books, run arbitrage on them, and
      aggregate the twins; an error ends the cycle, never the loop. */
  function Cycle(market: Result<seq<Order>, string>, balance: Token -> Option<nat>): (c: CycleReport)
    requires RatedMarket(market)
    ensures c.OrdersFailed? <==> market.Failure?
    ensures !c.ArbitrageFailed?
    ensures c.Completed? ==>
      && |c.runs| == |GetBooks(market).value|
      && (forall i :: 0 <= i < |c.runs| ==> Traced(GetBooks(market).value[i], c.runs[i], balance))
      && (forall i :: 0 <= i < |c.runs| ==> NoMismatch(c.runs[i]))
      && c.twinCount == 0
      && c.tally.cost == 0 && c.tally.changes == map[]
  {
    match GetBooks(market)
    case Failure(e) => OrdersFailed(e)
    case Success(books) =>
      BooksReady(market.value, books);
      var outcome := Arbitrage(books, balance);
      match outcome.twins
      case Failure(e) => ArbitrageFailed("could not compute arbitrage orders (" + e + ")")
      case Success(twins) => Completed(outcome.runs, |twins|, Aggregate(twins))
  }

  predicate RatedEvents(events: seq<Event>) {
    forall i :: 0 <= i < |events| && events[i].Tick? ==> RatedMarket(events[i].market)
  }

  /** The loop: one cycle per tick, in order, until the first stop signal. */
  function Run(events: seq<Event>): (reports: seq<CycleReport>)
    requires RatedEvents(events)
    ensures |reports| <= |events|
    ensures forall i :: 0 <= i < |reports| ==>
      events[i].Tick? && reports[i] == Cycle(events[i].market, events[i].balance)
    ensures |reports| < |events| ==> events[|reports|].Done?
  {
    if |events| == 0 then []
    else
      match events[0]
      case Done => []
      case Tick(market, balance) =>
        assert RatedEvents(events[1..]) by {
          forall i | 0 <= i < |events[1..]| && events[1..][i].Tick?
            ensures RatedMarket(events[1..][i].market)
          {
            assert events[1..][i] == events[i + 1];
          }
        }
        [Cycle(market, balance)] + Run(events[1..])
  }

  /** Nothing after the stop signal is processed, and a failed cycle never
      stops the loop: every tick before the signal gets its cycle. */
  lemma StopIsFinal(before: seq<Event>, after: seq<Event>)
    requires forall i :: 0 <= i < |before| ==> before[i].Tick?
    requires RatedEvents(before + [Done] + after)
    ensures RatedEvents(before)
    ensures Run(before + [Done] + after) == Run(before)
    ensures |Run(before)| == |before|
  {
    var events := before + [Done] + after;
    assert forall i :: 0 <= i < |before| ==> events[i] == before[i];
    var r, s := Run(events), Run(before);
    assert events[|before|] == Done;
  }
}
