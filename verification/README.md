# M3 matcher: a Dafny model of the arbitrage pipeline

M3 (Maker Market Maker) watches the open orders of the Maker OTC market and looks for arbitrage.
On every timer tick it does three things:

1. It groups the market's orders into one book per token pair (`getBooks`).
2. For each book it repeatedly takes the highest bid and the lowest ask and checks whether their rates cross. It checks that their tokens line up, reads the two token balances, and sizes a trade (`arbitrage`, `Max`).
3. It sums the cost and the per-token change of the resulting twins (`run`).

This project models that pipeline as pure functions over immutable data and proves its properties with Dafny.

Modules, one per component of `business/matcher.go`:

- `Wrappers` (wrappers.dfy): `Option` and `Result`.
- `Orders` (orders.dfy): `Order`, its exact rate sellAmount/buyAmount, and the cross-multiplication order on rates. That order is proved equal to the order of the rational rates and transitive.
- `Books` (books.dfy): `Book` as Base, Quote and two order sequences. `HighestBid` and `LowestAsk` remove the best order, or fail when that side is empty.
- `BookBuilder` (book_builder.dfy): `getBooks`. The Go map from `BuyToken.Hex()+SellToken.Hex()` to `*Book` is modelled as a sequence of books. A book's key is always its own ordered pair (Base, Quote): the Go code registers a new book under exactly that key. The sequence keeps the order in which pairs were first seen. Go's map iteration order is unspecified, so this order is a modelling choice, and no proved property depends on it.
- `Sizing` (sizing.dfy): `Max` and the sizing arithmetic for one crossed pair.
- `Twins` (twins.dfy): `Twin`, and the aggregation of cost and per-token change.
- `Matching` (matching.dfy): the per-book loop and `arbitrage`. A book's run is a trace of rounds. Each round records the extracted bid and ask, the tokens whose balance was queried (in order), and the verdict. The balance query `Atomic.Balance` is a parameter `Token -> Option<nat>`; `None` stands for an error.
- `Engine` (engine.dfy): one cycle per tick, and the loop as a fold over `Tick`/`Done` events that halts at the first `Done`.
- `Scenarios` (scenarios.dfy): concrete runs of the per-book loop.

The central results:

- `getBooks` is characterised completely, up to the order of the books. Each book's bids are exactly the input orders that buy its Base for its Quote, in input order. Its asks are exactly the orders in the reverse direction. No two books share an unordered pair. Every order belongs to some book. Each book is oriented by the first order seen for its pair. The books together hold the input orders with their multiplicities.
- The per-book loop terminates, because every round removes a bid. Every round takes the best bid and the best ask still in the book. The loop goes on until a side runs empty or a round ends the book, and only an execution lets it continue. Each round's verdict holds exactly when its condition does. Balances are queried only for a pair that crosses strictly and whose tokens line up. Books built by `getBooks` never report a token mismatch. `arbitrage` processes each book independently. It always returns an empty list of twins and no error, because the execution steps are unimplemented TODOs.
- Aggregation agrees with independently defined per-token sums.

Two observations about the code, recorded as facts of the model:

- Sizing takes the maximum of each three amounts, not the minimum. The model keeps the maximum. So `baseAmount` is at least `bid.BuyAmount`, which is positive whenever the bid has a rate. The "can't trade marginal amounts" branch (business/matcher.go:300-305) can therefore never be taken. `RunBook`'s contract states this.
- Both rates are sellAmount/buyAmount. A bid's rate is then quote per base, but an ask's rate is base per quote. `Scenarios.MixedUnitsHideCrossing` exhibits a pair whose prices overlap in quote-per-base terms, yet the crossing test as written reports no crossing. `Order.Rate` is not part of this model. So this is recorded as a consequence of the sellAmount/buyAmount reading, not as a defect.

## Model

| member | source | states |
|---|---|---|
| Orders.RateBelowIsRateOrder | business/matcher.go:252 | comparing rates by cross-multiplication gives exactly the order of the rational rates sellAmount/buyAmount, for positive buy amounts |
| Orders.RateAtMostTransitive | business/matcher.go:251-254 | "rate at most" is transitive on orders with rates, so best-first extraction is well defined |
| Books.BestIndex | business/matcher.go:240-249 | the chosen position holds an order no other order beats; every earlier order is strictly worse, so ties go to the earliest inserted |
| Books.HighestBid | business/matcher.go:240-243 | fails exactly when there are no bids; otherwise returns a bid whose rate is at least every bid's rate, and removes exactly one copy of it; asks, Base and Quote are unchanged |
| Books.LowestAsk | business/matcher.go:246-249 | fails exactly when there are no asks; otherwise returns an ask whose rate is at most every ask's rate, and removes exactly one copy of it; bids, Base and Quote are unchanged |
| BookBuilder.Lookup | business/matcher.go:195-207 | finds a book keyed by the given ordered pair when one exists, and reports absence only when no book has that key |
| BookBuilder.Place | business/matcher.go:195-215 | one iteration adds a book exactly when no book trades the order's pair in either direction, and the new book is keyed (BuyToken, SellToken) holding the order as its only bid; existing books keep their keys and only grow at the end of their sides |
| BookBuilder.PlaceKeepsGrouped | business/matcher.go:191-215 | one iteration (join as bid, else join as ask, else open a new book with Base=BuyToken and Quote=SellToken) preserves the grouping characterisation |
| BookBuilder.Build | business/matcher.go:189-216 | there are never more books than orders, and every book holds at least one bid, since a book is only ever opened by the order that becomes its first bid |
| BookBuilder.BuildGrouped | business/matcher.go:189-216 | after all orders: bids and asks equal the reference filters, keys never hold both (A,B) and (B,A), every order is covered, and each book is oriented by its pair's first order |
| BookBuilder.PlaceAddsOrder | business/matcher.go:195-215 | placing an order adds exactly that order to the books' contents |
| BookBuilder.BuildKeepsEveryOrder | business/matcher.go:189-224 | every input order lands in exactly one book on exactly one side: contents equal the input multiset, and total bids plus asks equal the input length |
| BookBuilder.GroupedIsOriented | business/matcher.go:196-215 | every bid buys Base for Quote, every ask buys Quote for Base, and books hold only input orders |
| BookBuilder.GetBooks | business/matcher.go:177-225 | fails exactly when the market's `Orders()` fails (no books built); otherwise the books are grouped, oriented, and hold exactly the input orders |
| Sizing.Max | business/matcher.go:319-328 | returns one of its three arguments and is at least each of them |
| Sizing.Size | business/matcher.go:284-305 | baseAmount is one of, and at least each of, the base balance, bid.BuyAmount and ask.SellAmount; quoteAmount likewise for the quote side; quoteAsBase is the floor of quoteAmount·ask.SellAmount/ask.BuyAmount; both base sizes are zero only if the base balance, bid.BuyAmount and ask.SellAmount are zero |
| Sizing.FirstLeg | business/matcher.go:307-312 | the leg whose base-denominated amount is larger goes first; a tie goes to the quote leg |
| Matching.Decide | business/matcher.go:284-312 | the sizes are those `Size` computes from the balances read; the can't-trade verdict occurs exactly when the base balance, bid.BuyAmount and ask.SellAmount are all zero, and otherwise the round executes with the leg `FirstLeg` picks |
| Twins.Aggregate | business/matcher.go:129-152 | the total cost equals the sum of twin costs; the change map has an entry exactly for the tokens some twin touches, each equal to the summed signed amounts for that token |
| Matching.Examine | business/matcher.go:251-312 | each verdict holds exactly when its condition does: no cross exactly when the bid's rate is not above the ask's, a base or quote mismatch exactly when that token check fails, a balance failure exactly when that query fails, and an execution exactly when the pair crosses, lines up and both balances are read; balances are queried only for such a pair, base first; an execution carries the sizes `Size` computes from the two balances and is never the can't-trade verdict |
| Matching.RunBook | business/matcher.go:236-313 | terminates by removing one bid per round; every round takes, from what earlier rounds left, a bid of greatest rate and an ask of least rate, and decides as `Examine` states; only the last round can end the book; the run reports running out of bids only after a round for every bid, and out of asks only after a round for every ask while bids remain |
| Matching.TraceCoversBook | business/matcher.go:237-249 | a book with a bid and an ask gets at least one round, and a run that leaves bids unused ended on running out of asks or on a round that ends the book |
| Matching.ExtendTrace | business/matcher.go:237-313 | an executed round followed by a trace of the remaining book is a trace of the whole book |
| Matching.NoCrossingIsFinal | business/matcher.go:251-254 | when the best bid and best ask do not cross, no bid and ask of that book cross |
| Matching.OrientedBookNeverMismatches | business/matcher.go:256-268 | in any trace of a book whose orders are oriented like its pair, no round reports a base or quote token mismatch |
| Matching.RunBooks | business/matcher.go:233-314 | each book's run is that book's own run, whatever earlier books did: abandoning a book never affects later books |
| Matching.Arbitrage | business/matcher.go:227-317 | one trace per book, each as `RunBook` states, with no token mismatch on an oriented book; the result is always an empty list of twins with no error |
| Engine.Cycle | business/matcher.go:111-152 | a market failure ends the cycle with an error; the arbitrage error never occurs; otherwise each book of `getBooks` gets a trace as `RunBook` states, no round reports a token mismatch (so the branches at lines 257-267 are unreachable from `getBooks`' output), and there are no twins, zero cost and no changes |
| Engine.Run | business/matcher.go:101-172 | one cycle per tick, in order, until the first stop signal; a failed cycle does not stop the loop |
| Engine.StopIsFinal | business/matcher.go:102-108 | events after the stop signal are ignored, and every tick before it gets its cycle |
| Scenarios.CrossedPairExecutes | business/matcher.go:240-312 | a crossed pair with zero balances is sized (100, 80, 30), executes base first, and the loop then runs out of bids |
| Scenarios.UncrossedPairQueriesNothing | business/matcher.go:251-254 | a non-crossing pair ends the book after one round, with no balance query even when every query would fail |
| Scenarios.LoneBidEndsAtOnce | business/matcher.go:246-249 | a book with a bid and no ask ends with no round |
| Scenarios.MixedUnitsHideCrossing | business/matcher.go:251-254 | a pair whose prices overlap in quote per base is reported as not crossing, because an ask's sellAmount/buyAmount is base per quote |

## Left out

- The goroutine, ticker, `done` channel and the `Stop` signal/acknowledge handshake (business/matcher.go:58, 79-98): concurrency and timer plumbing. The loop is modelled as `Engine.Run`, a fold over tick and stop events.
- Wallet balance reporting and every logger call (business/matcher.go:116, 125, 154-169, 258, 265, 273, 280, 303): external I/O. `m.wallet` is never assigned in `NewMatcher`. The logged error texts are not modelled beyond the wrapped market error.
- `NewMatcher`, its functional options, `SetRefresh` and `SetThreshold` (business/matcher.go:40-76): configuration only. The threshold is never read.
- Trade execution: the branches at business/matcher.go:286-294 and 308-312 are empty TODOs, and `ExecuteAtomic` belongs to an external collaborator. The model records which leg would go first, but not the two no-op comparisons at 286 and 292.
- `Order.Rate` and the `Book` type (`AddBid`, `AddAsk`, `HighestBid`, `LowestAsk`) are not part of this model. The rate is taken to be the exact ratio sellAmount/buyAmount. Orders must have a positive buy amount (`HasRate`), since a zero would make the rate and the division at line 298 undefined. Extraction is modelled by its best-first contract, with ties going to the earliest inserted order. The data structure behind it is not modelled.
- Hex formatting of addresses: book keys are modelled as ordered token pairs.
- Sizing.Size: balances are modelled as natural numbers, so a negative `*big.Int` balance is not represented.
- m3.go (flag parsing, user lookup, IPC connection, contract binding) and business/wallet_test.go (stubs returning nil): process plumbing and test scaffolding.
