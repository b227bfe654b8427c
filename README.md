# Trade-ledger accounting engine, modelled in Dafny

This project models the accounting core of a trading tool server. The core is
a set of read-only queries over an ordered ledger of Buy/Sell records (date,
symbol, share count, unit price):

- current holdings (`portfolio`);
- realized gains by FIFO lot matching (`realized_gains`);
- unrealized gains at average cost against a live price (`unrealized_gains`);
- sell validation against the running balance (`validate_trades`);
- the combined P&L summary (`pnl`);
- one symbol's trade history (`trade_history`);
- a what-if sale (`simulate_sell`).

Five queries are loops over the rows: `portfolio`, `realized_gains`,
`unrealized_gains`, `validate_trades` and `simulate_sell`. The FIFO queries keep
a per-symbol queue of `(shares, price)` lots and change it in place. The model
keeps that shape. Each of the five is a `method` with a `for` loop over local
`map`/`seq` state, and each inner FIFO sell is a `while` loop over a
`seq<Lot>`. The other two are not loops. `trade_history` is a boolean-mask
filter of the table, modelled as the recursive function `Trades.TradeHistory`.
`pnl` combines the results of `realized_gains` and `unrealized_gains`, modelled
as the loop-free method `Gains.Pnl`. Every method is proved against
specification functions (`Lots`, `Remaining`, `Taken`, `Realized`,
`Unrealized`, `Violations`, `Bought`/`Sold`). Lemmas then prove what the
code's docstrings and comments promise about those functions.

Modules, leaves first:

- `Trades` (trades.dfy) holds the records, balances and `TradeHistory`.
- `Fifo` (fifo.dfy) holds one queue, one Sell, the two matching loops and the per-share view.
- `LotQueues` (lotqueues.dfy) holds the replay of the whole ledger and the match log.
- `Positions` (positions.dfy) holds `portfolio`.
- `Validator` (validator.dfy) holds `validate_trades`.
- `Gains` (gains.dfy) holds realized and unrealized gains and `pnl`.
- `Simulation` (simulation.dfy) holds `simulate_sell`.

Representation choices:

- Prices are integers in cents. Realized gains are exact integers. The unrealized formula
  `(current - total_cost / total_shares) * total_shares` is kept in `real`, and a lemma proves
  it exact.
- The share count is an unbounded `int`. The table is read as it stands, and nothing rejects a
  zero or negative share count. The operations do what the code does for any integer, so they
  need no precondition. Many property lemmas assume `WellFormed`: every share count is positive.
- A live price is a parameter: `quote: Symbol -> Option<Price>`, or `Option<Price>` for
  `simulate_sell`. `None` stands for an unavailable price.
- `unrealized_gains` returns a Python dict in insertion order. It is modelled as an ordered
  `seq<Valuation>` with no repeated symbols, in that order: the order in which each symbol
  first reached the replay table (`SymbolsOf`).
- A Sell of no shares fails the loop test `shares > 0` before the code looks up the
  defaultdict. So it creates no table entry (`LotQueues.Touches`). This matters only for the
  order of `unrealized_gains`.

## Model

| member | source | states |
|---|---|---|
| Trades.TradeHistory | trader_tools.py:215 | the result holds exactly the ledger's rows of the symbol and is no longer than the ledger |
| Trades.HistoryOfConcat | trader_tools.py:215 | the history keeps ledger order: the history of `a + b` is the history of `a` followed by that of `b` |
| Trades.HistoryKeepsBalance | trader_tools.py:215 | a symbol's history alone gives the same bought and sold totals as the whole ledger |
| Trades.OnlyBoughtBalance | trader_tools.py:61-67 | a symbol that is only bought has nothing sold, and its balance is everything bought |
| Positions.Portfolio | trader_tools.py:61-67 | a symbol is in the result iff its bought minus sold shares are strictly positive, and its value is exactly that difference |
| Positions.OnlyBoughtHolding | trader_tools.py:61-67 | a symbol bought at least once and never sold has a strictly positive balance equal to its total bought, so by `Portfolio`'s ensures it is held with that value |
| Fifo.MatchSell | trader_tools.py:93-101 | the loop leaves `Remaining(lots, n)` and returns the gain of the fills `Taken(lots, n)` |
| Fifo.ConsumeLots | trader_tools.py:124-132 | the replay loop without gains leaves exactly the same queue `Remaining(lots, n)` |
| Fifo.MatchingKeepsLotsPositive | trader_tools.py:98-101 | after a Sell every lot of the queue, and every fill, has a positive share count |
| Fifo.FifoByUnits | trader_tools.py:93-101 | FIFO share by share: the fills are the oldest `Matchable(n, total)` shares of the queue, and the rest of the shares stay in order |
| Fifo.SellLeavesTotal | trader_tools.py:93 | after a Sell of `n > 0` the queue holds `max(0, before - n)` shares, and the fills hold `min(n, before)`: the excess is dropped |
| Fifo.RemainingShape | trader_tools.py:98-101 | the queue left is an untouched suffix, except that its front may be a partly matched lot with the same price and fewer, still positive, shares |
| Fifo.SellAll | trader_tools.py:93-99 | a Sell of at least everything held takes every lot whole and empties the queue |
| Fifo.GainByUnits | trader_tools.py:95-96 | a Sell's gain is the sum of sale price minus unit cost over the shares it takes, oldest first |
| Fifo.GainIsProceedsMinusCost | trader_tools.py:96 | the gain of a set of fills is their shares times the sale price minus their cost basis |
| LotQueues.SymbolsOf | trader_tools.py:118-135 | the table's insertion order has no repeated symbol |
| LotQueues.QueueIsSymbolQueue | trader_tools.py:232-247 | replaying the full ledger gives a symbol the queue that replaying only its own rows gives: rows of other symbols touch nothing |
| LotQueues.HistoryRebuildsQueue | trader_tools.py:232-247 | replaying the symbol's trade history rebuilds the same queue as skipping other rows |
| LotQueues.LotsKeys | trader_tools.py:118-135 | the replay table's keys are exactly the symbols of its insertion order |
| LotQueues.QueueAccounting | trader_tools.py:83-101 | for a well-formed ledger every lot is positive and the queue holds shares bought minus shares matched, as the match log records |
| LotQueues.BalanceBackedByLots | trader_tools.py:120-132 | the queue never holds fewer shares than bought minus sold, and never a negative amount |
| LotQueues.OnlyBoughtNeverMatched | trader_tools.py:90-101 | a symbol with no Sell never appears in the match log, so it adds nothing to realized gains |
| Validator.ValidateTrades | trader_tools.py:174-183 | the loop returns `Violations(ledger)`: one record per Sell whose earlier arithmetic balance is below the request, in ledger order, with the balance never clamped |
| Validator.ViolationsAreOversizedSells | trader_tools.py:180-181 | every violation is a Sell row of the ledger with `owned < requested`, where `owned` is the balance of the rows before it |
| Validator.OversizedSellsAreViolations | trader_tools.py:180-181 | conversely, every Sell row asking for more than the balance of the rows before it yields a violation with that balance as `owned` |
| Validator.NoViolationsIffNeverNegative | trader_tools.py:174-183 | a well-formed ledger has no violation iff no symbol's balance is negative after any prefix |
| Validator.NoViolationsQueueIsBalance | trader_tools.py:174-183 | without violations no Sell is dropped, so each FIFO queue holds exactly the portfolio balance |
| Validator.OversizedSellExample | trader_tools.py:172 | Buy AAPL 10 then Sell AAPL 20 gives exactly one violation, with 20 requested and 10 owned |
| Validator.BalanceDriftExample | trader_tools.py:182 | after an oversized Sell the balance stays negative, so a later Buy 5 then Sell 5 is flagged again with -5 owned |
| Gains.RealizedGains | trader_tools.py:83-102 | the replay returns `Realized(ledger)`, built on the same queues `Lots` as every other replay |
| Gains.RealizedIsSumOfMatches | trader_tools.py:96 | the realized gain is the sum, over the ordered log of all matches, of matched times (sale price minus lot price) |
| Gains.OnlyBuysRealizeNothing | trader_tools.py:90-91 | a ledger with only Buys realizes 0 |
| Gains.FifoExample | trader_tools.py:83-102 | buys of 10@1.00 and 10@2.00, then a sell of 15@5.00, realize 55.00 (5500 cents) |
| Gains.UnrealizedGains | trader_tools.py:118-143 | the method returns `Unrealized(ledger, quote)`: the same FIFO replay, then one average-cost valuation per symbol still holding shares, in insertion order |
| Gains.AverageCostIsExact | trader_tools.py:136-142 | `(current - total_cost / total_shares) * total_shares` equals `current * total_shares - total_cost` exactly |
| Gains.UnrealizedDistinct | trader_tools.py:134-143 | no symbol has two entries in the unrealized gains |
| Gains.UnrealizedListsHeldSymbols | trader_tools.py:135-139 | a symbol has an entry iff its FIFO queue still holds shares; a fully sold symbol has none |
| Gains.UnrealizedEntry | trader_tools.py:136-142 | an entry is `None` for an unavailable price, and otherwise exactly current times held minus the cost of the remaining FIFO lots |
| Gains.ValuateAsWritten | trader_tools.py:40-44 | as written, an unavailable price is used as -1.00 |
| Gains.UnavailablePriceFabricatesLoss | trader_tools.py:141-142 | as written, a held symbol with no price is reported with a loss larger than its whole cost basis; the model reports `None` |
| Gains.UnavailablePriceExample | trader_tools.py:141-142 | 10 shares at 1.00 with no price: the code reports -20.00, and the model reports `None` |
| Gains.TotalUnrealized | trader_tools.py:199 | the sum is known iff every entry is known |
| Gains.Pnl | trader_tools.py:197-200 | `realized` is `Realized(ledger)`, `unrealized` is the total of `Unrealized(ledger, quote)`, and the total is known whenever every price is |
| Gains.EmptyLedgerPnl | trader_tools.py:197-200 | an empty ledger has realized 0 and unrealized total 0 |
| Simulation.SimulateSell | trader_tools.py:232-263 | the result is `None` for an unavailable price, and otherwise the gain of one more FIFO Sell against the symbol's rebuilt queue |
| Simulation.SimulatedSaleMatchesHeld | trader_tools.py:253-261 | the hypothetical sale matches `min(shares, held)` shares of the lots the ledger's own replay leaves, and drops the rest |
| Simulation.SellingEverythingRealizesUnrealized | trader_tools.py:249-263 | simulating a sale of at least everything held realizes exactly the symbol's unrealized gain at the same price |

## Left out

- Loading the trade table from CSV (trader_tools.py:27-28): the ledger is a `seq<Trade>` parameter, and Python's "any type other than Buy is a Sell" becomes a two-valued `Side`.
- The live-price fetch and `current_price` (trader_tools.py:33-44, 146-159): a network call. The price is a parameter, and `current_price` is that parameter itself.
- Gains.UnrealizedGains: an unavailable price gives a `None` entry, not a value computed from the -1.0 sentinel (see Findings).
- Simulation.SimulateSell: an unavailable price gives `None`, not proceeds computed at -1.0.
- Gains.Pnl: the unrealized total is `None` when any held symbol has no price. The code instead sums values computed from the sentinel.
- Ledgers with a zero or negative share count: the operations accept them, but the lemmas that require `WellFormed` (for example `LotQueues.QueueAccounting` and `Validator.NoViolationsIffNeverNegative`) say nothing about them.
- Float arithmetic and `round(…, 2)` (trader_tools.py:102, 142, 263): amounts are exact, in integer cents and exact reals.
- The result of `portfolio` is a Dafny `map`, so the insertion order of the Python dict is not modelled for it.
- The wording of the validation messages (trader_tools.py:181): a violation is the record `(date, symbol, requested, owned)`.
- Tool registration, the stdio transport, the startup prints and the dateutil check (trader_tools.py:14-24, 31, 47, 265-266): I/O plumbing.
- Concurrent serving of queries: each query is a pure fold over an immutable ledger value. So `simulate_sell` cannot change what `portfolio` or `realized_gains` later return.

## Findings

| source | as written | input that shows it | evidently intended | confidence | as-written member | corrected member |
|---|---|---|---|---|---|---|
| trader_tools.py:40-44, 141-142 | an unavailable live price comes back as -1.0 and is used as a price, so `(current - avg) * shares` reports a loss larger than the whole cost basis | one Buy of 10 shares at 1.00 and no price: -20.00 | report the symbol's gain as unknown | not executed | Gains.UnavailablePriceFabricatesLoss | Gains.UnrealizedEntry |
