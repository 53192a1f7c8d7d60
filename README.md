# selective_dca_bot: order arithmetic and position bookkeeping, in Dafny

This project models the core of a dollar-cost-averaging trading bot. The bot runs once per
tick. Its core does four things:

- it revises the limit-sell target of every open long position;
- it picks the next crypto to buy by a weighted lottery over price-to-moving-average ratios;
- it buys the pick and places the first limit sell for the new position;
- it reconciles the positions with the status of their sell orders on the exchange.

A one-off migration also places limit sells for old positions that have none. All of the
bot's arithmetic is Python `Decimal`. The model states it over exact `real` values, with
`Decimals.Quantize` for rounding to a tick or lot step. Every answer from the exchange is an
input: a cancel reply, a limit-sell reply, an order status or a market-order fill list.

The modules:

- **Outcomes**: `Option`, `Result` and the exceptions the modelled paths can raise.
- **Decimals**: `quantize` with half-even and `ROUND_UP` rounding, and Decimal division.
- **Text**: splitting and joining on commas, and Python string order.
- **Sorting**: a stable `sorted(..., key=...)`.
- **Models**: the database records: `MarketParams`, `LongPosition` (a class, because its
  sell fields are updated in place), `Candle` and `AllTimeWatchlist`.
- **Binance**: the exchange adapter:
  - market names and filter parsing;
  - fill totals of market orders;
  - `limit_sell` and `cancel_order`;
  - the order-status reconciliation loop.
- **Scalp**: the scalp pricing of the migration that places the missing limit sells, and
  that migration's loop.
- **Revision**: the sell-target revision loop of the main script.
- **BuySide**: the buy side of the main script:
  - over-positioning, candidates and their lottery entries;
  - the draw;
  - the order size;
  - the first sell target and the first limit sell.

The loops the source runs are `while` loops here, each proved against a function that
describes the whole pass:

| loop | specified by |
|---|---|
| `Revision.ReviseAll` | `Revision.Replay` |
| `Scalp.FixUpAll` | `Scalp.ApplyFixUps` |
| `Binance.SettleAll` | `Binance.ReconcileUpTo` |
| `BuySide.Collect`, `BuySide.LotteryWeights` | `BuySide.CandidatesOf`, `BuySide.Shares` |
| `Models.CalculateMovingAverage` | `Models.SumCloses` |

The properties of the passes are proved as lemmas about those functions.

Where the bot's stated design and its code disagree, the model follows the code:

- **Rounding of the scalp quantity.** The scalp quantity `spent / target` is rounded with
  the Decimal default, half-even (src/migrations/0005_generate_limit_sells.py:33), not
  rounded up. Proceeds can therefore fall short of `spent`. A purchase of 100 at 1.00 with
  lot step 1 and tick 0.01 gives (95, 1.05), and 95 × 1.05 = 99.75 < 100. See
  `Scalp.ScalpShortOfSpent`.
- **Recent buys.** A recently bought market stays a candidate unless the set of recent
  markets is exactly that one market (src/main.py:395-396). Recently bought markets are not
  excluded in general.
- **Cancel errors.** A client exception from `cancel_order` propagates and ends the pass. It
  is not logged and skipped. A cancel reply whose status is not CANCELED raises NameError
  (the error line uses `json`, which src/main.py does not import): the position keeps its
  order id and the pass ends. See the fourth finding.
- **The PERCENT_PRICE cap.** The capped target is rounded half-even, not rounded down.
- **Scalped quantity.** When a sell fills, the scalped quantity is quantized to the lot step.

## Model

| member | source | states |
|---|---|---|
| Decimals.RoundToInt | src/main.py:467-468 | rounding `r` to an integer: exact on integers; half-even lands within 1/2 and picks the even neighbour on a tie; `ROUND_UP` rounds away from zero by less than one |
| Decimals.RoundToIntMonotone | src/main.py:467-468 | rounding to an integer never reverses the order of two values |
| Decimals.QuantizeBounds | src/migrations/0005_generate_limit_sells.py:32-33 | `quantize` half-even lands within half a step of `x`; `ROUND_UP` on a non-negative `x` lands in `[x, x + step)` |
| Decimals.QuantizeOnGrid | src/migrations/0005_generate_limit_sells.py:32-33 | a quantized value is a multiple of the step |
| Decimals.QuantizeExact | src/migrations/0005_generate_limit_sells.py:38 | quantizing a multiple of the step leaves it unchanged |
| Decimals.QuantizeMonotone | src/main.py:297-302 | quantizing keeps the order of two values |
| Decimals.QuantizeNonNegative | src/main.py:398 | quantizing a non-negative value gives a non-negative value |
| Decimals.QuantizeIdempotent | src/main.py:262 | quantizing a quantized value again, in either mode, changes nothing |
| Decimals.GridAdd | src/main.py:445 | the sum of two multiples of a step is a multiple of it |
| Decimals.GridGap | src/main.py:442-445 | two distinct multiples of a step are at least one step apart |
| Decimals.Divide | src/main.py:437 | Decimal division succeeds exactly when the divisor is non-zero, and the quotient times the divisor is the dividend; `0/0` raises InvalidOperation and `x/0` raises DivisionByZero |
| Text.Split | src/selective_dca_bot/models.py:331 | `split(',')` gives at least one piece and no piece contains a comma |
| Text.SplitJoin | src/selective_dca_bot/models.py:338-340 | splitting the join of comma-free pieces gives the pieces back |
| Text.JoinSplit | src/selective_dca_bot/models.py:338-340 | joining the pieces of a split gives the string back |
| Text.LessTransitive | src/selective_dca_bot/models.py:340 | Python string order is transitive |
| Text.LessTotal | src/selective_dca_bot/models.py:340 | of two distinct strings, one is less than the other |
| Text.InsertUnique | src/selective_dca_bot/models.py:339-340 | inserting into a strictly sorted list keeps it strictly sorted, and its elements become the old ones plus the new one |
| Text.SortedUnique | src/selective_dca_bot/models.py:340 | `sorted(set(xs))` is strictly sorted and has exactly the elements of `xs` |
| Text.StrictlySortedUnique | src/selective_dca_bot/models.py:340 | two strictly sorted lists with the same elements are equal |
| Sorting.Insert | src/main.py:381 | insertion keeps the list sorted by key and adds exactly the new element |
| Sorting.SortBy | src/main.py:381 | `sorted(s, key=...)` is sorted by key and a permutation of `s`; its stability is `Sorting.SortByStable` |
| Sorting.InsertStable | src/main.py:381 | an insertion puts the new element ahead of the elements with its key and keeps the order of the elements of every key |
| Sorting.SortByStable | src/main.py:381 | `sorted` is stable: for every key, the elements with that key come out in their input order, so ties in `price_to_ma` keep the metrics' order in the candidate list and in the lottery's population (src/main.py:422) |
| Models.GetMarket | src/selective_dca_bot/models.py:309-319 | `get_market` finds nothing exactly when no row matches both market and exchange; otherwise it returns a matching row |
| Binance.GetMarketAt | src/selective_dca_bot/models.py:309-319 | the row `get_market` returns is the first matching one: no row before it matches |
| Models.SpentPerPrice | src/selective_dca_bot/models.py:290-292 | `spent / purchase_price` gives back the quantity bought |
| Models.LongPosition.Create | src/main.py:452-461 | a new position record holds the purchase facts given, and every sell field is null |
| Models.Views | src/selective_dca_bot/models.py:208-215 | the values of position objects, one per object, in order |
| Models.Eligible | src/selective_dca_bot/models.py:196-201 | every candle the moving-average query selects has the same market and interval and is no newer than the candle itself, and comes from the table; the converse is `Models.EligibleComplete` |
| Models.EligibleComplete | src/selective_dca_bot/models.py:196-201 | every candle of the same market and interval no newer than the candle itself is selected, as often as it occurs in the table |
| Models.CalculateMovingAverage | src/selective_dca_bot/models.py:182-204 | the loop sums the closes of the latest `periods` eligible candles and divides by `periods` itself, raising on `periods == 0` |
| Models.LatestAreNewest | src/selective_dca_bot/models.py:195-201 | at most `periods` candles are averaged, and every eligible candle left out is no newer than one taken |
| Models.ShortHistoryUnderestimates | src/selective_dca_bot/models.py:202-204 | with fewer eligible candles than `periods` all are taken, and the average of positive closes is strictly below their true mean |
| Models.SumClosesPermutation | src/selective_dca_bot/models.py:202-203 | the sum of the closes does not depend on the order of the candles |
| Models.ZeroPeriods | src/selective_dca_bot/models.py:204 | with `periods == 0` the average raises InvalidOperation |
| Models.FirstRow | src/selective_dca_bot/models.py:331 | the first row of the exchange, or the end when there is none |
| Models.GetWatchlist | src/selective_dca_bot/models.py:328-333 | `get_watchlist` is None exactly when the exchange has no row or its list is null; otherwise the list is `split(',')` of the stored string: at least one piece, no piece holding a comma, and the pieces joined by commas give the stored string back |
| Models.UpdateWatchlist | src/selective_dca_bot/models.py:335-341 | the first row of the exchange gets `Merged(old, new)`; no row raises IndexError and a null list raises AttributeError, changing nothing; other rows are untouched |
| Models.MergedSplit | src/selective_dca_bot/models.py:338-340 | splitting the stored list gives `sorted(set(old + new))`, so both the old and the new entries are kept and the all-time list only grows |
| Models.MergedIdempotent | src/selective_dca_bot/models.py:336-341 | repeating an update with the same watchlist stores the same string |
| Models.GetAfterUpdate | src/selective_dca_bot/models.py:329-340 | `get_watchlist` after an update yields the sorted union of the old and new entries |
| Binance.LastOf | src/selective_dca_bot/exchanges/binance_exchange.py:92-104 | a filter value is None exactly when no filter supplies it; otherwise it is the value of the last filter supplying one |
| Binance.ParseFilters | src/selective_dca_bot/exchanges/binance_exchange.py:85-104 | the filter loop reads the tick, step, minimum notional, multiplier and minutes as `Parse` does |
| Binance.RecheckAsWritten | src/selective_dca_bot/exchanges/binance_exchange.py:106-112 | the recheck as written keeps the row's tick and lot step and fails only on a missing minimum notional |
| Binance.RecheckKeepsStaleTick | src/selective_dca_bot/exchanges/binance_exchange.py:106-112 | a recheck as written of a market whose tick changed leaves the old tick in the row |
| Binance.Recheck | src/selective_dca_bot/exchanges/binance_exchange.py:106-112 | the recheck as intended writes every parsed value to its column and fails when one is missing |
| Binance.NewRow | src/selective_dca_bot/exchanges/binance_exchange.py:115-124 | the created row is for the built market on Binance and carries the parsed values; a missing value fails |
| Binance.MarketIndexAt | src/selective_dca_bot/models.py:309-319 | a matching row with no match before it is the one `get_market` finds |
| Binance.InitializeMarket | src/selective_dca_bot/exchanges/binance_exchange.py:42-126 | a present row without recheck is kept; no symbol info fails; otherwise the row is rechecked in place by the corrected `Recheck` (not the as-written one of the first finding) or appended; after a success the market has a row |
| Binance.RecheckRefreshesGranularity | src/selective_dca_bot/exchanges/binance_exchange.py:106-112 | after a corrected recheck `get_market` returns the parsed tick and lot step |
| Binance.TotalFills | src/selective_dca_bot/exchanges/binance_exchange.py:279-292 | the fill loop accumulates the sums of price × quantity, quantity and commission |
| Binance.CostBetween | src/selective_dca_bot/exchanges/binance_exchange.py:290-291 | the total cost lies between the quantity times the lowest and times the highest fill price |
| Binance.AveragePriceBetween | src/selective_dca_bot/exchanges/binance_exchange.py:294 | with a positive total quantity the aggregate price is defined and lies between the lowest and highest fill price |
| Binance.Buy | src/selective_dca_bot/exchanges/binance_exchange.py:227-302 | `buy` as `Bought`: no params raise AttributeError, a client error passes on, a status other than FILLED raises, and a fill gives the summed quantity, the fees and the aggregate price |
| Binance.MarketSell | src/selective_dca_bot/exchanges/binance_exchange.py:311-368 | as `buy`, except that the quantity is the executed quantity reported, not the sum of the fills |
| Binance.LimitSell | src/selective_dca_bot/exchanges/binance_exchange.py:371-417 | no params raise AttributeError; an accepted order returns its id; a rejection returns None exactly when it is tolerated, and otherwise re-raises |
| Binance.LimitSellQuantizes | src/selective_dca_bot/exchanges/binance_exchange.py:373-375 | an accepted sell is placed at a tick multiple within half a tick of the bid, for a step multiple within half a step of the quantity, and returns those values |
| Binance.CancelOrder | src/selective_dca_bot/exchanges/binance_exchange.py:484-503 | `cancel_order` reports success exactly when the status is CANCELED; a client error raises |
| Binance.FindOrder | src/selective_dca_bot/exchanges/binance_exchange.py:632 | None exactly when no order has the id; otherwise an order of the list with that id; that it is the first is `Binance.FindOrderFirst` |
| Binance.FindOrderFirst | src/selective_dca_bot/exchanges/binance_exchange.py:632 | the order found sits at an index that has the id and before which no order has it: it is the first match, as `next(...)` takes it |
| Binance.Settle | src/selective_dca_bot/exchanges/binance_exchange.py:643-665 | NEW leaves the position unchanged; CANCELED nulls exactly the order id, sell price and quantity; FILLED needs params; any other status raises; the purchase facts never change |
| Binance.FilledRecordsSale | src/selective_dca_bot/exchanges/binance_exchange.py:647-652 | FILLED keeps the order id, sets the sell price on the tick grid within half a tick of the order's price, sets the sold quantity on the step grid within half a step of `executedQty`, sets the sell time to the order's update time in seconds, and sets the scalped quantity on the step grid within half a step of the quantity bought less the quantity sold |
| Binance.FilledSplitsBuy | src/selective_dca_bot/exchanges/binance_exchange.py:649-651 | with the buy quantity on the step grid, the scalped and sold quantities add up to the quantity bought |
| Binance.ReconcileViews | src/selective_dca_bot/exchanges/binance_exchange.py:628-630 | positions not reached, or without a sell order, are untouched; each other position is unchanged or as `Settle` leaves it |
| Binance.ReconcileFailureFinal | src/selective_dca_bot/exchanges/binance_exchange.py:664-665 | once a status raises, later positions change nothing |
| Binance.SoldAreFilled | src/selective_dca_bot/exchanges/binance_exchange.py:647-654 | a position is in the sold list exactly when it has a sell order whose status is FILLED |
| Binance.SoldInOrder | src/selective_dca_bot/exchanges/binance_exchange.py:654 | the sold list is in input order, without repeats |
| Binance.SettlePosition | src/selective_dca_bot/exchanges/binance_exchange.py:643-662 | the position object's fields are written as `Settle` gives, or kept when it raises |
| Binance.AnyOpen | src/selective_dca_bot/exchanges/binance_exchange.py:597 | the search for a position with a sell order succeeds exactly when one exists |
| Binance.SettleAll | src/selective_dca_bot/exchanges/binance_exchange.py:626-675 | the loop leaves the positions as `ReconcileUpTo` of the whole list and returns the positions it lists, or the exception that ended it |
| Binance.UpdateOrderStatuses | src/selective_dca_bot/exchanges/binance_exchange.py:589-675 | no positions return `[]`; no position with a sell order raises StopIteration and changes nothing; otherwise the result of the loop |
| Scalp.ScalpZeroTarget | src/migrations/0005_generate_limit_sells.py:33 | a zero target raises the Decimal division error |
| Scalp.ScalpUnchanged | src/migrations/0005_generate_limit_sells.py:33-35 | when the first quantity is below the quantity bought, the pair is that quantity (on the step grid) at the target |
| Scalp.ScalpDropsOneStep | src/migrations/0005_generate_limit_sells.py:35-39 | otherwise the quantity drops by exactly one step, and the price is `spent / quantity` on the tick grid, or the division raises when the quantity was one step |
| Scalp.ScalpKeepsSlice | src/migrations/0005_generate_limit_sells.py:35-39 | with a target at or above the purchase price and the buy quantity on the step grid, at least one step is kept back |
| Scalp.FirstAtMostBuy | src/migrations/0005_generate_limit_sells.py:33 | at a target at or above the purchase price the first quantity never exceeds the quantity bought |
| Scalp.ScalpShortOfSpent | src/migrations/0005_generate_limit_sells.py:32-35 | half-even rounding gives (95, 1.05) for a purchase of 100 at 1.00, whose proceeds 99.75 fall short of what was spent |
| Scalp.ScalpCoarseTick | src/migrations/0005_generate_limit_sells.py:32 | with a tick as coarse as the price the target can round below the purchase price |
| Scalp.FixUpOnlyOrderId | src/migrations/0005_generate_limit_sells.py:53-54 | the migration changes nothing but `sell_order_id`, and the positions from a failure on are untouched |
| Scalp.FixUpSetsOrder | src/migrations/0005_generate_limit_sells.py:45-53 | without an exception every position gets the id of the limit sell placed for its own scalp pair, with its own market's params |
| Scalp.FixUpStopsAtFailure | src/migrations/0005_generate_limit_sells.py:29-53 | the first failing position ends the pass with its exception and leaves it and all later ones untouched |
| Scalp.SetOrderAt | src/migrations/0005_generate_limit_sells.py:53-54 | setting one object's order id changes that position's id and no other value |
| Scalp.FixUpAt | src/migrations/0005_generate_limit_sells.py:28-54 | one turn refreshes the cached params when the market changes, so that they belong to the position's market, and steps the pass |
| Scalp.FixUpAll | src/migrations/0005_generate_limit_sells.py:27-54 | the loop leaves the positions as `ApplyFixUps` of the whole list, with the exception that ended it |
| Scalp.GenerateLimitSellsAsWritten | src/migrations/0005_generate_limit_sells.py:1-25 | every run raises and changes no position: IndexError without positions, NameError (undefined `api_key`) otherwise |
| Scalp.GenerateLimitSells | src/migrations/0005_generate_limit_sells.py:14-58 | the migration as intended, with a working client: no positions raise IndexError and change nothing; otherwise the positions end as `FixUpUpTo` of the whole list |
| Revision.FindMetric | src/main.py:238 | the first metric of the market on the exchange, None exactly when there is none |
| Revision.Snapshot | src/main.py:237-240 | the current price and average are on the tick grid, within half a tick of the metric's values |
| Revision.HoldFrom | src/main.py:258 | `int(n * 0.75)` is ⌊3n/4⌋ |
| Revision.Chase | src/main.py:288 | a null sell price raises TypeError; otherwise the relative distance `(max - min) / min`, with the division error when `min` is zero |
| Revision.ChaseTolerance | src/main.py:288-289 | between positive prices the distance is under the tolerance exactly when the gap is under 0.25% of the smaller price |
| Revision.ChaseExample | src/main.py:287-292 | moving a 1.0000 order to 1.0020 is not chased; moving it to 1.0030 is |
| Revision.Notional | src/main.py:309-311 | an order is placed exactly when `target × quantity` reaches the minimum notional |
| Revision.Cap | src/main.py:296-311 | no multiplier raises TypeError; a target above the limit becomes 99% of it for the whole buy quantity, without touching the last target; an unchanged price is not resubmitted |
| Revision.CapWithinLimit | src/main.py:296-303 | with a non-negative price and multiplier every placed target is at most the PERCENT_PRICE limit |
| Revision.Decide | src/main.py:257-311 | every placed order reaches the minimum notional; a holding position keeps the last target; any other sets it |
| Revision.HoldReusesTarget | src/main.py:257-265 | a position in the last quarter, once a target exists, reuses the last target and the previous quantity (or, over the cap, the whole buy quantity), and is kept when its order already sits there |
| Revision.AboveAverage | src/main.py:267-281 | outside the hold the last target is the scalp target at the minimum profitable price; above the average an order already there is kept |
| Revision.BelowAverage | src/main.py:283-292 | at or below the average the pair is recomputed at the midpoint, which becomes the last target; a null sell price raises TypeError; a move under the tolerance is not made |
| Revision.NoChurn | src/main.py:262-265 | a position whose live order sits on the tick grid is never resubmitted at its own price |
| Revision.WithinLimit | src/main.py:296-303 | with a non-negative price and multiplier no order is placed above the PERCENT_PRICE limit |
| Revision.PlaceIntended | src/main.py:316-347 | the replacement as intended: a live order is cancelled and its id nulled whatever the reported status; a cancel error raises; on a receipt the id, target and quantity are recorded; only the sell fields change |
| Revision.CancelStatusIgnored | src/main.py:317-324 | in the intended replacement the status the cancel reports makes no difference |
| Revision.Place | src/main.py:316-347 | the replacement as written: a cancel error raises; a status other than CANCELED raises NameError and changes nothing; after a CANCELED cancel the id is nulled, and on a receipt the id, target and quantity are recorded; only the sell fields change |
| Revision.FailedCancelRaises | src/main.py:319-320 | a live order whose cancel is not CANCELED keeps its id and the pass ends with NameError, where the intended replacement places the new order |
| Revision.RejectedLeavesNoOrder | src/main.py:323-347 | after a CANCELED cancel, or with no live order, a tolerated rejection leaves the position without an order id and raises nothing |
| Revision.PlaceSell | src/main.py:316-347 | the position object's fields are written as `Place` gives |
| Revision.Revise | src/main.py:257-347 | one position: only the sell fields change; a failed decision changes nothing; the carry is the decision's; a kept position is unchanged |
| Revision.ReplayStopsAtFailure | src/main.py:256-347 | an exception at a position ends the pass with it; that position keeps its outcome and those after it are untouched |
| Revision.ReviseOnlySellFields | src/main.py:316-347 | the pass changes only the sell order, price and quantity of each position |
| Revision.ReviseAt | src/main.py:257-347 | one turn of the loop steps the pass and its carry, or ends it with the exception |
| Revision.ReviseAll | src/main.py:256-347 | the loop leaves the positions as `Replay` of the outcomes, with the exception that ended it |
| Revision.ReviseMarket | src/main.py:237-347 | a missing metric raises StopIteration and missing params AttributeError, both changing nothing; otherwise the positions end as `ReviseUpTo` of the whole list |
| BuySide.StripBase | src/main.py:383 | `market[:-len(base)]` is a prefix of the market, empty for an empty base, shorter by the base's length |
| BuySide.StripBuilt | src/selective_dca_bot/exchanges/binance_exchange.py:36-38 | stripping a non-empty base from a built market name gives the crypto back |
| BuySide.Count | src/main.py:373 | the open positions in a market are at most all of them |
| BuySide.OverShare | src/main.py:374 | a crypto is over-positioned exactly when positions exist and its count reaches the limit's fraction of them |
| BuySide.OverBounds | src/main.py:374 | with positions, no limit above 1 can flag anything, and a crypto without positions is never flagged under a positive limit |
| BuySide.OverListMembers | src/main.py:368-375 | a crypto is listed exactly when it is watched and over-positioned |
| BuySide.FindOverPositioned | src/main.py:367-375 | the loop lists the over-positioned cryptos in watchlist order and counts the open positions of every watched crypto |
| BuySide.MaxRatio | src/main.py:380 | the highest price-to-MA ratio: no metric exceeds it and one attains it |
| BuySide.SelectCandidates | src/main.py:378-405 | no metrics raise ValueError; otherwise the candidates of the ratio-sorted metrics and the sum of their entries |
| BuySide.Collect | src/main.py:381-405 | the candidate loop collects `CandidatesOf` the sorted metrics and sums their entries |
| BuySide.CandidateSource | src/main.py:381-405 | each candidate comes from a watched, eligible metric, with its market, its ratio and the entries of that ratio |
| BuySide.CandidatesFromSelected | src/main.py:381-405 | every candidate comes from a selected metric |
| BuySide.SelectedAreCandidates | src/main.py:381-405 | every watched, eligible metric yields a candidate |
| BuySide.CandidateOfSelected | src/main.py:381-405 | where a selected metric's candidate is in the list |
| BuySide.EntriesAntitone | src/main.py:398 | entries are never negative for a ratio at most the maximum, and a higher ratio never gets more |
| BuySide.TopRatioNoEntries | src/main.py:380-398 | the market with the highest ratio gets no entries |
| BuySide.CandidatesSorted | src/main.py:381 | candidates are in ascending ratio order |
| BuySide.EntriesOrdered | src/main.py:380-405 | every candidate has non-negative entries, and entries never increase along the list |
| BuySide.CandidateAt | src/main.py:398-404 | a candidate's ratio is at most the maximum, and its entries are those of its ratio and are non-negative |
| BuySide.TotalZero | src/main.py:399 | with no negative entries the total is non-negative, and zero exactly when no candidate has entries |
| BuySide.Shares | src/main.py:420 | each weight times the total is the candidate's entries |
| BuySide.LotteryWeights | src/main.py:415-420 | the weight loop divides each entry by the total; a zero total raises the Decimal division error of the first entry |
| BuySide.WeightsSumToOne | src/main.py:420 | with a non-zero total the weights add up to one |
| BuySide.Bisect | src/main.py:422-424 | the index `bisect` finds stays within the weights |
| BuySide.Draw | src/main.py:422-424 | the draw picks an index of the population |
| BuySide.DrawPicksPositive | src/main.py:422-424 | with non-negative weights of positive total, the draw never picks a weight of zero |
| BuySide.DrawnHasEntries | src/main.py:415-424 | with a positive total and no negative entries, the drawn candidate has entries |
| BuySide.FirstWithMarket | src/main.py:425 | None exactly when no metric has the market; otherwise a metric of the market with none before it, as `next(...)` takes the first even when two exchanges list the same market |
| BuySide.LotteryPicks | src/main.py:415-425 | when every candidate's market has a metric the search never fails, and the pick is the first metric of a candidate with entries |
| BuySide.DrawTarget | src/main.py:413-425 | the weight loop, the draw and the metric search give `Lottery` |
| BuySide.CandidateMarkets | src/main.py:381-405 | each candidate has non-negative entries and the first metric of its market is watched and eligible |
| BuySide.TargetIsEligible | src/main.py:363-425 | the chosen metric is always found, its crypto is watched and not over-positioned, and its market is not the only recent one |
| BuySide.ChooseTarget | src/main.py:363-425 | the over-positioning loop, the candidate loop and the draw together give `Target` |
| BuySide.SizedBounds | src/main.py:440-445 | the sized quantity is a multiple of the step, within half a step below and one and a half steps above the request |
| BuySide.SizedOnGrid | src/selective_dca_bot/exchanges/binance_exchange.py:235-236 | the sized quantity is on the lot grid for every price, so `buy`'s own quantize leaves it unchanged |
| BuySide.OrderSizeBounds | src/main.py:437-445 | with a positive ask the order size is on the lot grid, within those bounds of `buy_amount / ask`, and reaches the minimum notional when the buy amount does |
| BuySide.OneStepShort | src/main.py:442-445 | one extra step is not always enough: 1 at price 1 in a market with minimum 10 is sized 2 |
| BuySide.InitialTargetBounds | src/main.py:467-471 | the first target is on the tick grid and at least the minimum profitable price; it is that minimum when the average is at or below it, and otherwise the midpoint rounded up, less than one tick above it |
| BuySide.RejectedInitialSellRaises | src/main.py:475-487 | as written, a tolerated rejection of the first limit sell raises TypeError |
| BuySide.InitialTargetOnGrid | src/main.py:467-471 | the first target is on the tick grid for every purchase price, average and threshold |
| BuySide.InitialPairOnGrid | src/main.py:473-475 | the price of the scalp pair for the first target, kept or re-priced one lot step down, is on the tick grid |
| BuySide.InitialSell | src/main.py:473-487 | the first limit sell as intended: only the sell order and price change; a failure or a rejection changes nothing; an accepted sell records the returned order id and, as price, the scalp pair's price (which `limit_sell` leaves unchanged, being on the tick grid), in both the kept-target and the one-step-down case |
| BuySide.RejectedInitialSellLeavesNoOrder | src/main.py:475-487 | as intended, a tolerated rejection leaves the new position without an order and raises nothing |
| BuySide.InitialSellAtTarget | src/main.py:467-487 | when the scalp pair keeps the first target, the order is recorded at it |
| BuySide.OpenPosition | src/main.py:452-487 | the new position object is created from the trade and holds what the corrected `InitialSell` gives |
| BuySide.BuyNext | src/main.py:350-487 | a zero buy amount does nothing; otherwise each failure of the target, the size, the params or the buy raises with no position; the quantity sent to the market buy is `OrderSize` and on the lot grid; a bought position holds its first limit sell as the corrected `InitialSell` places it (not the as-written one of the second finding) |

## Left out

- Printing, reports, `time.sleep`, the SNS e-mail and the command line are not modelled.
- The python-binance client is not modelled. Every exchange answer is an input: the symbol
  info, the fills, the cancel and limit-sell replies, the order list and the single-order
  lookup.
- The database queries are not modelled. Their results are inputs: the open positions of a
  market in query order, `get_last_positions`, `get_open_positions`, and the `MarketParams`,
  `Candle` and `AllTimeWatchlist` rows. `save()` is the field update itself.
- The random draw of `random.choices` is an input `u` in `[0, 1)`. Its weights are exact
  reals, not the floats the code converts them to.
- The over-positioning ratio is an exact ratio, not a float.
- Timestamps divided by 1000 are exact reals, not floats.
- The Decimal context's 28-digit precision is not modelled: the arithmetic is exact.
- `LongPosition.calculate_scalp_sell_price` is not part of this model. The revision pass
  and the first limit sell call it; they use `Scalp.ScalpSellPrice`, the inline computation
  of the fix-up migration.
- Dry-run mode is not modelled: the buy step is modelled as in live mode.
- Candle ingestion, stop losses, the Bittrex stub, the reports in `utils.py` and the other
  migrations are not part of this model.
- `BuySide.Shares`: a weight is stated through `weight × total == entries` rather than as a
  Decimal quotient rounded to the context.
- `Binance.InitializeMarket` updates an existing row with the corrected `Binance.Recheck`,
  which writes the parsed tick and step; the code as written keeps the old tick and step and
  succeeds without PRICE_FILTER or LOT_SIZE (`Binance.RecheckAsWritten`, first finding).
- `BuySide.BuyNext` and `BuySide.OpenPosition` place the first limit sell with the corrected
  `BuySide.InitialSell`, so a tolerated rejection leaves the position without an order; the
  code as written raises TypeError there (`BuySide.InitialSellAsWritten`, second finding).
- `Scalp.GenerateLimitSells` assumes the exchange client is built; the migration as written
  raises NameError before its loop (`Scalp.GenerateLimitSellsAsWritten`, third finding).
- `Binance.OrderFor`: an exception from the client's order lookups is not modelled. Neither
  `get_all_orders` raising nor `get_sell_order` re-raising is covered; the batch of orders
  and the single-order lookup are always answers.
- `Models.MarketParams.Valid` assumes a positive tick and step, and the rounding of
  `Decimals.Quantize` is only meaningful for them. The exchange's ticks and steps are powers
  of ten; the model requires only that they are positive.
- The `models.py` of this revision lacks some columns. These are the `LongPosition` fields
  `sell_quantity`, `sell_price`, `sell_timestamp`, `scalped_quantity`, `sell_order_id` and
  `exchange`, and the `MarketParams` fields `multiplier_up` and `avg_price_minutes`. The
  model takes them from the migrations that add them (src/migrations/0002 to 0004, 0006 and
  0008), with the nullability declared there.

## Findings

| source | as written | input that shows it | evidently intended | confidence | as-written member | corrected member |
|---|---|---|---|---|---|---|
| src/selective_dca_bot/exchanges/binance_exchange.py:106-112 | a recheck assigns the parsed tick and step to `params.tick_size` and `params.step_size`, which are not columns, so `price_tick_size` and `lot_step_size` keep their old values | LTCBTC row with tick 0.01, symbol info with tick 0.001: after the recheck the row still has tick 0.01 | write the parsed values to `price_tick_size` and `lot_step_size` | high, not executed | Binance.RecheckKeepsStaleTick | Binance.RecheckRefreshesGranularity |
| src/main.py:475-487 | the first limit sell indexes `results['order_id']` without checking `results`, so a tolerated rejection (None) raises TypeError after the buy | a PERCENT_PRICE rejection of the first limit sell | treat None as the revision pass does (src/main.py:341): leave the position without an order | high, not executed | BuySide.RejectedInitialSellRaises | BuySide.RejectedInitialSellLeavesNoOrder |
| src/migrations/0005_generate_limit_sells.py:25 | the client is built from `api_key` and `api_secret`, which the module neither defines nor imports (lines 1-6) | any run with at least one position without a sell order: NameError before the loop, so no limit sell is placed | build the client from the configured credentials, as the bot does | high, not executed | Scalp.GenerateLimitSellsAsWritten | Scalp.GenerateLimitSells |
| src/main.py:319-320 | a cancel reply that is not CANCELED is logged with `json.dumps`, but src/main.py never imports `json` | revising a position whose live order the exchange reports as EXPIRED: NameError, the old id stays and the pass ends | log the reply and go on to null the id and place the new order | high, not executed | Revision.FailedCancelRaises | Revision.CancelStatusIgnored |

The market setup, the first limit sell and the fix-up migration use the corrected halves
(see "## Left out"). The revision pass follows the code as written: `Revision.Revise`
replaces orders with `Revision.Place`, and `Revision.PlaceIntended` is the corrected
replacement.
