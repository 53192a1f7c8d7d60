/** The Binance exchange adapter: market naming, reading a symbol's filters into
    `MarketParams`, order placement results (market buy, market sell, limit sell) and the
    batch reconciliation of open limit sells with the exchange's order statuses.
    Every reply of the exchange is an input. */
module Binance {
  import opened Outcomes
  import opened Decimals
  import opened Text
  import opened Models

  /** `build_market_name`: Binance names a market by the crypto followed by the base
      currency (e.g. HYDROBTC). */
  function BuildMarketName(crypto: string, base: string): string {
    crypto + base
  }

  // ---------------------------------------------------------------------------------
  // Symbol filters and `initialize_market`

  /** One entry of a symbol's `filters` list, by `filterType`. */
  datatype Filter =
    | PriceFilter(tickSize: real)
    | LotSize(stepSize: real)
    | MinNotionalFilter(minNotional: real)
    | PercentPrice(multiplierUp: real, avgPriceMins: real)
    | OtherFilter(filterType: string)

  /** The five values read from the filters; None where no filter supplied one. */
  datatype Parsed = Parsed(
    tickSize: Option<real>,
    stepSize: Option<real>,
    minNotional: Option<real>,
    multiplierUp: Option<real>,
    avgPriceMinutes: Option<real>)

  function TickOf(f: Filter): Option<real> {
    if f.PriceFilter? then Some(f.tickSize) else None
  }

  function StepOf(f: Filter): Option<real> {
    if f.LotSize? then Some(f.stepSize) else None
  }

  function MinNotionalOf(f: Filter): Option<real> {
    if f.MinNotionalFilter? then Some(f.minNotional) else None
  }

  function MultiplierUpOf(f: Filter): Option<real> {
    if f.PercentPrice? then Some(f.multiplierUp) else None
  }

  function AvgPriceMinutesOf(f: Filter): Option<real> {
    if f.PercentPrice? then Some(f.avgPriceMins) else None
  }

  /** The value supplied by the last filter that supplies one: a later filter of the same
      type overwrites an earlier one. */
  function LastOf(fs: seq<Filter>, pick: Filter -> Option<real>): (r: Option<real>)
    ensures r.None? <==> forall k :: 0 <= k < |fs| ==> pick(fs[k]).None?
    ensures r.Some? ==> exists k :: 0 <= k < |fs| && pick(fs[k]) == r &&
                                   forall j :: k < j < |fs| ==> pick(fs[j]).None?
  {
    if |fs| == 0 then None
    else
      var n := |fs| - 1;
      if pick(fs[n]).Some? then
        pick(fs[n])
      else
        var r := LastOf(fs[..n], pick);
        assert forall k :: 0 <= k < n ==> fs[..n][k] == fs[k];
        if r.Some? then
          var k :| 0 <= k < n && pick(fs[..n][k]) == r && forall j :: k < j < n ==> pick(fs[..n][j]).None?;
          assert pick(fs[k]) == r;
          r
        else
          r
  }

  /** What the filter loop of `initialize_market` reads from a filter list. */
  function Parse(fs: seq<Filter>): Parsed {
    Parsed(LastOf(fs, TickOf), LastOf(fs, StepOf), LastOf(fs, MinNotionalOf),
           LastOf(fs, MultiplierUpOf), LastOf(fs, AvgPriceMinutesOf))
  }

  /** The filter loop of `initialize_market`: an if/elif chain on `filterType`, each
      match overwriting the values read so far; other filter types are ignored. */
  method ParseFilters(fs: seq<Filter>) returns (p: Parsed)
    ensures p == Parse(fs)
  {
    p := Parsed(None, None, None, None, None);
    var i := 0;
    while i < |fs|
      invariant 0 <= i <= |fs|
      invariant p == Parse(fs[..i])
    {
      assert fs[..i + 1][..i] == fs[..i];
      var f := fs[i];
      if f.PriceFilter? {
        p := p.(tickSize := Some(f.tickSize));
      } else if f.LotSize? {
        p := p.(stepSize := Some(f.stepSize));
      } else if f.MinNotionalFilter? {
        p := p.(minNotional := Some(f.minNotional));
      } else if f.PercentPrice? {
        p := p.(multiplierUp := Some(f.multiplierUp), avgPriceMinutes := Some(f.avgPriceMins));
      }
      i := i + 1;
    }
    assert fs[..i] == fs;
  }

  /** The recheck branch of `initialize_market` as written: it assigns the parsed tick and
      step to attributes named `tick_size` and `step_size`, which are not columns, so the
      saved row keeps its old `price_tick_size` and `lot_step_size`. Saving a missing
      MIN_NOTIONAL into its NOT NULL column fails. */
  function RecheckAsWritten(row: MarketParams, parsed: Parsed): (r: Result<MarketParams>)
    ensures r.Failure? <==> parsed.minNotional.None?
    ensures r.Success? ==> r.value.priceTickSize == row.priceTickSize && r.value.lotStepSize == row.lotStepSize
    ensures r.Success? ==> r.value.minNotional == parsed.minNotional.value &&
                           r.value.multiplierUp == parsed.multiplierUp &&
                           r.value.avgPriceMinutes == parsed.avgPriceMinutes
  {
    if parsed.minNotional.None? then Failure(IntegrityError)
    else Success(row.(minNotional := parsed.minNotional.value,
                      multiplierUp := parsed.multiplierUp,
                      avgPriceMinutes := parsed.avgPriceMinutes))
  }

  /** A recheck as written leaves a changed tick size stale: the exchange moved LTCBTC to a
      0.001 tick and the stored row still says 0.01. */
  lemma RecheckKeepsStaleTick()
    ensures var row := MarketParams(ExchangeBinance, "LTCBTC", 0.01, 0.01, 0.001, None, None);
            var parsed := Parsed(Some(0.001), Some(0.001), Some(0.001), Some(5.0), Some(5.0));
            var r := RecheckAsWritten(row, parsed);
            r.Success? && r.value.priceTickSize == 0.01 && parsed.tickSize == Some(0.001)
  {
  }

  /** The recheck as intended: every parsed value is written to its column; a missing
      tick, step or MIN_NOTIONAL cannot be saved. */
  function Recheck(row: MarketParams, parsed: Parsed): (r: Result<MarketParams>)
    ensures r.Failure? <==> parsed.tickSize.None? || parsed.stepSize.None? || parsed.minNotional.None?
    ensures r.Success? ==> r.value.exchange == row.exchange && r.value.market == row.market
    ensures r.Success? ==> Some(r.value.priceTickSize) == parsed.tickSize &&
                           Some(r.value.lotStepSize) == parsed.stepSize &&
                           Some(r.value.minNotional) == parsed.minNotional &&
                           r.value.multiplierUp == parsed.multiplierUp &&
                           r.value.avgPriceMinutes == parsed.avgPriceMinutes
  {
    if parsed.tickSize.None? || parsed.stepSize.None? || parsed.minNotional.None? then
      Failure(IntegrityError)
    else
      Success(row.(priceTickSize := parsed.tickSize.value,
                   lotStepSize := parsed.stepSize.value,
                   minNotional := parsed.minNotional.value,
                   multiplierUp := parsed.multiplierUp,
                   avgPriceMinutes := parsed.avgPriceMinutes))
  }

  /** `MarketParams.create(...)` from the parsed values. */
  function NewRow(market: string, parsed: Parsed): (r: Result<MarketParams>)
    ensures r.Failure? <==> parsed.tickSize.None? || parsed.stepSize.None? || parsed.minNotional.None?
    ensures r.Success? ==> Matches(r.value, market, ExchangeBinance)
    ensures r.Success? ==> Some(r.value.priceTickSize) == parsed.tickSize &&
                           Some(r.value.lotStepSize) == parsed.stepSize &&
                           Some(r.value.minNotional) == parsed.minNotional
  {
    if parsed.tickSize.None? || parsed.stepSize.None? || parsed.minNotional.None? then
      Failure(IntegrityError)
    else
      Success(MarketParams(ExchangeBinance, market, parsed.tickSize.value, parsed.stepSize.value,
                           parsed.minNotional.value, parsed.multiplierUp, parsed.avgPriceMinutes))
  }

  /** Index of the first row for a market on an exchange, `|rows|` when there is none. */
  function MarketIndex(rows: seq<MarketParams>, market: string, exchange: string): (k: nat)
    ensures k <= |rows| && NoMatchBefore(rows, k, market, exchange)
    ensures k < |rows| ==> Matches(rows[k], market, exchange)
  {
    if |rows| == 0 then 0
    else if Matches(rows[0], market, exchange) then 0
    else
      var k := MarketIndex(rows[1..], market, exchange);
      assert forall j :: 1 <= j <= k ==> rows[j] == rows[1..][j - 1];
      1 + k
  }

  /** `get_market` returns the row at that index. */
  lemma {:induction false} GetMarketAt(rows: seq<MarketParams>, market: string, exchange: string)
    ensures var k := MarketIndex(rows, market, exchange);
            GetMarket(rows, market, exchange) == if k < |rows| then Some(rows[k]) else None
  {
    if |rows| > 0 && !Matches(rows[0], market, exchange) {
      GetMarketAt(rows[1..], market, exchange);
    }
  }

  /** A matching row with no match before it is the one found. */
  lemma {:induction false} MarketIndexAt(rows: seq<MarketParams>, market: string, exchange: string, k: nat)
    requires k < |rows| && Matches(rows[k], market, exchange) && NoMatchBefore(rows, k, market, exchange)
    ensures MarketIndex(rows, market, exchange) == k
  {
    if k > 0 {
      assert !Matches(rows[0], market, exchange);
      assert NoMatchBefore(rows[1..], k - 1, market, exchange) by {
        forall j | 0 <= j < k - 1 ensures !Matches(rows[1..][j], market, exchange) {
          assert rows[1..][j] == rows[j + 1];
        }
      }
      MarketIndexAt(rows[1..], market, exchange, k - 1);
    }
  }

  /** The `MarketParams` table. */
  class MarketParamsTable {
    var rows: seq<MarketParams>

    constructor (rows: seq<MarketParams>)
      ensures this.rows == rows
    {
      this.rows := rows;
    }
  }

  /** `initialize_market(crypto, base_currency, recheck)`: when the market has no row, or a
      recheck is asked for, read the symbol's filters (no symbol info raises) and create
      the row or update the existing one (with the recheck corrected as in `Recheck`).
      After a success the market has a row. */
  method InitializeMarket(table: MarketParamsTable, crypto: string, base: string, recheck: bool,
                          info: Option<seq<Filter>>) returns (r: Result<()>)
    modifies table
    ensures var market := BuildMarketName(crypto, base);
            var k := MarketIndex(old(table.rows), market, ExchangeBinance);
            if k < |old(table.rows)| && !recheck then
              r == Success(()) && table.rows == old(table.rows)
            else if info.None? then
              r.Failure? && table.rows == old(table.rows)
            else if k < |old(table.rows)| then
              match Recheck(old(table.rows)[k], Parse(info.value))
              case Failure(e) => r == Failure(e) && table.rows == old(table.rows)
              case Success(row) => r == Success(()) && table.rows == old(table.rows)[k := row]
            else
              match NewRow(market, Parse(info.value))
              case Failure(e) => r == Failure(e) && table.rows == old(table.rows)
              case Success(row) => r == Success(()) && table.rows == old(table.rows) + [row]
    ensures r.Success? ==> GetMarket(table.rows, BuildMarketName(crypto, base), ExchangeBinance).Some?
  {
    var market := BuildMarketName(crypto, base);
    var k := MarketIndex(table.rows, market, ExchangeBinance);
    GetMarketAt(table.rows, market, ExchangeBinance);
    if k < |table.rows| && !recheck {
      return Success(());
    }
    if info.None? {
      return Failure(ApiError("Couldn't retrieve current ticker"));
    }
    var parsed := ParseFilters(info.value);
    if k < |table.rows| {
      var updated := Recheck(table.rows[k], parsed);
      if updated.Failure? {
        return Failure(updated.error);
      }
      table.rows := table.rows[k := updated.value];
      assert NoMatchBefore(table.rows, k, market, ExchangeBinance);
    } else {
      var created := NewRow(market, parsed);
      if created.Failure? {
        return Failure(created.error);
      }
      table.rows := table.rows + [created.value];
      assert NoMatchBefore(table.rows, k, market, ExchangeBinance);
    }
    MarketIndexAt(table.rows, market, ExchangeBinance, k);
    GetMarketAt(table.rows, market, ExchangeBinance);
    r := Success(());
  }

  /** After a successful recheck the table's row for the market carries the tick and step
      the exchange reported. */
  lemma RecheckRefreshesGranularity(rows: seq<MarketParams>, market: string, fs: seq<Filter>)
    requires MarketIndex(rows, market, ExchangeBinance) < |rows|
    requires Recheck(rows[MarketIndex(rows, market, ExchangeBinance)], Parse(fs)).Success?
    ensures var k := MarketIndex(rows, market, ExchangeBinance);
            var rows' := rows[k := Recheck(rows[k], Parse(fs)).value];
            GetMarket(rows', market, ExchangeBinance).Some? &&
            Some(GetMarket(rows', market, ExchangeBinance).value.priceTickSize) == LastOf(fs, TickOf) &&
            Some(GetMarket(rows', market, ExchangeBinance).value.lotStepSize) == LastOf(fs, StepOf)
  {
    var k := MarketIndex(rows, market, ExchangeBinance);
    var rows' := rows[k := Recheck(rows[k], Parse(fs)).value];
    assert NoMatchBefore(rows', k, market, ExchangeBinance);
    MarketIndexAt(rows', market, ExchangeBinance, k);
    GetMarketAt(rows', market, ExchangeBinance);
  }

  // ---------------------------------------------------------------------------------
  // Fills of a market order (`buy`, `market_sell`)

  /** One entry of an order response's `fills`. */
  datatype Fill = Fill(price: real, qty: real, commission: real)

  function SumCost(fs: seq<Fill>): real {
    if |fs| == 0 then 0.0 else SumCost(fs[..|fs| - 1]) + fs[|fs| - 1].price * fs[|fs| - 1].qty
  }

  function SumQty(fs: seq<Fill>): real {
    if |fs| == 0 then 0.0 else SumQty(fs[..|fs| - 1]) + fs[|fs| - 1].qty
  }

  function SumCommission(fs: seq<Fill>): real {
    if |fs| == 0 then 0.0 else SumCommission(fs[..|fs| - 1]) + fs[|fs| - 1].commission
  }

  /** The accumulation loop over `fills`: price times quantity, quantity and commission. */
  method TotalFills(fs: seq<Fill>) returns (cost: real, qty: real, commission: real)
    ensures cost == SumCost(fs) && qty == SumQty(fs) && commission == SumCommission(fs)
  {
    cost, qty, commission := 0.0, 0.0, 0.0;
    var i := 0;
    while i < |fs|
      invariant 0 <= i <= |fs|
      invariant cost == SumCost(fs[..i]) && qty == SumQty(fs[..i]) && commission == SumCommission(fs[..i])
    {
      assert fs[..i + 1][..i] == fs[..i];
      cost := cost + fs[i].price * fs[i].qty;
      qty := qty + fs[i].qty;
      commission := commission + fs[i].commission;
      i := i + 1;
    }
    assert fs[..i] == fs;
  }

  ghost predicate PricesWithin(fs: seq<Fill>, lo: real, hi: real) {
    forall k :: 0 <= k < |fs| ==> lo <= fs[k].price <= hi && fs[k].qty >= 0.0
  }

  /** The total cost lies between the quantity at the lowest and at the highest price. */
  lemma {:induction false} CostBetween(fs: seq<Fill>, lo: real, hi: real)
    requires PricesWithin(fs, lo, hi)
    ensures lo * SumQty(fs) <= SumCost(fs) <= hi * SumQty(fs)
  {
    if |fs| > 0 {
      var n := |fs| - 1;
      var init, f := fs[..n], fs[n];
      assert PricesWithin(init, lo, hi) by {
        forall k | 0 <= k < n ensures lo <= init[k].price <= hi && init[k].qty >= 0.0 {
          assert init[k] == fs[k];
        }
      }
      CostBetween(init, lo, hi);
      CostStep(lo, hi, SumQty(init), SumCost(init), f.price, f.qty);
    }
  }

  /** Adding one fill keeps the total cost between the bounds. */
  lemma CostStep(lo: real, hi: real, q: real, c: real, price: real, qty: real)
    requires lo * q <= c <= hi * q && lo <= price <= hi && qty >= 0.0
    ensures lo * (q + qty) <= c + price * qty <= hi * (q + qty)
  {
    MulMonotone(lo, price, qty);
    MulMonotone(price, hi, qty);
    Distribute(lo, q, qty);
    Distribute(hi, q, qty);
  }

  /** The aggregate price `total_spent / total_qty` lies between the lowest and the
      highest fill price once something was filled. */
  lemma AveragePriceBetween(fs: seq<Fill>, lo: real, hi: real)
    requires PricesWithin(fs, lo, hi) && SumQty(fs) > 0.0
    ensures Divide(SumCost(fs), SumQty(fs)).Success?
    ensures lo <= Divide(SumCost(fs), SumQty(fs)).value <= hi
  {
    CostBetween(fs, lo, hi);
    QuotientBetween(SumCost(fs), SumQty(fs), lo, hi);
  }

  /** The exchange's answer to a market order: a client exception, or the full response. */
  datatype MarketOrderReply =
    | MarketOrderError(message: string)
    | MarketOrderResponse(orderId: int, transactTime: int, status: string, executedQty: real, fills: seq<Fill>)

  /** What `buy` and `market_sell` return. */
  datatype Trade = Trade(orderId: int, price: real, quantity: real, fees: real, timestamp: real)

  /** `buy(market, quantity)` once the order is sent: the market must have params, a client
      exception is raised again, an unfilled order raises, and a filled one is summarised
      by its fills: quantity and fees summed, price the quantity-weighted average
      (Decimal `0 / 0` raises when there are no fills). */
  function Bought(params: Option<MarketParams>, reply: MarketOrderReply): Result<Trade> {
    if params.None? then Failure(AttributeError)
    else if reply.MarketOrderError? then Failure(ApiError(reply.message))
    else if reply.status != "FILLED" then Failure(OrderNotFilled)
    else
      match Divide(SumCost(reply.fills), SumQty(reply.fills))
      case Failure(e) => Failure(e)
      case Success(price) =>
        Success(Trade(reply.orderId, price, SumQty(reply.fills), SumCommission(reply.fills),
                      reply.transactTime as real / 1000.0))
  }

  /** `buy` with its loop over the fills. */
  method Buy(params: Option<MarketParams>, reply: MarketOrderReply) returns (r: Result<Trade>)
    ensures r == Bought(params, reply)
  {
    if params.None? {
      return Failure(AttributeError);
    }
    if reply.MarketOrderError? {
      return Failure(ApiError(reply.message));
    }
    var timestamp := reply.transactTime as real / 1000.0;
    if reply.status != "FILLED" {
      return Failure(OrderNotFilled);
    }
    var spent, qty, commission := TotalFills(reply.fills);
    var price := Divide(spent, qty);
    if price.Failure? {
      return Failure(price.error);
    }
    r := Success(Trade(reply.orderId, price.value, qty, commission, timestamp));
  }

  /** `market_sell(market, quantity)` once the order is sent: as `buy`, except that the
      quantity is the response's `executedQty` and the price divides the fills' total by
      it, not by the filled quantities' sum. */
  method MarketSell(params: Option<MarketParams>, reply: MarketOrderReply) returns (r: Result<Trade>)
    ensures params.None? ==> r == Failure(AttributeError)
    ensures params.Some? && reply.MarketOrderError? ==> r == Failure(ApiError(reply.message))
    ensures params.Some? && reply.MarketOrderResponse? && reply.status != "FILLED" ==> r == Failure(OrderNotFilled)
    ensures params.Some? && reply.MarketOrderResponse? && reply.status == "FILLED" ==>
      var d := Divide(SumCost(reply.fills), reply.executedQty);
      if d.Failure? then r == Failure(d.error)
      else r == Success(Trade(reply.orderId, d.value, reply.executedQty, SumCommission(reply.fills),
                              reply.transactTime as real / 1000.0))
  {
    if params.None? {
      return Failure(AttributeError);
    }
    if reply.MarketOrderError? {
      return Failure(ApiError(reply.message));
    }
    var timestamp := reply.transactTime as real / 1000.0;
    if reply.status != "FILLED" {
      return Failure(OrderNotFilled);
    }
    var made, _, commission := TotalFills(reply.fills);
    var price := Divide(made, reply.executedQty);
    if price.Failure? {
      return Failure(price.error);
    }
    r := Success(Trade(reply.orderId, price.value, reply.executedQty, commission, timestamp));
  }

  // ---------------------------------------------------------------------------------
  // `limit_sell`

  /** The exchange's answer to a limit sell: accepted with an order id, or a client
      exception with its message. */
  datatype SellReply = SellAccepted(orderId: int) | SellRejected(message: string)

  /** What `limit_sell` returns for an accepted order. */
  datatype Receipt = Receipt(orderId: int, price: real, quantity: real)

  /** The rejections `limit_sell` reports by returning None instead of raising. */
  predicate Tolerated(message: string) {
    Contains(message, "PERCENT_PRICE") || Contains(message, "MIN_NOTIONAL") ||
    Contains(message, "Account has insufficient balance for requested action.")
  }

  /** `limit_sell(market, quantity, bid_price)`: quantity and price are quantized to the
      market's lot step and tick; an accepted order returns its id with the quantized
      price and quantity, a PERCENT_PRICE, MIN_NOTIONAL or insufficient-balance rejection
      returns None, and any other rejection is raised again. */
  function LimitSell(params: Option<MarketParams>, quantity: real, bidPrice: real, reply: SellReply)
    : (r: Result<Option<Receipt>>)
    requires params.Some? ==> params.value.Valid()
    ensures params.None? ==> r == Failure(AttributeError)
    ensures params.Some? && reply.SellAccepted? ==> r.Success? && r.value.Some? && r.value.value.orderId == reply.orderId
    ensures params.Some? && reply.SellRejected? ==> (r == Success(None) <==> Tolerated(reply.message))
    ensures params.Some? && reply.SellRejected? && !Tolerated(reply.message) ==> r == Failure(ApiError(reply.message))
  {
    match params
    case None => Failure(AttributeError)
    case Some(mp) =>
      var qty := Quantize(quantity, mp.lotStepSize, HalfEven);
      var price := Quantize(bidPrice, mp.priceTickSize, HalfEven);
      match reply
      case SellAccepted(id) => Success(Some(Receipt(id, price, qty)))
      case SellRejected(message) =>
        if Tolerated(message) then Success(None) else Failure(ApiError(message))
  }

  /** An accepted limit sell is placed at a tick-multiple within half a tick of the bid and
      for a step-multiple within half a step of the quantity; values already on the grid
      pass unchanged. */
  lemma LimitSellQuantizes(mp: MarketParams, quantity: real, bidPrice: real, id: int)
    requires mp.Valid()
    ensures var r := LimitSell(Some(mp), quantity, bidPrice, SellAccepted(id)).value.value;
            OnGrid(r.price, mp.priceTickSize) && OnGrid(r.quantity, mp.lotStepSize) &&
            bidPrice - mp.priceTickSize / 2.0 <= r.price <= bidPrice + mp.priceTickSize / 2.0 &&
            quantity - mp.lotStepSize / 2.0 <= r.quantity <= quantity + mp.lotStepSize / 2.0 &&
            (OnGrid(bidPrice, mp.priceTickSize) ==> r.price == bidPrice) &&
            (OnGrid(quantity, mp.lotStepSize) ==> r.quantity == quantity)
  {
    QuantizeOnGrid(bidPrice, mp.priceTickSize, HalfEven);
    QuantizeOnGrid(quantity, mp.lotStepSize, HalfEven);
    QuantizeBounds(bidPrice, mp.priceTickSize, HalfEven);
    QuantizeBounds(quantity, mp.lotStepSize, HalfEven);
    if OnGrid(bidPrice, mp.priceTickSize) { QuantizeExact(bidPrice, mp.priceTickSize, HalfEven); }
    if OnGrid(quantity, mp.lotStepSize) { QuantizeExact(quantity, mp.lotStepSize, HalfEven); }
  }

  /** `cancel_order`: success is reported when the exchange says the order is CANCELED;
      a client exception propagates. */
  datatype CancelReply = CancelResponse(status: string) | CancelError(message: string)

  function CancelOrder(reply: CancelReply): (r: Result<bool>)
    ensures r.Success? <==> reply.CancelResponse?
    ensures r.Success? ==> (r.value <==> reply.status == "CANCELED")
  {
    match reply
    case CancelResponse(status) => Success(status == "CANCELED")
    case CancelError(message) => Failure(ApiError(message))
  }

  // ---------------------------------------------------------------------------------
  // `update_order_statuses`

  /** One entry of `get_all_orders` (or of the single-order lookup). */
  datatype Order = Order(orderId: int, status: string, price: real, executedQty: real, updateTime: int)

  /** No order before index `k` has the id `id`, and the one at `k` has. */
  predicate FirstWithId(orders: seq<Order>, id: int, k: nat)
    requires k < |orders|
  {
    orders[k].orderId == id && forall j :: 0 <= j < k ==> orders[j].orderId != id
  }

  /** `next((r for r in orders if r['orderId'] == id), None)`. */
  function FindOrder(orders: seq<Order>, id: int): (r: Option<Order>)
    ensures r.None? <==> forall k :: 0 <= k < |orders| ==> orders[k].orderId != id
    ensures r.Some? ==> r.value.orderId == id && r.value in orders
  {
    if |orders| == 0 then None
    else if orders[0].orderId == id then Some(orders[0])
    else
      var r := FindOrder(orders[1..], id);
      assert forall k :: 1 <= k < |orders| ==> orders[k] == orders[1..][k - 1];
      r
  }

  /** The order found is the first one with the id. */
  lemma {:induction false} FindOrderFirst(orders: seq<Order>, id: int)
    ensures FindOrder(orders, id).Some? ==>
            exists k :: 0 <= k < |orders| && orders[k] == FindOrder(orders, id).value && FirstWithId(orders, id, k)
  {
    if |orders| > 0 && orders[0].orderId != id {
      FindOrderFirst(orders[1..], id);
      if FindOrder(orders[1..], id).Some? {
        var k :| 0 <= k < |orders[1..]| && orders[1..][k] == FindOrder(orders[1..], id).value &&
                 FirstWithId(orders[1..], id, k);
        assert FirstWithId(orders, id, k + 1);
      }
    } else if |orders| > 0 {
      assert FirstWithId(orders, id, 0);
    }
  }

  /** The order a position is reconciled with: found in the batch, or else fetched alone
      (`fallback`, an input). */
  function OrderFor(v: Position, orders: seq<Order>, fallback: Order): Order
    requires v.sellOrderId.Some?
  {
    match FindOrder(orders, v.sellOrderId.value)
    case Some(o) => o
    case None => fallback
  }

  /** The per-position state machine of `update_order_statuses`, driven by the status of
      the position's limit sell. */
  function Settle(v: Position, o: Order, params: Option<MarketParams>): (r: Result<Position>)
    requires params.Some? ==> params.value.Valid()
    ensures r.Success? <==> o.status == "NEW" || o.status == "CANCELED" || (o.status == "FILLED" && params.Some?)
    ensures r.Failure? ==> r.error == if o.status == "FILLED" then AttributeError else UnimplementedStatus(o.status)
    ensures r.Success? ==> SamePurchase(r.value, v)
    ensures o.status == "NEW" ==> r == Success(v)
    ensures o.status == "CANCELED" ==> r == Success(v.(sellOrderId := None, sellPrice := None, sellQuantity := None))
  {
    if o.status == "NEW" then Success(v)
    else if o.status == "FILLED" then
      if params.None? then Failure(AttributeError)
      else
        var tick, step := params.value.priceTickSize, params.value.lotStepSize;
        var sold := Quantize(o.executedQty, step, HalfEven);
        Success(v.(sellPrice := Some(Quantize(o.price, tick, HalfEven)),
                   sellQuantity := Some(sold),
                   sellTimestamp := Some(o.updateTime as real / 1000.0),
                   scalpedQuantity := Some(Quantize(v.buyQuantity - sold, step, HalfEven))))
    else if o.status == "CANCELED" then
      Success(v.(sellOrderId := None, sellPrice := None, sellQuantity := None))
    else
      Failure(UnimplementedStatus(o.status))
  }

  /** A FILLED order records the sale on the position: the order id stays, the sell price
      is the order's price to within half a tick and on the tick grid, the sold quantity is
      the executed quantity to within half a lot step and on the lot-step grid, the sale
      time is the order's update time in seconds, and the scalped quantity is what was
      bought less what was sold, to within half a lot step and on the lot-step grid. */
  lemma FilledRecordsSale(v: Position, o: Order, mp: MarketParams)
    requires mp.Valid() && o.status == "FILLED"
    ensures var w := Settle(v, o, Some(mp)).value;
            w.sellOrderId == v.sellOrderId &&
            w.sellPrice.Some? && OnGrid(w.sellPrice.value, mp.priceTickSize) &&
            o.price - mp.priceTickSize / 2.0 <= w.sellPrice.value <= o.price + mp.priceTickSize / 2.0 &&
            w.sellQuantity.Some? && OnGrid(w.sellQuantity.value, mp.lotStepSize) &&
            o.executedQty - mp.lotStepSize / 2.0 <= w.sellQuantity.value <= o.executedQty + mp.lotStepSize / 2.0 &&
            w.sellTimestamp == Some(o.updateTime as real / 1000.0) &&
            w.scalpedQuantity.Some? && OnGrid(w.scalpedQuantity.value, mp.lotStepSize) &&
            v.buyQuantity - w.sellQuantity.value - mp.lotStepSize / 2.0 <= w.scalpedQuantity.value &&
            w.scalpedQuantity.value <= v.buyQuantity - w.sellQuantity.value + mp.lotStepSize / 2.0
  {
    var step := mp.lotStepSize;
    var sold := Quantize(o.executedQty, step, HalfEven);
    QuantizeOnGrid(o.price, mp.priceTickSize, HalfEven);
    QuantizeBounds(o.price, mp.priceTickSize, HalfEven);
    QuantizeOnGrid(o.executedQty, step, HalfEven);
    QuantizeBounds(o.executedQty, step, HalfEven);
    QuantizeOnGrid(v.buyQuantity - sold, step, HalfEven);
    QuantizeBounds(v.buyQuantity - sold, step, HalfEven);
  }

  /** A filled position's scalped and sold quantities add up to what was bought, when the
      bought quantity is a lot-step multiple. */
  lemma FilledSplitsBuy(v: Position, o: Order, mp: MarketParams)
    requires mp.Valid() && o.status == "FILLED" && OnGrid(v.buyQuantity, mp.lotStepSize)
    ensures var w := Settle(v, o, Some(mp)).value;
            w.sellQuantity.Some? && w.scalpedQuantity.Some? &&
            w.scalpedQuantity.value + w.sellQuantity.value == v.buyQuantity
  {
    var step := mp.lotStepSize;
    var sold := Quantize(o.executedQty, step, HalfEven);
    QuantizeOnGrid(o.executedQty, step, HalfEven);
    GridSubtract(v.buyQuantity, sold, step);
    QuantizeExact(v.buyQuantity - sold, step, HalfEven);
  }

  /** The outcome of reconciling a prefix of the positions: their values, the indices of
      those sold in order, and the exception that ended the pass, if any. */
  datatype Reconciliation = Reconciliation(views: seq<Position>, sold: seq<nat>, failure: Option<Error>)

  /** The loop of `update_order_statuses` over the first `n` positions. Positions without
      a sell order are skipped; the first exception ends the pass. */
  function ReconcileUpTo(vs: seq<Position>, params: Option<MarketParams>, orders: seq<Order>,
                         fallback: seq<Order>, n: nat): (r: Reconciliation)
    requires n <= |vs| && |fallback| == |vs|
    requires params.Some? ==> params.value.Valid()
    ensures |r.views| == |vs|
    ensures forall k :: 0 <= k < |r.sold| ==> r.sold[k] < n
  {
    if n == 0 then Reconciliation(vs, [], None)
    else
      var prev := ReconcileUpTo(vs, params, orders, fallback, n - 1);
      var v := vs[n - 1];
      if prev.failure.Some? || v.sellOrderId.None? then prev
      else
        var o := OrderFor(v, orders, fallback[n - 1]);
        match Settle(v, o, params)
        case Failure(e) => prev.(failure := Some(e))
        case Success(w) =>
          Reconciliation(prev.views[n - 1 := w], if o.status == "FILLED" then prev.sold + [n - 1] else prev.sold, None)
  }

  /** One step of the pass, for a prefix that ended without exception. */
  lemma ReconcileStep(vs: seq<Position>, params: Option<MarketParams>, orders: seq<Order>,
                      fallback: seq<Order>, n: nat)
    requires n < |vs| && |fallback| == |vs|
    requires params.Some? ==> params.value.Valid()
    requires ReconcileUpTo(vs, params, orders, fallback, n).failure.None?
    ensures var prev, next := ReconcileUpTo(vs, params, orders, fallback, n), ReconcileUpTo(vs, params, orders, fallback, n + 1);
            vs[n].sellOrderId.None? ==> next == prev
    ensures var prev, next := ReconcileUpTo(vs, params, orders, fallback, n), ReconcileUpTo(vs, params, orders, fallback, n + 1);
            vs[n].sellOrderId.Some? ==>
              var o := OrderFor(vs[n], orders, fallback[n]);
              var s := Settle(vs[n], o, params);
              (s.Failure? ==> next == prev.(failure := Some(s.error))) &&
              (s.Success? ==> next == Reconciliation(prev.views[n := s.value],
                                                     if o.status == "FILLED" then prev.sold + [n] else prev.sold, None))
  {
  }

  /** Positions not yet reached are untouched; each reached position is either untouched
      or holds the outcome of `Settle` on its own order. A position without a sell order is
      never touched. */
  lemma {:induction false} ReconcileViews(vs: seq<Position>, params: Option<MarketParams>, orders: seq<Order>,
                                          fallback: seq<Order>, n: nat, k: nat)
    requires n <= |vs| && |fallback| == |vs| && k < |vs|
    requires params.Some? ==> params.value.Valid()
    ensures var w := ReconcileUpTo(vs, params, orders, fallback, n).views[k];
            w == vs[k] ||
            (k < n && vs[k].sellOrderId.Some? &&
             Settle(vs[k], OrderFor(vs[k], orders, fallback[k]), params) == Success(w))
    ensures k >= n || vs[k].sellOrderId.None? ==> ReconcileUpTo(vs, params, orders, fallback, n).views[k] == vs[k]
  {
    if n > 0 {
      ReconcileViews(vs, params, orders, fallback, n - 1, k);
      if k < n - 1 {
        ReconcileViews(vs, params, orders, fallback, n - 1, n - 1);
      }
    }
  }

  /** Once a pass has failed, later positions change nothing. */
  lemma {:induction false} ReconcileFailureFinal(vs: seq<Position>, params: Option<MarketParams>, orders: seq<Order>,
                                                 fallback: seq<Order>, n: nat, m: nat)
    requires n <= m <= |vs| && |fallback| == |vs|
    requires params.Some? ==> params.value.Valid()
    requires ReconcileUpTo(vs, params, orders, fallback, n).failure.Some?
    ensures ReconcileUpTo(vs, params, orders, fallback, m) == ReconcileUpTo(vs, params, orders, fallback, n)
    decreases m - n
  {
    if m > n {
      ReconcileFailureFinal(vs, params, orders, fallback, n, m - 1);
    }
  }

  /** The sold list of a pass without exception holds exactly the positions whose order
      was FILLED. */
  lemma {:induction false} SoldAreFilled(vs: seq<Position>, params: Option<MarketParams>, orders: seq<Order>,
                                         fallback: seq<Order>, n: nat, k: nat)
    requires n <= |vs| && |fallback| == |vs| && k < n
    requires params.Some? ==> params.value.Valid()
    requires ReconcileUpTo(vs, params, orders, fallback, n).failure.None?
    ensures k in ReconcileUpTo(vs, params, orders, fallback, n).sold <==>
            vs[k].sellOrderId.Some? && OrderFor(vs[k], orders, fallback[k]).status == "FILLED"
  {
    var prev := ReconcileUpTo(vs, params, orders, fallback, n - 1);
    assert prev.failure.None?;
    ReconcileStep(vs, params, orders, fallback, n - 1);
    if k < n - 1 {
      SoldAreFilled(vs, params, orders, fallback, n - 1, k);
    } else {
      assert n - 1 !in prev.sold;
    }
  }

  /** ... and lists them in input order. */
  lemma {:induction false} SoldInOrder(vs: seq<Position>, params: Option<MarketParams>, orders: seq<Order>,
                                       fallback: seq<Order>, n: nat)
    requires n <= |vs| && |fallback| == |vs|
    requires params.Some? ==> params.value.Valid()
    requires ReconcileUpTo(vs, params, orders, fallback, n).failure.None?
    ensures var sold := ReconcileUpTo(vs, params, orders, fallback, n).sold;
            forall i, j :: 0 <= i < j < |sold| ==> sold[i] < sold[j]
  {
    if n > 0 {
      var prev := ReconcileUpTo(vs, params, orders, fallback, n - 1);
      assert prev.failure.None?;
      ReconcileStep(vs, params, orders, fallback, n - 1);
      SoldInOrder(vs, params, orders, fallback, n - 1);
    }
  }

  /** The objects at the given indices, in that order. */
  function Pick(ps: seq<LongPosition>, idx: seq<nat>): (r: seq<LongPosition>)
    requires forall k :: 0 <= k < |idx| ==> idx[k] < |ps|
    ensures |r| == |idx| && forall k :: 0 <= k < |idx| ==> r[k] == ps[idx[k]]
  {
    if |idx| == 0 then [] else Pick(ps, idx[..|idx| - 1]) + [ps[idx[|idx| - 1]]]
  }

  lemma PickAppend(ps: seq<LongPosition>, idx: seq<nat>, i: nat)
    requires forall k :: 0 <= k < |idx| ==> idx[k] < |ps|
    requires i < |ps|
    ensures Pick(ps, idx + [i]) == Pick(ps, idx) + [ps[i]]
  {
    assert (idx + [i])[..|idx|] == idx;
  }

  /** Some position has a sell order id (the generator of `next(...)` is not empty). */
  predicate SomeOpen(vs: seq<Position>) {
    exists k :: 0 <= k < |vs| && vs[k].sellOrderId.Some?
  }

  /** One position of the pass: its sell fields take the values `Settle` gives and are
      saved; on an exception nothing is written. */
  method SettlePosition(p: LongPosition, o: Order, params: Option<MarketParams>) returns (r: Result<Position>)
    requires params.Some? ==> params.value.Valid()
    modifies p
    ensures r == Settle(old(p.View()), o, params)
    ensures p.View() == if r.Success? then r.value else old(p.View())
  {
    r := Settle(p.View(), o, params);
    if r.Success? {
      var w := r.value;
      p.sellOrderId, p.sellPrice, p.sellQuantity, p.sellTimestamp, p.scalpedQuantity :=
        w.sellOrderId, w.sellPrice, w.sellQuantity, w.sellTimestamp, w.scalpedQuantity;
    }
  }

  /** Whether `next(p for p in positions if p.sell_order_id is not None)` finds a position. */
  method AnyOpen(ps: seq<LongPosition>) returns (found: bool)
    ensures found <==> SomeOpen(Views(ps))
  {
    var k := 0;
    while k < |ps| && ps[k].sellOrderId.None?
      invariant 0 <= k <= |ps|
      invariant forall j :: 0 <= j < k ==> ps[j].sellOrderId.None?
    {
      k := k + 1;
    }
    found := k < |ps|;
    ghost var vs := Views(ps);
    assert forall j :: 0 <= j < |ps| ==> vs[j].sellOrderId == ps[j].sellOrderId;
    if found {
      assert vs[k].sellOrderId.Some?;
    }
  }

  /** The pass over the first `i` of the positions whose values were `vs` ended without
      exception: the objects hold its values and `sold` holds its FILLED positions. The
      quantifier over `n == i` only names the pass where a proof already mentions it, so
      that the loop of `SettleAll` never unfolds it. */
  predicate SettledUpTo(ps: seq<LongPosition>, vs: seq<Position>, params: Option<MarketParams>,
                        orders: seq<Order>, fallback: seq<Order>, i: nat, sold: seq<LongPosition>)
    reads set p | p in ps
    requires i <= |vs| == |ps| == |fallback|
    requires params.Some? ==> params.value.Valid()
  {
    forall n {:trigger ReconcileUpTo(vs, params, orders, fallback, n)} :: n == i ==>
      var rec := ReconcileUpTo(vs, params, orders, fallback, n);
      rec.failure.None? && Views(ps) == rec.views && sold == Pick(ps, rec.sold)
  }

  /** The outcome of the whole pass over the positions whose values were `vs`: the objects
      hold its values, and `r` is its exception or else its FILLED positions (guarded as
      `SettledUpTo` is). */
  predicate Reconciled(ps: seq<LongPosition>, vs: seq<Position>, params: Option<MarketParams>,
                       orders: seq<Order>, fallback: seq<Order>, r: Result<seq<LongPosition>>)
    reads set p | p in ps
    requires |vs| == |ps| == |fallback|
    requires params.Some? ==> params.value.Valid()
  {
    forall n {:trigger ReconcileUpTo(vs, params, orders, fallback, n)} :: n == |vs| ==>
      var rec := ReconcileUpTo(vs, params, orders, fallback, n);
      Views(ps) == rec.views &&
      (rec.failure.Some? ==> r == Failure(rec.failure.value)) &&
      (rec.failure.None? ==> r == Success(Pick(ps, rec.sold)))
  }

  /** A turn that ends without exception takes the pass one position further. */
  lemma SettledStep(ps: seq<LongPosition>, vs: seq<Position>, params: Option<MarketParams>,
                    orders: seq<Order>, fallback: seq<Order>, i: nat, sold: seq<LongPosition>)
    requires i < |vs| == |ps| == |fallback|
    requires params.Some? ==> params.value.Valid()
    requires var next := ReconcileUpTo(vs, params, orders, fallback, i + 1);
             Views(ps) == next.views && next.failure.None? && sold == Pick(ps, next.sold)
    ensures SettledUpTo(ps, vs, params, orders, fallback, i + 1, sold)
  {
  }

  /** Before the first turn, the pass over no position holds. */
  lemma SettledStart(ps: seq<LongPosition>, params: Option<MarketParams>, orders: seq<Order>, fallback: seq<Order>)
    requires |ps| == |fallback|
    requires params.Some? ==> params.value.Valid()
    ensures SettledUpTo(ps, Views(ps), params, orders, fallback, 0, [])
  {
  }

  /** A pass that reached the end without exception returns its FILLED positions. */
  lemma SettledDone(ps: seq<LongPosition>, vs: seq<Position>, params: Option<MarketParams>,
                    orders: seq<Order>, fallback: seq<Order>, sold: seq<LongPosition>)
    requires |vs| == |ps| == |fallback|
    requires params.Some? ==> params.value.Valid()
    requires SettledUpTo(ps, vs, params, orders, fallback, |vs|, sold)
    ensures Reconciled(ps, vs, params, orders, fallback, Success(sold))
  {
  }

  /** A turn that ends with an exception ends the whole pass with it. */
  lemma SettledFailure(ps: seq<LongPosition>, vs: seq<Position>, params: Option<MarketParams>,
                       orders: seq<Order>, fallback: seq<Order>, i: nat, e: Error)
    requires i < |vs| == |ps| == |fallback|
    requires params.Some? ==> params.value.Valid()
    requires var next := ReconcileUpTo(vs, params, orders, fallback, i + 1);
             Views(ps) == next.views && next.failure == Some(e)
    ensures Reconciled(ps, vs, params, orders, fallback, Failure(e))
  {
    ReconcileFailureFinal(vs, params, orders, fallback, i + 1, |vs|);
  }

  /** One turn of the loop of `update_order_statuses`, on the position at index `i`:
      after it the positions hold the pass's values for the first `i + 1` positions, the
      exception is the pass's, and the sold list is extended as the pass extends it. */
  method SettleTurn(ps: seq<LongPosition>, ghost vs: seq<Position>, params: Option<MarketParams>,
                    orders: seq<Order>, fallback: seq<Order>, i: nat, sold: seq<LongPosition>)
    returns (failure: Option<Error>, sold': seq<LongPosition>)
    requires Distinct(ps) && |fallback| == |ps| == |vs| && i < |ps|
    requires params.Some? ==> params.value.Valid()
    requires SettledUpTo(ps, vs, params, orders, fallback, i, sold)
    modifies ps[i]
    ensures var next := ReconcileUpTo(vs, params, orders, fallback, i + 1);
            Views(ps) == next.views && failure == next.failure &&
            (failure.None? ==> sold' == Pick(ps, next.sold))
  {
    ghost var prev := ReconcileUpTo(vs, params, orders, fallback, i);
    ghost var next := ReconcileUpTo(vs, params, orders, fallback, i + 1);
    ReconcileViews(vs, params, orders, fallback, i, i);
    ReconcileStep(vs, params, orders, fallback, i);
    assert ps[i].View() == vs[i];
    if ps[i].sellOrderId.None? {
      return None, sold;
    }
    var found := FindOrder(orders, ps[i].sellOrderId.value);
    var o := if found.Some? then found.value else fallback[i];
    assert o == OrderFor(vs[i], orders, fallback[i]);
    var settled := SettleIndex(ps, i, o, params);
    if settled.Failure? {
      return Some(settled.error), sold;
    }
    if o.status == "FILLED" {
      PickAppend(ps, prev.sold, i);
      return None, sold + [ps[i]];
    }
    return None, sold;
  }

  /** The same turn, stated as the loop of `SettleAll` uses it: the pass has either gone
      one position further or ended with the turn's exception. */
  method SettleAt(ps: seq<LongPosition>, ghost vs: seq<Position>, params: Option<MarketParams>,
                  orders: seq<Order>, fallback: seq<Order>, i: nat, sold: seq<LongPosition>)
    returns (failure: Option<Error>, sold': seq<LongPosition>)
    requires Distinct(ps) && |fallback| == |ps| == |vs| && i < |ps|
    requires params.Some? ==> params.value.Valid()
    requires SettledUpTo(ps, vs, params, orders, fallback, i, sold)
    modifies ps[i]
    ensures failure.None? ==> SettledUpTo(ps, vs, params, orders, fallback, i + 1, sold')
    ensures failure.Some? ==> Reconciled(ps, vs, params, orders, fallback, Failure(failure.value))
  {
    failure, sold' := SettleTurn(ps, vs, params, orders, fallback, i, sold);
    if failure.Some? {
      SettledFailure(ps, vs, params, orders, fallback, i, failure.value);
    } else {
      SettledStep(ps, vs, params, orders, fallback, i, sold');
    }
  }

  /** `SettlePosition` on the position at index `i`; the others keep their values. */
  method SettleIndex(ps: seq<LongPosition>, i: nat, o: Order, params: Option<MarketParams>) returns (r: Result<Position>)
    requires Distinct(ps) && i < |ps|
    requires params.Some? ==> params.value.Valid()
    modifies ps[i]
    ensures r == Settle(old(ps[i].View()), o, params)
    ensures Views(ps) == if r.Success? then old(Views(ps))[i := r.value] else old(Views(ps))
  {
    ghost var before := Views(ps);
    var p := ps[i];
    r := SettlePosition(p, o, params);
    ghost var after := if r.Success? then before[i := r.value] else before;
    forall k | 0 <= k < |ps| ensures ps[k].View() == after[k] {
      if k != i { assert ps[k] != p; }
    }
  }

  /** The loop of `update_order_statuses`: every position with a sell order is settled
      and saved in turn, and the FILLED ones are collected; an exception ends the loop
      with the positions reconciled before it saved. */
  method SettleAll(ps: seq<LongPosition>, params: Option<MarketParams>, orders: seq<Order>,
                   fallback: seq<Order>) returns (r: Result<seq<LongPosition>>)
    requires Distinct(ps) && |fallback| == |ps|
    requires params.Some? ==> params.value.Valid()
    modifies set p | p in ps
    ensures Reconciled(ps, old(Views(ps)), params, orders, fallback, r)
  {
    ghost var vs := Views(ps);
    SettledStart(ps, params, orders, fallback);
    var sold: seq<LongPosition> := [];
    var i := 0;
    while i < |ps|
      invariant 0 <= i <= |ps|
      invariant SettledUpTo(ps, vs, params, orders, fallback, i, sold)
    {
      var failure;
      failure, sold := SettleAt(ps, vs, params, orders, fallback, i, sold);
      if failure.Some? {
        return Failure(failure.value);
      }
      i := i + 1;
    }
    SettledDone(ps, vs, params, orders, fallback, sold);
    return Success(sold);
  }

  /** `update_order_statuses(market, positions)`. No positions: nothing to do. No position
      with a sell order: `next(...)` raises StopIteration before anything is touched.
      Otherwise the positions go through `ReconcileUpTo` in order and the FILLED ones are
      returned; an exception leaves the positions reconciled before it saved. */
  method UpdateOrderStatuses(ps: seq<LongPosition>, params: Option<MarketParams>, orders: seq<Order>,
                             fallback: seq<Order>) returns (r: Result<seq<LongPosition>>)
    requires Distinct(ps) && |fallback| == |ps|
    requires params.Some? ==> params.value.Valid()
    modifies set p | p in ps
    ensures |ps| == 0 ==> r == Success([])
    ensures |ps| > 0 && !SomeOpen(old(Views(ps))) ==> r == Failure(StopIteration) && Views(ps) == old(Views(ps))
    ensures |ps| > 0 && SomeOpen(old(Views(ps))) ==> Reconciled(ps, old(Views(ps)), params, orders, fallback, r)
  {
    if |ps| == 0 {
      return Success([]);
    }
    var open := AnyOpen(ps);
    if !open {
      return Failure(StopIteration);
    }
    r := SettleAll(ps, params, orders, fallback);
  }
}
