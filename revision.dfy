/** The sell-target revision pass of the main script: for one market, every open position
    (highest purchase price first) gets a fresh limit-sell target, or keeps its order, and a
    changed target replaces the order on the exchange. */
module Revision {
  import opened Outcomes
  import opened Decimals
  import opened Models
  import opened Binance
  import opened Scalp

  /** Below this relative distance a below-average target is not chased. */
  const Tolerance: real := 0.0025

  /** A target over the PERCENT_PRICE limit is placed at this fraction of the limit. */
  const CapFactor: real := 0.99

  predicate MetricMatches(m: Metric, exchange: string, market: string) {
    m.exchange == exchange && m.market == market
  }

  /** `next(m for m in metrics if ...)`: the first metric for the market on the exchange;
      None stands for the StopIteration an exhausted generator raises. */
  function FindMetric(metrics: seq<Metric>, exchange: string, market: string): (r: Option<Metric>)
    ensures r.None? <==> forall k :: 0 <= k < |metrics| ==> !MetricMatches(metrics[k], exchange, market)
    ensures r.Some? ==> exists k :: 0 <= k < |metrics| && metrics[k] == r.value &&
                                    MetricMatches(metrics[k], exchange, market) &&
                                    forall j :: 0 <= j < k ==> !MetricMatches(metrics[j], exchange, market)
  {
    if |metrics| == 0 then None
    else if MetricMatches(metrics[0], exchange, market) then Some(metrics[0])
    else
      var r := FindMetric(metrics[1..], exchange, market);
      assert forall k :: 0 < k < |metrics| ==> metrics[k] == metrics[1..][k - 1];
      r
  }

  /** What the pass works from in one market: its params, the current close and moving
      average on the tick grid, and the profit threshold. */
  datatype Context = Context(mp: MarketParams, price: real, ma: real, threshold: real)

  /** The context for a market: close and average are rounded to the tick. */
  function Snapshot(mp: MarketParams, m: Metric, threshold: real): (cx: Context)
    requires mp.Valid()
    ensures cx.mp == mp && cx.threshold == threshold
    ensures OnGrid(cx.price, mp.priceTickSize) && OnGrid(cx.ma, mp.priceTickSize)
    ensures m.close - mp.priceTickSize / 2.0 <= cx.price <= m.close + mp.priceTickSize / 2.0
    ensures m.ma - mp.priceTickSize / 2.0 <= cx.ma <= m.ma + mp.priceTickSize / 2.0
  {
    var tick := mp.priceTickSize;
    QuantizeOnGrid(m.close, tick, HalfEven);
    QuantizeOnGrid(m.ma, tick, HalfEven);
    QuantizeBounds(m.close, tick, HalfEven);
    QuantizeBounds(m.ma, tick, HalfEven);
    Context(mp, Quantize(m.close, tick, HalfEven), Quantize(m.ma, tick, HalfEven), threshold)
  }

  /** What the loop carries from one position to the next: the last target computed
      (`last_target_price`) and the last quantity assigned (`sell_quantity`). */
  datatype Carry = Carry(lastTarget: Option<real>, qty: real)

  /** Before the first position no target exists. The quantity is never read before the
      first position assigns it. */
  const Start: Carry := Carry(None, 0.0)

  /** `int(n * 0.75)`: the index from which positions hold the last target. */
  function HoldFrom(n: nat): (k: nat)
    ensures k <= n
    ensures 4 * k <= 3 * n < 4 * k + 4
  {
    3 * n / 4
  }

  /** Python truthiness of an optional Decimal. */
  predicate Truthy(t: Option<real>) {
    t.Some? && t.value != 0.0
  }

  /** The position at `index` of `n` holds the last target: it is in the last quarter and
      a non-zero target exists. */
  predicate Holds(index: nat, n: nat, carry: Carry) {
    index >= HoldFrom(n) && Truthy(carry.lastTarget)
  }

  /** The position has a live order whose price, on the tick grid, is the target. */
  predicate AtTarget(v: Position, target: real, tick: real)
    requires tick > 0.0
  {
    v.HasSellOrder() && v.HasSellPrice() && target == Quantize(v.sellPrice.value, tick, HalfEven)
  }

  /** What becomes of one position: left alone, or a limit sell at a target price. */
  datatype Decision = Keep | Submit(target: real, quantity: real)

  datatype Choice = Choice(decision: Decision, carry: Carry)

  /** The minimum profitable price, on the tick grid. */
  function MinSell(v: Position, cx: Context): real
    requires cx.mp.Valid()
  {
    Quantize(v.purchasePrice * cx.threshold, cx.mp.priceTickSize, HalfEven)
  }

  /** The PERCENT_PRICE limit: the current price times `multiplier_up`, on the tick grid. */
  function MaxPrice(cx: Context): real
    requires cx.mp.Valid() && cx.mp.multiplierUp.Some?
  {
    LimitPrice(cx.price, cx.mp.multiplierUp.value, cx.mp.priceTickSize)
  }

  function LimitPrice(price: real, multiplier: real, tick: real): real
    requires tick > 0.0
  {
    Quantize(price * multiplier, tick, HalfEven)
  }

  /** The relative distance between the current sell price and the new target,
      `(max - min) / min`. A null sell price cannot be compared; a zero smaller one
      cannot be divided by. */
  function Chase(sellPrice: Option<real>, target: real): (r: Result<real>)
    ensures sellPrice.None? ==> r == Failure(TypeError)
    ensures sellPrice.Some? ==>
      var lo := if sellPrice.value <= target then sellPrice.value else target;
      var gap := if sellPrice.value <= target then target - sellPrice.value else sellPrice.value - target;
      (r.Success? <==> lo != 0.0) && (r.Success? ==> r.value * lo == gap) &&
      (r.Failure? ==> r.error == if gap == 0.0 then InvalidOperation else DivisionByZero)
  {
    match sellPrice
    case None => Failure(TypeError)
    case Some(s) =>
      var hi := if s >= target then s else target;
      var lo := if s <= target then s else target;
      Divide(hi - lo, lo)
  }

  /** Between positive prices, the distance is under the tolerance exactly when the gap
      is under that fraction of the smaller price. */
  lemma ChaseTolerance(sellPrice: real, target: real)
    requires sellPrice > 0.0 && target > 0.0
    ensures var lo := if sellPrice <= target then sellPrice else target;
            var gap := if sellPrice <= target then target - sellPrice else sellPrice - target;
            Chase(Some(sellPrice), target).Success? &&
            (Chase(Some(sellPrice), target).value < Tolerance <==> gap < Tolerance * lo)
  {
    var lo := if sellPrice <= target then sellPrice else target;
    var gap := if sellPrice <= target then target - sellPrice else sellPrice - target;
    RatioBelow(Chase(Some(sellPrice), target).value, lo, gap, Tolerance);
  }

  /** A ratio `d = gap / lo` with a positive `lo` is below `t` exactly when `gap` is below
      `t * lo`. */
  lemma RatioBelow(d: real, lo: real, gap: real, t: real)
    requires lo > 0.0 && d * lo == gap
    ensures d < t <==> gap < t * lo
  {
    if d < t {
      RatioUnder(d, lo, gap, t);
    } else {
      MulMonotone(t, d, lo);
    }
  }

  lemma RatioUnder(d: real, lo: real, gap: real, t: real)
    requires lo > 0.0 && d * lo == gap && d < t
    ensures gap < t * lo
  {
    MulStrict(d, t, lo);
  }

  /** An order at the target is at distance zero from it. */
  lemma ChaseSame(s: real)
    ensures s != 0.0 ==> Chase(Some(s), s) == Success(0.0)
  {
  }

  /** Moving a 1.0000 order to 1.0020 is not worth it (0.2%); moving it to 1.0030 is. */
  lemma ChaseExample()
    ensures Chase(Some(1.0), 1.002).value < Tolerance
    ensures Chase(Some(1.0), 1.003).value >= Tolerance
  {
    ChaseTolerance(1.0, 1.002);
    ChaseTolerance(1.0, 1.003);
  }

  /** The min-notional check: an order worth less than the market's minimum is not placed. */
  function Notional(mp: MarketParams, target: real, qty: real, carry: Carry): (c: Choice)
    ensures c.carry == carry
    ensures c.decision.Submit? <==> target * qty >= mp.minNotional
    ensures c.decision.Submit? ==> c.decision == Submit(target, qty)
  {
    if target * qty < mp.minNotional then Choice(Keep, carry)
    else Choice(Submit(target, qty), carry)
  }

  /** The PERCENT_PRICE cap and the min-notional check on a proposed target. A target above
      the limit is lowered to 99% of it for the whole quantity bought (kept when that is
      the current sell price); the last target is left as it was. A null `multiplier_up`
      cannot be multiplied. */
  function Cap(v: Position, cx: Context, target: real, qty: real, carry: Carry): (r: Result<Choice>)
    requires cx.mp.Valid()
    ensures cx.mp.multiplierUp.None? <==> r.Failure?
    ensures r.Failure? ==> r.error == TypeError
    ensures r.Success? ==> r.value.carry.lastTarget == carry.lastTarget
    ensures r.Success? ==> r.value.carry.qty == if target > MaxPrice(cx) then v.buyQuantity else carry.qty
    ensures r.Success? && r.value.decision.Submit? ==>
      var d := r.value.decision;
      d.target * d.quantity >= cx.mp.minNotional &&
      if target > MaxPrice(cx) then
        d.target == Quantize(MaxPrice(cx) * CapFactor, cx.mp.priceTickSize, HalfEven) &&
        d.quantity == v.buyQuantity && v.sellPrice != Some(d.target)
      else d == Submit(target, qty)
  {
    match cx.mp.multiplierUp
    case None => Failure(TypeError)
    case Some(m) =>
      var maxPrice := MaxPrice(cx);
      if target > maxPrice then
        var capped := Quantize(maxPrice * CapFactor, cx.mp.priceTickSize, HalfEven);
        var c := carry.(qty := v.buyQuantity);
        if v.sellPrice == Some(capped) then Success(Choice(Keep, c))
        else Success(Notional(cx.mp, capped, v.buyQuantity, c))
      else Success(Notional(cx.mp, target, qty, carry))
  }

  /** With a non-negative price and multiplier every target the cap lets through is at
      most the limit. */
  lemma CapWithinLimit(v: Position, cx: Context, target: real, qty: real, carry: Carry)
    requires cx.mp.Valid() && cx.mp.multiplierUp.Some?
    requires cx.price >= 0.0 && cx.mp.multiplierUp.value >= 0.0
    requires Cap(v, cx, target, qty, carry).value.decision.Submit?
    ensures Cap(v, cx, target, qty, carry).value.decision.target <= MaxPrice(cx)
  {
    if target > MaxPrice(cx) {
      CappedWithinLimit(cx);
    }
  }

  /** 99% of the limit, on the tick grid, is at most the limit. */
  lemma CappedWithinLimit(cx: Context)
    requires cx.mp.Valid() && cx.mp.multiplierUp.Some?
    requires cx.price >= 0.0 && cx.mp.multiplierUp.value >= 0.0
    ensures Quantize(MaxPrice(cx) * CapFactor, cx.mp.priceTickSize, HalfEven) <= MaxPrice(cx)
  {
    LimitOnGrid(cx.price, cx.mp.multiplierUp.value, cx.mp.priceTickSize);
    FractionOnGridBelow(MaxPrice(cx), cx.mp.priceTickSize);
  }

  /** With a non-negative price and multiplier the limit is a non-negative multiple of
      the tick. */
  lemma LimitOnGrid(price: real, multiplier: real, tick: real)
    requires tick > 0.0 && price >= 0.0 && multiplier >= 0.0
    ensures LimitPrice(price, multiplier, tick) >= 0.0 && OnGrid(LimitPrice(price, multiplier, tick), tick)
  {
    MulMonotone(0.0, price, multiplier);
    QuantizeNonNegative(price * multiplier, tick, HalfEven);
    QuantizeOnGrid(price * multiplier, tick, HalfEven);
  }

  /** The capped fraction of a non-negative grid value, back on the grid, is at most that
      value. */
  lemma FractionOnGridBelow(x: real, step: real)
    requires step > 0.0 && x >= 0.0 && OnGrid(x, step)
    ensures Quantize(x * CapFactor, step, HalfEven) <= x
  {
    MulMonotone(CapFactor, 1.0, x);
    QuantizeMonotone(x * CapFactor, x, step, HalfEven);
    QuantizeExact(x, step, HalfEven);
  }

  /** The proposal of a recomputed target, after the progress line: its percentage of the
      purchase price is a Decimal division, which raises on a zero purchase price. */
  function Reported(v: Position, cx: Context, target: real, qty: real, carry: Carry): (r: Result<Choice>)
    requires cx.mp.Valid()
    ensures v.purchasePrice == 0.0 ==> r.Failure?
    ensures v.purchasePrice != 0.0 ==> r == Cap(v, cx, target, qty, carry)
  {
    match Divide(target, v.purchasePrice)
    case Failure(e) => Failure(e)
    case Success(_) => Cap(v, cx, target, qty, carry)
  }

  /** An order that is placed is worth at least the market's minimum. */
  predicate Placeable(d: Decision, mp: MarketParams) {
    d.Submit? ==> d.target * d.quantity >= mp.minNotional
  }

  /** One position of the pass (`index` of `n`, in query order): in the last quarter, once
      a target exists, the hold; otherwise a fresh target. */
  function Decide(v: Position, index: nat, n: nat, cx: Context, carry: Carry): (r: Result<Choice>)
    requires cx.mp.Valid()
    ensures r.Success? ==> Placeable(r.value.decision, cx.mp)
    ensures r.Success? && Holds(index, n, carry) ==> r.value.carry.lastTarget == carry.lastTarget
    ensures r.Success? && !Holds(index, n, carry) ==> r.value.carry.lastTarget.Some?
  {
    if Holds(index, n, carry) then Held(v, cx, carry) else Fresh(v, cx)
  }

  /** The hold: the last target with the last quantity, unless the order already sits
      there; then the cap. */
  function Held(v: Position, cx: Context, carry: Carry): (r: Result<Choice>)
    requires cx.mp.Valid() && carry.lastTarget.Some?
    ensures r.Success? ==> Placeable(r.value.decision, cx.mp) && r.value.carry.lastTarget == carry.lastTarget
  {
    var target := carry.lastTarget.value;
    if AtTarget(v, target, cx.mp.priceTickSize) then Success(Choice(Keep, carry))
    else Cap(v, cx, target, carry.qty, carry)
  }

  /** A fresh target: the scalp pair at the minimum profitable price, kept above the
      moving average and otherwise recomputed towards it. */
  function Fresh(v: Position, cx: Context): (r: Result<Choice>)
    requires cx.mp.Valid()
    ensures r.Success? ==> Placeable(r.value.decision, cx.mp) && r.value.carry.lastTarget.Some?
  {
    match ScalpSellPrice(v, cx.mp, MinSell(v, cx))
    case Failure(e) => Failure(e)
    case Success(first) =>
      if first.1 > cx.ma then Above(v, cx, first) else Below(v, cx)
  }

  /** A target above the moving average becomes the last target; an order already there
      is kept, any other goes through the cap. */
  function Above(v: Position, cx: Context, pair: (real, real)): (r: Result<Choice>)
    requires cx.mp.Valid()
    ensures r.Success? ==> Placeable(r.value.decision, cx.mp) && r.value.carry.lastTarget == Some(pair.1)
  {
    var c := Carry(Some(pair.1), pair.0);
    if AtTarget(v, pair.1, cx.mp.priceTickSize) then Success(Choice(Keep, c))
    else Reported(v, cx, pair.1, pair.0, c)
  }

  /** A target at or below the moving average: the pair is recomputed at the midpoint of
      the minimum profitable price and the average, which becomes the last target, and a
      move of less than the tolerance from the current sell price is not chased. */
  function Below(v: Position, cx: Context): (r: Result<Choice>)
    requires cx.mp.Valid()
    ensures r.Success? ==> Placeable(r.value.decision, cx.mp) && r.value.carry.lastTarget.Some?
  {
    match ScalpSellPrice(v, cx.mp, (MinSell(v, cx) + cx.ma) / 2.0)
    case Failure(e) => Failure(e)
    case Success(second) => Chased(v, cx, second)
  }

  /** The recomputed pair becomes the last target; it is not chased when it is within the
      tolerance of the current sell price, and goes through the cap otherwise. */
  function Chased(v: Position, cx: Context, pair: (real, real)): (r: Result<Choice>)
    requires cx.mp.Valid()
    ensures r.Success? ==> Placeable(r.value.decision, cx.mp) && r.value.carry.lastTarget == Some(pair.1)
  {
    var c := Carry(Some(pair.1), pair.0);
    match Chase(v.sellPrice, pair.1)
    case Failure(e) => Failure(e)
    case Success(diff) =>
      if diff < Tolerance then Success(Choice(Keep, c))
      else Reported(v, cx, pair.1, pair.0, c)
  }

  /** A holding position reuses the last target and the quantity the previous position
      left behind (the hold branch never assigns it); only the cap can replace them, with
      99% of the limit and the whole quantity bought. An order already at that target is
      kept. */
  lemma HoldReusesTarget(v: Position, index: nat, n: nat, cx: Context, carry: Carry)
    requires cx.mp.Valid() && Holds(index, n, carry)
    ensures var r := Decide(v, index, n, cx, carry);
            var last := carry.lastTarget.value;
            (AtTarget(v, last, cx.mp.priceTickSize) ==> r == Success(Choice(Keep, carry))) &&
            (r.Success? && r.value.decision.Submit? ==>
              r.value.decision == Submit(last, carry.qty) ||
              (cx.mp.multiplierUp.Some? && last > MaxPrice(cx) && r.value.decision.quantity == v.buyQuantity))
  {
    var last := carry.lastTarget.value;
    if !AtTarget(v, last, cx.mp.priceTickSize) {
      assert Decide(v, index, n, cx, carry) == Cap(v, cx, last, carry.qty, carry);
    }
  }

  /** Outside the hold, the last target becomes the scalp target computed here, before
      any cap: with the target above the moving average, that of the pair at the minimum
      profitable price, and an order already there is kept. */
  lemma AboveAverage(v: Position, index: nat, n: nat, cx: Context, carry: Carry)
    requires cx.mp.Valid() && !Holds(index, n, carry)
    requires ScalpSellPrice(v, cx.mp, MinSell(v, cx)).Success?
    requires ScalpSellPrice(v, cx.mp, MinSell(v, cx)).value.1 > cx.ma
    ensures var first := ScalpSellPrice(v, cx.mp, MinSell(v, cx)).value;
            var r := Decide(v, index, n, cx, carry);
            (r.Success? ==> r.value.carry.lastTarget == Some(first.1)) &&
            (AtTarget(v, first.1, cx.mp.priceTickSize) ==> r == Success(Choice(Keep, Carry(Some(first.1), first.0)))) &&
            (r.Success? && r.value.decision.Submit? && cx.mp.multiplierUp.Some? && first.1 <= MaxPrice(cx) ==>
              r.value.decision == Submit(first.1, first.0))
  {
    var first := ScalpSellPrice(v, cx.mp, MinSell(v, cx)).value;
    var c := Carry(Some(first.1), first.0);
    if !AtTarget(v, first.1, cx.mp.priceTickSize) {
      assert Decide(v, index, n, cx, carry) == Reported(v, cx, first.1, first.0, c);
    }
  }

  /** With the target at or below the moving average, the pair is recomputed at the
      midpoint of the minimum profitable price and the average, which becomes the last
      target; a move of less than the tolerance keeps the order. */
  lemma BelowAverage(v: Position, index: nat, n: nat, cx: Context, carry: Carry)
    requires cx.mp.Valid() && !Holds(index, n, carry)
    requires ScalpSellPrice(v, cx.mp, MinSell(v, cx)).Success?
    requires ScalpSellPrice(v, cx.mp, MinSell(v, cx)).value.1 <= cx.ma
    requires ScalpSellPrice(v, cx.mp, (MinSell(v, cx) + cx.ma) / 2.0).Success?
    ensures var second := ScalpSellPrice(v, cx.mp, (MinSell(v, cx) + cx.ma) / 2.0).value;
            var r := Decide(v, index, n, cx, carry);
            var diff := Chase(v.sellPrice, second.1);
            (v.sellPrice.None? ==> r == Failure(TypeError)) &&
            (r.Success? ==> r.value.carry.lastTarget == Some(second.1)) &&
            (diff.Success? && diff.value < Tolerance ==> r == Success(Choice(Keep, Carry(Some(second.1), second.0))))
  {
    var second := ScalpSellPrice(v, cx.mp, (MinSell(v, cx) + cx.ma) / 2.0).value;
    var diff := Chase(v.sellPrice, second.1);
    if diff.Success? && diff.value >= Tolerance {
      assert Decide(v, index, n, cx, carry) == Reported(v, cx, second.1, second.0, Carry(Some(second.1), second.0));
    }
  }

  /** No churn: a position whose live order sits on the tick grid is never re-submitted
      at the price it already has. */
  lemma NoChurn(v: Position, index: nat, n: nat, cx: Context, carry: Carry)
    requires cx.mp.Valid() && v.HasSellOrder() && v.HasSellPrice()
    requires OnGrid(v.sellPrice.value, cx.mp.priceTickSize)
    requires Decide(v, index, n, cx, carry).Success?
    requires Decide(v, index, n, cx, carry).value.decision.Submit?
    ensures Decide(v, index, n, cx, carry).value.decision.target != v.sellPrice.value
  {
    var tick := cx.mp.priceTickSize;
    var s := v.sellPrice.value;
    QuantizeExact(s, tick, HalfEven);
    if !Holds(index, n, carry) {
      var first := ScalpSellPrice(v, cx.mp, MinSell(v, cx)).value;
      if first.1 <= cx.ma {
        var second := ScalpSellPrice(v, cx.mp, (MinSell(v, cx) + cx.ma) / 2.0).value;
        ChaseSame(s);
      }
    }
  }

  /** With a non-negative price and multiplier no order is placed above the PERCENT_PRICE
      limit. */
  lemma WithinLimit(v: Position, index: nat, n: nat, cx: Context, carry: Carry)
    requires cx.mp.Valid() && cx.mp.multiplierUp.Some?
    requires cx.price >= 0.0 && cx.mp.multiplierUp.value >= 0.0
    requires Decide(v, index, n, cx, carry).Success?
    requires Decide(v, index, n, cx, carry).value.decision.Submit?
    ensures Decide(v, index, n, cx, carry).value.decision.target <= MaxPrice(cx)
  {
    if Holds(index, n, carry) {
      CapWithinLimit(v, cx, carry.lastTarget.value, carry.qty, carry);
    } else {
      var minSell := MinSell(v, cx);
      var first := ScalpSellPrice(v, cx.mp, minSell).value;
      if first.1 > cx.ma {
        CapWithinLimit(v, cx, first.1, first.0, Carry(Some(first.1), first.0));
      } else {
        var second := ScalpSellPrice(v, cx.mp, (minSell + cx.ma) / 2.0).value;
        CapWithinLimit(v, cx, second.1, second.0, Carry(Some(second.1), second.0));
      }
    }
  }

  // ---------------------------------------------------------------------------------
  // Replacing the order

  /** A position after the replacement of its order, and the exception that ended it. */
  datatype Placed = Placed(view: Position, failure: Option<Error>)

  /** Cancel and replace as intended: a live order is cancelled (whatever the exchange
      reports, the reply being only logged; a client exception propagates) and its id nulled
      and saved; then the limit sell, whose order id, target and quantity are saved when it
      returns a result. The line printed before the save divides by the purchase price. */
  function PlaceIntended(v: Position, mp: MarketParams, target: real, qty: real, cancel: CancelReply,
                         sell: SellReply): (r: Placed)
    requires mp.Valid()
    ensures Untouched(r.view, v)
    ensures v.HasSellOrder() && cancel.CancelError? ==> r == Placed(v, Some(ApiError(cancel.message)))
    ensures v.HasSellOrder() && cancel.CancelResponse? ==>
      r.view.sellOrderId.None? || (r.failure.None? && sell.SellAccepted? && r.view.sellOrderId == Some(sell.orderId))
    ensures r.failure.None? && LimitSell(Some(mp), qty, target, sell).Success? &&
            LimitSell(Some(mp), qty, target, sell).value.Some? ==>
      r.view == v.(sellOrderId := Some(sell.orderId), sellPrice := Some(target), sellQuantity := Some(qty))
  {
    var w := if v.HasSellOrder() then v.(sellOrderId := None) else v;
    if v.HasSellOrder() && CancelOrder(cancel).Failure? then Placed(v, Some(CancelOrder(cancel).error))
    else
      match LimitSell(Some(mp), qty, target, sell)
      case Failure(e) => Placed(w, Some(e))
      case Success(None) => Placed(w, None)
      case Success(Some(receipt)) =>
        match Divide(target, v.purchasePrice)
        case Failure(e) => Placed(w, Some(e))
        case Success(_) =>
          Placed(w.(sellOrderId := Some(receipt.orderId), sellPrice := Some(target), sellQuantity := Some(qty)), None)
  }

  /** In the intended replacement, what the exchange reports on the cancel makes no
      difference. */
  lemma CancelStatusIgnored(v: Position, mp: MarketParams, target: real, qty: real,
                            status1: string, status2: string, sell: SellReply)
    requires mp.Valid()
    ensures PlaceIntended(v, mp, target, qty, CancelResponse(status1), sell) ==
            PlaceIntended(v, mp, target, qty, CancelResponse(status2), sell)
  {
  }

  /** Cancel and replace as written. When the cancel of a live order reports a status other
      than CANCELED, the error line is formatted with `json.dumps`, but `json` is not
      imported where the pass runs: NameError ends the pass before the id is nulled. Every
      other reply goes on as intended. */
  function Place(v: Position, mp: MarketParams, target: real, qty: real, cancel: CancelReply, sell: SellReply)
    : (r: Placed)
    requires mp.Valid()
    ensures Untouched(r.view, v)
    ensures v.HasSellOrder() && cancel.CancelError? ==> r == Placed(v, Some(ApiError(cancel.message)))
    ensures v.HasSellOrder() && cancel.CancelResponse? && cancel.status != "CANCELED" ==>
      r == Placed(v, Some(NameError))
    ensures v.HasSellOrder() && cancel == CancelResponse("CANCELED") ==>
      r.view.sellOrderId.None? || (r.failure.None? && sell.SellAccepted? && r.view.sellOrderId == Some(sell.orderId))
    ensures r.failure.None? && LimitSell(Some(mp), qty, target, sell).Success? &&
            LimitSell(Some(mp), qty, target, sell).value.Some? ==>
      r.view == v.(sellOrderId := Some(sell.orderId), sellPrice := Some(target), sellQuantity := Some(qty))
  {
    if v.HasSellOrder() && CancelOrder(cancel) == Success(false) then Placed(v, Some(NameError))
    else PlaceIntended(v, mp, target, qty, cancel, sell)
  }

  /** As written, a live order whose cancel is not reported CANCELED keeps its id, and the
      pass ends with NameError whatever the limit sell would have done; as intended, the
      same input goes on to the limit sell. */
  lemma FailedCancelRaises(v: Position, mp: MarketParams, target: real, qty: real, status: string, id: int)
    requires mp.Valid() && v.HasSellOrder() && status != "CANCELED" && v.purchasePrice != 0.0
    ensures Place(v, mp, target, qty, CancelResponse(status), SellAccepted(id)) == Placed(v, Some(NameError))
    ensures var r := PlaceIntended(v, mp, target, qty, CancelResponse(status), SellAccepted(id));
            r.failure.None? && r.view.sellOrderId == Some(id)
  {
    assert LimitSell(Some(mp), qty, target, SellAccepted(id)).Success?;
    assert Divide(target, v.purchasePrice).Success?;
  }

  /** A tolerated rejection, after a cancel reported CANCELED (or with no live order),
      leaves the position without an order id: the old one was nulled and no new one
      arrives. */
  lemma RejectedLeavesNoOrder(v: Position, mp: MarketParams, target: real, qty: real,
                              cancel: CancelReply, message: string)
    requires mp.Valid() && Tolerated(message)
    requires v.HasSellOrder() ==> cancel == CancelResponse("CANCELED")
    ensures var r := Place(v, mp, target, qty, cancel, SellRejected(message));
            r.failure.None? && r.view.sellPrice == v.sellPrice && r.view.sellQuantity == v.sellQuantity &&
            (v.HasSellOrder() ==> r.view.sellOrderId.None?) &&
            (!v.HasSellOrder() ==> r.view == v)
  {
  }

  /** `Place` on the position object: its fields are written as the function says. */
  method PlaceSell(p: LongPosition, mp: MarketParams, target: real, qty: real, cancel: CancelReply, sell: SellReply)
    returns (failure: Option<Error>)
    requires mp.Valid()
    modifies p
    ensures var placed := Place(old(p.View()), mp, target, qty, cancel, sell);
            p.View() == placed.view && failure == placed.failure
  {
    if p.sellOrderId.Some? && p.sellOrderId.value != 0 {
      var cancelled := CancelOrder(cancel);
      if cancelled.Failure? {
        return Some(cancelled.error);
      }
      if !cancelled.value {
        return Some(NameError);
      }
      p.sellOrderId := None;
    }
    var results := LimitSell(Some(mp), qty, target, sell);
    if results.Failure? {
      return Some(results.error);
    }
    if results.value.Some? {
      var percent := Divide(target, p.purchasePrice);
      if percent.Failure? {
        return Some(percent.error);
      }
      p.sellOrderId := Some(results.value.value.orderId);
      p.sellPrice := Some(target);
      p.sellQuantity := Some(qty);
    }
    return None;
  }

  // ---------------------------------------------------------------------------------
  // The pass over a market's positions

  /** Two values of a position that differ at most in the sell order, price and quantity. */
  predicate Untouched(w: Position, v: Position) {
    SamePurchase(w, v) && w.sellTimestamp == v.sellTimestamp && w.scalpedQuantity == v.scalpedQuantity
  }

  /** One position of the pass: its new value, the carry for the next one, and the
      exception that ends the pass. */
  datatype Outcome = Outcome(view: Position, carry: Carry, failure: Option<Error>)

  /** The decision for a position, and the replacement of its order when one is due. */
  function Revise(v: Position, index: nat, n: nat, cx: Context, carry: Carry,
                  cancel: CancelReply, sell: SellReply): (r: Outcome)
    requires cx.mp.Valid()
    ensures Untouched(r.view, v)
    ensures Decide(v, index, n, cx, carry).Failure? ==> r.view == v && r.failure.Some?
    ensures Decide(v, index, n, cx, carry).Success? ==> r.carry == Decide(v, index, n, cx, carry).value.carry
    ensures Decide(v, index, n, cx, carry).Success? && Decide(v, index, n, cx, carry).value.decision.Keep? ==>
      r.view == v && r.failure.None?
  {
    match Decide(v, index, n, cx, carry)
    case Failure(e) => Outcome(v, carry, Some(e))
    case Success(c) =>
      match c.decision
      case Keep => Outcome(v, c.carry, None)
      case Submit(target, qty) =>
        var placed := Place(v, cx.mp, target, qty, cancel, sell);
        Outcome(placed.view, c.carry, placed.failure)
  }

  /** The carry position `k` starts from. */
  function Before(outs: seq<Outcome>, k: nat): Carry
    requires k <= |outs|
  {
    if k == 0 then Start else outs[k - 1].carry
  }

  /** A step of a pass: the outcome of the position at an index from a carry. */
  ghost predicate Defined(step: (nat, Carry) --> Outcome, n: nat) {
    forall k: nat, c: Carry :: k < n ==> step.requires(k, c)
  }

  /** The outcomes of the first `n` positions in turn, each from the carry the one before
      it left. */
  function Trace(step: (nat, Carry) --> Outcome, n: nat): (r: seq<Outcome>)
    requires Defined(step, n)
    ensures |r| == n
  {
    if n == 0 then []
    else
      var t := Trace(step, n - 1);
      t + [step(n - 1, Before(t, n - 1))]
  }

  /** `outs` holds the outcome of each position from the carry of the one before. */
  predicate Chained(step: (nat, Carry) --> Outcome, outs: seq<Outcome>)
    requires Defined(step, |outs|)
  {
    forall k {:trigger Before(outs, k)} :: 0 <= k < |outs| ==> outs[k] == step(k, Before(outs, k))
  }

  lemma {:induction false} TraceChained(step: (nat, Carry) --> Outcome, n: nat)
    requires Defined(step, n)
    ensures Chained(step, Trace(step, n))
  {
    if n > 0 {
      var t := Trace(step, n - 1);
      TraceChained(step, n - 1);
      ChainedSnoc(step, t, step(n - 1, Before(t, n - 1)));
    }
  }

  /** The outcome of the next position from the last carry extends a chained trace. */
  lemma ChainedSnoc(step: (nat, Carry) --> Outcome, t: seq<Outcome>, o: Outcome)
    requires Defined(step, |t| + 1) && Chained(step, t) && o == step(|t|, Before(t, |t|))
    ensures Chained(step, t + [o])
  {
    var outs := t + [o];
    forall k | 0 <= k < |outs| ensures outs[k] == step(k, Before(outs, k)) {
      if k < |t| {
        assert outs[k] == t[k];
        assert Before(outs, k) == Before(t, k);
      }
    }
  }

  /** The step of the revision pass in a market: `Revise` on the position at the index,
      with the exchange's answers for it. */
  function Reviser(vs: seq<Position>, cx: Context, cancels: seq<CancelReply>, sells: seq<SellReply>)
    : (step: (nat, Carry) --> Outcome)
    requires |vs| == |cancels| == |sells| && cx.mp.Valid()
    ensures Defined(step, |vs|)
    ensures forall k: nat, c: Carry :: k < |vs| ==>
      step(k, c) == Revise(vs[k], k, |vs|, cx, c, cancels[k], sells[k])
  {
    (k: nat, c: Carry) requires k < |vs| => Revise(vs[k], k, |vs|, cx, c, cancels[k], sells[k])
  }

  /** The state of the pass: the positions as saved, and the exception that ended it. */
  datatype Pass = Pass(views: seq<Position>, failure: Option<Error>)

  /** The pass over the first `n` positions, given the outcome of each: each takes its new
      value; the first exception ends the pass. */
  function Replay(vs: seq<Position>, outs: seq<Outcome>, n: nat): (r: Pass)
    requires n <= |vs| == |outs|
    ensures |r.views| == |vs|
  {
    if n == 0 then Pass(vs, None)
    else
      var prev := Replay(vs, outs, n - 1);
      if prev.failure.Some? then prev
      else Pass(prev.views[n - 1 := outs[n - 1].view], outs[n - 1].failure)
  }

  /** The revision pass over the first `n` positions of a market; `cancels` and `sells`
      are the exchange's answers, one per position. */
  function ReviseUpTo(vs: seq<Position>, cx: Context, cancels: seq<CancelReply>, sells: seq<SellReply>, n: nat)
    : (r: Pass)
    requires n <= |vs| == |cancels| == |sells| && cx.mp.Valid()
    ensures |r.views| == |vs|
  {
    Replay(vs, Trace(Reviser(vs, cx, cancels, sells), |vs|), n)
  }

  lemma ReplayStep(vs: seq<Position>, outs: seq<Outcome>, n: nat)
    requires n < |vs| == |outs|
    requires Replay(vs, outs, n).failure.None?
    ensures Replay(vs, outs, n + 1) == Pass(Replay(vs, outs, n).views[n := outs[n].view], outs[n].failure)
  {
  }

  /** Positions not yet reached are as they were. */
  lemma {:induction false} ReplayAhead(vs: seq<Position>, outs: seq<Outcome>, n: nat, k: nat)
    requires n <= k < |vs| == |outs|
    ensures Replay(vs, outs, n).views[k] == vs[k]
  {
    if n > 0 {
      ReplayAhead(vs, outs, n - 1, k);
    }
  }

  /** Every position is either as it was or as its outcome left it. */
  lemma {:induction false} ReplayEither(vs: seq<Position>, outs: seq<Outcome>, n: nat, k: nat)
    requires n <= |vs| == |outs| && k < |vs|
    ensures Replay(vs, outs, n).views[k] == vs[k] || Replay(vs, outs, n).views[k] == outs[k].view
  {
    if n > 0 {
      ReplayEither(vs, outs, n - 1, k);
    }
  }

  lemma {:induction false} ReplayFailureFinal(vs: seq<Position>, outs: seq<Outcome>, n: nat, m: nat)
    requires n <= m <= |vs| == |outs|
    requires Replay(vs, outs, n).failure.Some?
    ensures Replay(vs, outs, m) == Replay(vs, outs, n)
    decreases m - n
  {
    if m > n {
      ReplayFailureFinal(vs, outs, n, m - 1);
    }
  }

  /** An exception at position `k` ends the pass with it: that position keeps what its
      outcome reached (an order cancelled and nulled, say), and those after it are
      untouched. */
  lemma ReplayStopsAtFailure(vs: seq<Position>, outs: seq<Outcome>, k: nat)
    requires k < |vs| == |outs|
    requires Replay(vs, outs, k).failure.None? && outs[k].failure.Some?
    ensures var pass := Replay(vs, outs, |vs|);
            pass.failure == outs[k].failure && pass.views[k] == outs[k].view &&
            forall j :: k < j < |vs| ==> pass.views[j] == vs[j]
  {
    ReplayStep(vs, outs, k);
    ReplayFailureFinal(vs, outs, k + 1, |vs|);
    forall j | k < j < |vs| ensures Replay(vs, outs, k).views[j] == vs[j] {
      ReplayAhead(vs, outs, k, j);
    }
  }

  /** The revision pass changes only the sell order, price and quantity of each
      position. */
  lemma ReviseOnlySellFields(vs: seq<Position>, cx: Context, cancels: seq<CancelReply>,
                             sells: seq<SellReply>, k: nat)
    requires |vs| == |cancels| == |sells| && cx.mp.Valid() && k < |vs|
    ensures Untouched(ReviseUpTo(vs, cx, cancels, sells, |vs|).views[k], vs[k])
  {
    var step := Reviser(vs, cx, cancels, sells);
    var outs := Trace(step, |vs|);
    TraceChained(step, |vs|);
    ReplayEither(vs, outs, |vs|, k);
    assert outs[k] == Revise(vs[k], k, |vs|, cx, Before(outs, k), cancels[k], sells[k]);
  }

  /** The outcome of position `k` is `Revise` on it, from the carry of the one before. */
  predicate RevisedAt(vs: seq<Position>, cx: Context, cancels: seq<CancelReply>, sells: seq<SellReply>,
                      outs: seq<Outcome>, k: nat)
    requires |vs| == |cancels| == |sells| == |outs| && cx.mp.Valid() && k < |vs|
  {
    outs[k] == Revise(vs[k], k, |vs|, cx, Before(outs, k), cancels[k], sells[k])
  }

  /** `outs` holds the outcome of every position of the pass. */
  predicate Revised(vs: seq<Position>, cx: Context, cancels: seq<CancelReply>, sells: seq<SellReply>,
                    outs: seq<Outcome>)
    requires |vs| == |cancels| == |sells| == |outs| && cx.mp.Valid()
  {
    forall k: nat :: k < |vs| ==> RevisedAt(vs, cx, cancels, sells, outs, k)
  }

  lemma TraceRevised(vs: seq<Position>, cx: Context, cancels: seq<CancelReply>, sells: seq<SellReply>)
    requires |vs| == |cancels| == |sells| && cx.mp.Valid()
    ensures Revised(vs, cx, cancels, sells, Trace(Reviser(vs, cx, cancels, sells), |vs|))
  {
    var step := Reviser(vs, cx, cancels, sells);
    var outs := Trace(step, |vs|);
    TraceChained(step, |vs|);
    forall k: nat | k < |vs| ensures RevisedAt(vs, cx, cancels, sells, outs, k) {
      assert outs[k] == step(k, Before(outs, k));
    }
  }

  /** The positions hold the pass over the first `i` of them, which raised nothing, and
      `carry` is what it carries on. */
  predicate Progress(ps: seq<LongPosition>, vs: seq<Position>, outs: seq<Outcome>, i: nat, carry: Carry)
    reads set p | p in ps
    requires i <= |vs| == |outs|
  {
    var pass := Replay(vs, outs, i);
    pass.failure.None? && Views(ps) == pass.views && carry == Before(outs, i)
  }

  /** The positions hold the whole pass, which ended with `failure`. */
  predicate Finished(ps: seq<LongPosition>, vs: seq<Position>, outs: seq<Outcome>, failure: Option<Error>)
    reads set p | p in ps
    requires |vs| == |outs|
  {
    var pass := Replay(vs, outs, |vs|);
    Views(ps) == pass.views && failure == pass.failure
  }

  /** One turn of the loop on the position at index `i`. */
  method ReviseAt(ps: seq<LongPosition>, ghost vs: seq<Position>, ghost outs: seq<Outcome>, cx: Context,
                  cancels: seq<CancelReply>, sells: seq<SellReply>, i: nat, carry: Carry)
    returns (next: Carry, failure: Option<Error>)
    requires Distinct(ps) && |ps| == |vs| == |cancels| == |sells| && i < |ps| && cx.mp.Valid()
    requires |outs| == |vs| && Revised(vs, cx, cancels, sells, outs) && Progress(ps, vs, outs, i, carry)
    modifies ps[i]
    ensures failure.Some? ==> Finished(ps, vs, outs, failure)
    ensures failure.None? ==> Progress(ps, vs, outs, i + 1, next)
  {
    ReplayAhead(vs, outs, i, i);
    ReplayStep(vs, outs, i);
    assert RevisedAt(vs, cx, cancels, sells, outs, i);
    ghost var before := Views(ps);
    var p := ps[i];
    assert p.View() == vs[i];
    var d := Decide(p.View(), i, |ps|, cx, carry);
    if d.Failure? {
      ReplayFailureFinal(vs, outs, i + 1, |vs|);
      return carry, Some(d.error);
    }
    next := d.value.carry;
    match d.value.decision
    case Keep =>
      failure := None;
    case Submit(target, qty) =>
      failure := PlaceSell(p, cx.mp, target, qty, cancels[i], sells[i]);
      forall k | 0 <= k < |ps| ensures ps[k].View() == before[i := p.View()][k] {
        if k != i { assert ps[k] != p; }
      }
      if failure.Some? {
        ReplayFailureFinal(vs, outs, i + 1, |vs|);
      }
  }

  /** The loop over the positions from the first on, given the outcome of each. */
  method ReviseAll(ps: seq<LongPosition>, ghost vs: seq<Position>, ghost outs: seq<Outcome>, cx: Context,
                   cancels: seq<CancelReply>, sells: seq<SellReply>)
    returns (failure: Option<Error>)
    requires Distinct(ps) && |ps| == |vs| == |cancels| == |sells| && cx.mp.Valid()
    requires |outs| == |vs| && Revised(vs, cx, cancels, sells, outs) && Views(ps) == vs
    modifies set p | p in ps
    ensures Finished(ps, vs, outs, failure)
  {
    var carry := Start;
    var i := 0;
    while i < |ps|
      invariant 0 <= i <= |ps|
      invariant Progress(ps, vs, outs, i, carry)
    {
      carry, failure := ReviseAt(ps, vs, outs, cx, cancels, sells, i, carry);
      if failure.Some? {
        return;
      }
      i := i + 1;
    }
    return None;
  }

  /** The revision pass for one market: its params and metric are read first (a missing
      metric raises StopIteration, missing params AttributeError), then its open positions
      are revised in query order (highest purchase price first). */
  method ReviseMarket(ps: seq<LongPosition>, params: Option<MarketParams>, metrics: seq<Metric>,
                      exchange: string, market: string, threshold: real,
                      cancels: seq<CancelReply>, sells: seq<SellReply>)
    returns (r: Result<()>)
    requires Distinct(ps) && |ps| == |cancels| == |sells|
    requires params.Some? ==> params.value.Valid()
    modifies set p | p in ps
    ensures FindMetric(metrics, exchange, market).None? ==> r == Failure(StopIteration) && Views(ps) == old(Views(ps))
    ensures FindMetric(metrics, exchange, market).Some? && params.None? ==>
      r == Failure(AttributeError) && Views(ps) == old(Views(ps))
    ensures FindMetric(metrics, exchange, market).Some? && params.Some? ==>
      var cx := Snapshot(params.value, FindMetric(metrics, exchange, market).value, threshold);
      var pass := ReviseUpTo(old(Views(ps)), cx, cancels, sells, |ps|);
      Views(ps) == pass.views && (r.Success? <==> pass.failure.None?) &&
      (r.Failure? ==> r.error == pass.failure.value)
  {
    var metric := FindMetric(metrics, exchange, market);
    if metric.None? {
      return Failure(StopIteration);
    }
    if params.None? {
      return Failure(AttributeError);
    }
    var cx := Snapshot(params.value, metric.value, threshold);
    if |ps| == 0 {
      return Success(());
    }
    ghost var vs := Views(ps);
    ghost var outs := Trace(Reviser(vs, cx, cancels, sells), |vs|);
    TraceRevised(vs, cx, cancels, sells);
    var failure := ReviseAll(ps, vs, outs, cx, cancels, sells);
    if failure.Some? {
      return Failure(failure.value);
    }
    return Success(());
  }
}
