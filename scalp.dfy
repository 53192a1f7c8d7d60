/** Scalp pricing: the limit-sell `(quantity, price)` pair that sells back what was spent
    at a target price while keeping a slice of the crypto, and the fix-up pass that places
    such a limit sell for every position that has none. */
module Scalp {
  import opened Outcomes
  import opened Decimals
  import opened Models
  import opened Binance

  /** The profit threshold the fix-up pass prices positions at. */
  const FixUpThreshold: real := 1.05

  /** The scalp pair for a target price: the quantity that recoups `spent` at `target`,
      rounded to the lot step; when that would sell the whole buy (or more), one lot step
      less, re-priced so that the smaller quantity still recoups `spent`. */
  function ScalpSellPrice(v: Position, mp: MarketParams, target: real): (r: Result<(real, real)>)
    requires mp.Valid()
  {
    var step := mp.lotStepSize;
    match Divide(v.Spent(), target)
    case Failure(e) => Failure(e)
    case Success(q) =>
      var qty := Quantize(q, step, HalfEven);
      if qty < v.buyQuantity then Success((qty, target))
      else
        var reduced := Quantize(qty - step, step, HalfEven);
        match Divide(v.Spent(), reduced)
        case Failure(e) => Failure(e)
        case Success(t) => Success((reduced, Quantize(t, mp.priceTickSize, HalfEven)))
  }

  /** The quantity first computed for a target: `spent / target` on the lot-step grid. */
  function FirstQuantity(v: Position, mp: MarketParams, target: real): real
    requires mp.Valid() && target != 0.0
  {
    Quantize(v.Spent() / target, mp.lotStepSize, HalfEven)
  }

  /** A zero target cannot be divided by. */
  lemma ScalpZeroTarget(v: Position, mp: MarketParams)
    requires mp.Valid()
    ensures ScalpSellPrice(v, mp, 0.0) == Failure(if v.Spent() == 0.0 then InvalidOperation else DivisionByZero)
  {
  }

  /** When the first quantity is below the quantity bought, the pair is that quantity at
      the target as given. */
  lemma ScalpUnchanged(v: Position, mp: MarketParams, target: real)
    requires mp.Valid() && target != 0.0
    requires FirstQuantity(v, mp, target) < v.buyQuantity
    ensures ScalpSellPrice(v, mp, target) == Success((FirstQuantity(v, mp, target), target))
    ensures OnGrid(ScalpSellPrice(v, mp, target).value.0, mp.lotStepSize)
  {
    QuantizeOnGrid(v.Spent() / target, mp.lotStepSize, HalfEven);
  }

  /** Otherwise the quantity drops by exactly one lot step and the price is the tick-grid
      value of `spent` over it, unless the first quantity was exactly one step: then the
      division by zero raises. */
  lemma ScalpDropsOneStep(v: Position, mp: MarketParams, target: real)
    requires mp.Valid() && target != 0.0
    requires FirstQuantity(v, mp, target) >= v.buyQuantity
    ensures var qty := FirstQuantity(v, mp, target);
            var r := ScalpSellPrice(v, mp, target);
            (r.Success? <==> qty != mp.lotStepSize) &&
            (r.Success? ==> r.value.0 == qty - mp.lotStepSize &&
                            OnGrid(r.value.0, mp.lotStepSize) && OnGrid(r.value.1, mp.priceTickSize) &&
                            Divide(v.Spent(), r.value.0).Success? &&
                            r.value.1 == Quantize(Divide(v.Spent(), r.value.0).value, mp.priceTickSize, HalfEven)) &&
            (r.Failure? ==> r.error == if v.Spent() == 0.0 then InvalidOperation else DivisionByZero)
  {
    var step := mp.lotStepSize;
    var qty := FirstQuantity(v, mp, target);
    QuantizeOnGrid(v.Spent() / target, step, HalfEven);
    StepOnGrid(step);
    GridSubtract(qty, step, step);
    QuantizeExact(qty - step, step, HalfEven);
    var reduced := qty - step;
    if reduced != 0.0 {
      QuantizeOnGrid(v.Spent() / reduced, mp.priceTickSize, HalfEven);
    }
  }

  /** With a target at or above the purchase price and a buy quantity on the lot-step grid,
      the pair never sells the whole buy: a slice of at least one lot step is kept. */
  lemma ScalpKeepsSlice(v: Position, mp: MarketParams, target: real)
    requires mp.Valid() && v.purchasePrice > 0.0 && v.buyQuantity > 0.0
    requires target >= v.purchasePrice && OnGrid(v.buyQuantity, mp.lotStepSize)
    requires ScalpSellPrice(v, mp, target).Success?
    ensures ScalpSellPrice(v, mp, target).value.0 + mp.lotStepSize <= v.buyQuantity
  {
    FirstAtMostBuy(v, mp, target);
    if FirstQuantity(v, mp, target) < v.buyQuantity {
      ScalpUnchanged(v, mp, target);
      GridGap(FirstQuantity(v, mp, target), v.buyQuantity, mp.lotStepSize);
    } else {
      ScalpDropsOneStep(v, mp, target);
    }
  }

  lemma FirstAtMostBuy(v: Position, mp: MarketParams, target: real)
    requires mp.Valid() && v.purchasePrice > 0.0 && v.buyQuantity > 0.0
    requires target >= v.purchasePrice && OnGrid(v.buyQuantity, mp.lotStepSize)
    ensures FirstQuantity(v, mp, target) <= v.buyQuantity
  {
    SpentPerTarget(v.buyQuantity, v.purchasePrice, target);
    QuantizeMonotone(v.Spent() / target, v.buyQuantity, mp.lotStepSize, HalfEven);
    QuantizeExact(v.buyQuantity, mp.lotStepSize, HalfEven);
  }

  /** At a target at or above the purchase price, what was spent buys back no more than
      the quantity bought. */
  lemma SpentPerTarget(buy: real, price: real, target: real)
    requires buy > 0.0 && 0.0 < price <= target
    ensures buy * price / target <= buy
  {
    var q := buy * price / target;
    assert q * target == buy * price;
    MulMonotone(price, target, buy);
    if q > buy { MulStrict(buy, q, target); }
  }

  /** The half-even pair at the fix-up threshold for a purchase of 100 at 1.00 with a lot
      step of 1 and a tick of 0.01 is 95 at 1.05, whose proceeds 99.75 fall short of the
      100 spent. */
  lemma ScalpShortOfSpent()
    ensures var v := Position(ExchangeBinance, "XBTC", 1, 100.0, 1.0, 0.0, 0.0, "", None, None, None, None, None);
            var mp := MarketParams(ExchangeBinance, "XBTC", 0.01, 1.0, 0.001, None, None);
            var target := Quantize(v.purchasePrice * FixUpThreshold, mp.priceTickSize, HalfEven);
            target == 1.05 && ScalpSellPrice(v, mp, target) == Success((95.0, 1.05)) && 95.0 * 1.05 < v.Spent()
  {
    assert RoundToInt(1.05 / 0.01, HalfEven) == 105 by {
      assert 1.05 / 0.01 == 105.0;
    }
    assert RoundToInt(100.0 / 1.05, HalfEven) == 95 by {
      assert (100.0 / 1.05).Floor == 95;
    }
  }

  /** With a tick as coarse as the price the target can round below the purchase price,
      and the pair then sells more than was bought: 10 bought at 1.4 with tick and step 1
      give 13 at 1. */
  lemma ScalpCoarseTick()
    ensures var v := Position(ExchangeBinance, "XBTC", 1, 10.0, 1.4, 0.0, 0.0, "", None, None, None, None, None);
            var mp := MarketParams(ExchangeBinance, "XBTC", 1.0, 1.0, 0.001, None, None);
            var target := Quantize(v.purchasePrice * FixUpThreshold, mp.priceTickSize, HalfEven);
            target == 1.0 && ScalpSellPrice(v, mp, target) == Success((13.0, 1.0))
  {
    assert RoundToInt(1.47, HalfEven) == 1;
    assert RoundToInt(14.0 / 13.0, HalfEven) == 1 by {
      assert (14.0 / 13.0).Floor == 1;
    }
  }

  // ---------------------------------------------------------------------------------
  // The fix-up pass

  /** The order id the fix-up pass obtains for one position: the market's params (none:
      the attribute access raises), then the limit sell of `FixUpSell`. */
  function FixUpOrder(v: Position, rows: seq<MarketParams>, reply: SellReply): (r: Result<int>)
    requires forall k :: 0 <= k < |rows| ==> rows[k].Valid()
  {
    match GetMarket(rows, v.market, ExchangeBinance)
    case None => Failure(AttributeError)
    case Some(mp) =>
      GetMarketValid(rows, v.market);
      FixUpSell(v, mp, reply)
  }

  /** The limit sell the fix-up pass places for a position in a market: the scalp pair at
      the threshold target, and the order id of the sell, whose `None` result cannot be
      indexed. */
  function FixUpSell(v: Position, mp: MarketParams, reply: SellReply): (r: Result<int>)
    requires mp.Valid()
  {
    var target := Quantize(v.purchasePrice * FixUpThreshold, mp.priceTickSize, HalfEven);
    match ScalpSellPrice(v, mp, target)
    case Failure(e) => Failure(e)
    case Success(pair) =>
      match LimitSell(Some(mp), pair.0, pair.1, reply)
      case Failure(e) => Failure(e)
      case Success(None) => Failure(TypeError)
      case Success(Some(receipt)) => Success(receipt.orderId)
  }

  lemma GetMarketValid(rows: seq<MarketParams>, market: string)
    requires forall k :: 0 <= k < |rows| ==> rows[k].Valid()
    ensures GetMarket(rows, market, ExchangeBinance).Some? ==> GetMarket(rows, market, ExchangeBinance).value.Valid()
  {
  }

  /** What the fix-up pass obtains for every position taken on its own. */
  function OrderIds(vs: seq<Position>, rows: seq<MarketParams>, replies: seq<SellReply>): (r: seq<Result<int>>)
    requires |vs| == |replies|
    requires forall k :: 0 <= k < |rows| ==> rows[k].Valid()
    ensures |r| == |vs|
  {
    seq(|vs|, k requires 0 <= k < |vs| => FixUpOrder(vs[k], rows, replies[k]))
  }

  /** `ids` holds what each position obtains. The trigger keeps the computation of an
      entry out of sight until that entry's own computation is at hand. */
  predicate IdsFor(vs: seq<Position>, rows: seq<MarketParams>, replies: seq<SellReply>, ids: seq<Result<int>>)
    requires |vs| == |replies|
    requires forall k :: 0 <= k < |rows| ==> rows[k].Valid()
  {
    |ids| == |vs| &&
    forall k {:trigger FixUpOrder(vs[k], rows, replies[k])} :: 0 <= k < |vs| ==> ids[k] == FixUpOrder(vs[k], rows, replies[k])
  }

  /** The state of the pass: the positions as saved so far, and the exception that ended it. */
  datatype FixUp = FixUp(views: seq<Position>, failure: Option<Error>)

  /** The pass over the first `n` positions, given what each position obtains: each gets
      its order id; the first exception ends the pass. */
  function ApplyFixUps(vs: seq<Position>, ids: seq<Result<int>>, n: nat): (r: FixUp)
    requires n <= |vs| == |ids|
    ensures |r.views| == |vs|
  {
    if n == 0 then FixUp(vs, None)
    else
      var prev := ApplyFixUps(vs, ids, n - 1);
      if prev.failure.Some? then prev
      else
        match ids[n - 1]
        case Failure(e) => prev.(failure := Some(e))
        case Success(id) => prev.(views := prev.views[n - 1 := vs[n - 1].(sellOrderId := Some(id))])
  }

  /** The fix-up pass over the first `n` positions. */
  function FixUpUpTo(vs: seq<Position>, rows: seq<MarketParams>, replies: seq<SellReply>, n: nat): (r: FixUp)
    requires n <= |vs| == |replies|
    requires forall k :: 0 <= k < |rows| ==> rows[k].Valid()
    ensures |r.views| == |vs|
  {
    ApplyFixUps(vs, OrderIds(vs, rows, replies), n)
  }

  /** One step of the pass, for a prefix that ended without exception. */
  lemma ApplyStep(vs: seq<Position>, ids: seq<Result<int>>, n: nat)
    requires n < |vs| == |ids|
    requires ApplyFixUps(vs, ids, n).failure.None?
    ensures var prev, next := ApplyFixUps(vs, ids, n), ApplyFixUps(vs, ids, n + 1);
            (ids[n].Failure? ==> next == prev.(failure := Some(ids[n].error))) &&
            (ids[n].Success? ==> next == prev.(views := prev.views[n := vs[n].(sellOrderId := Some(ids[n].value))]))
  {
  }

  /** The pass changes nothing but `sell_order_id`, and positions not yet reached are
      untouched. */
  lemma {:induction false} ApplyOnlyOrderId(vs: seq<Position>, ids: seq<Result<int>>, n: nat, k: nat)
    requires n <= |vs| == |ids| && k < |vs|
    ensures ApplyFixUps(vs, ids, n).views[k].(sellOrderId := vs[k].sellOrderId) == vs[k]
    ensures k >= n ==> ApplyFixUps(vs, ids, n).views[k] == vs[k]
  {
    if n > 0 {
      ApplyOnlyOrderId(vs, ids, n - 1, k);
      if ApplyFixUps(vs, ids, n - 1).failure.None? {
        ApplyStep(vs, ids, n - 1);
      }
    }
  }

  lemma {:induction false} ApplySetsOrder(vs: seq<Position>, ids: seq<Result<int>>, n: nat, k: nat)
    requires n <= |vs| == |ids| && k < n
    requires ApplyFixUps(vs, ids, n).failure.None?
    ensures ids[k].Success? && ApplyFixUps(vs, ids, n).views[k].sellOrderId == Some(ids[k].value)
  {
    assert ApplyFixUps(vs, ids, n - 1).failure.None?;
    ApplyStep(vs, ids, n - 1);
    if k < n - 1 {
      ApplySetsOrder(vs, ids, n - 1, k);
    } else {
      ApplyOnlyOrderId(vs, ids, n - 1, k);
    }
  }

  lemma {:induction false} ApplyFailureFinal(vs: seq<Position>, ids: seq<Result<int>>, n: nat, m: nat)
    requires n <= m <= |vs| == |ids|
    requires ApplyFixUps(vs, ids, n).failure.Some?
    ensures ApplyFixUps(vs, ids, m) == ApplyFixUps(vs, ids, n)
    decreases m - n
  {
    if m > n {
      ApplyFailureFinal(vs, ids, n, m - 1);
    }
  }

  /** The fix-up pass changes nothing but `sell_order_id`, and leaves the positions after
      an exception as they were. */
  lemma FixUpOnlyOrderId(vs: seq<Position>, rows: seq<MarketParams>, replies: seq<SellReply>, k: nat)
    requires |vs| == |replies| && k < |vs|
    requires forall j :: 0 <= j < |rows| ==> rows[j].Valid()
    ensures var fix := FixUpUpTo(vs, rows, replies, |vs|);
            fix.views[k].(sellOrderId := vs[k].sellOrderId) == vs[k]
  {
    ApplyOnlyOrderId(vs, OrderIds(vs, rows, replies), |vs|, k);
  }

  /** A pass without exception gives every position the id of the limit sell placed for
      its own scalp pair. */
  lemma FixUpSetsOrder(vs: seq<Position>, rows: seq<MarketParams>, replies: seq<SellReply>, k: nat)
    requires |vs| == |replies| && k < |vs|
    requires forall j :: 0 <= j < |rows| ==> rows[j].Valid()
    requires FixUpUpTo(vs, rows, replies, |vs|).failure.None?
    ensures FixUpOrder(vs[k], rows, replies[k]).Success?
    ensures FixUpUpTo(vs, rows, replies, |vs|).views[k].sellOrderId == Some(FixUpOrder(vs[k], rows, replies[k]).value)
  {
    ApplySetsOrder(vs, OrderIds(vs, rows, replies), |vs|, k);
  }

  lemma ApplyStopsAtFailure(vs: seq<Position>, ids: seq<Result<int>>, k: nat)
    requires k < |vs| == |ids|
    requires ApplyFixUps(vs, ids, k).failure.None? && ids[k].Failure?
    ensures ApplyFixUps(vs, ids, |vs|).failure == Some(ids[k].error)
    ensures forall j :: k <= j < |vs| ==> ApplyFixUps(vs, ids, |vs|).views[j] == vs[j]
  {
    ApplyStep(vs, ids, k);
    ApplyFailureFinal(vs, ids, k + 1, |vs|);
    forall j | k <= j < |vs| ensures ApplyFixUps(vs, ids, k).views[j] == vs[j] {
      ApplyOnlyOrderId(vs, ids, k, j);
    }
  }

  /** An exception at position `k` ends the pass with that exception, and leaves that
      position and the ones after it as they were. */
  lemma FixUpStopsAtFailure(vs: seq<Position>, rows: seq<MarketParams>, replies: seq<SellReply>, k: nat)
    requires |vs| == |replies| && k < |vs|
    requires forall j :: 0 <= j < |rows| ==> rows[j].Valid()
    requires FixUpUpTo(vs, rows, replies, k).failure.None?
    requires FixUpOrder(vs[k], rows, replies[k]).Failure?
    ensures FixUpUpTo(vs, rows, replies, |vs|).failure == Some(FixUpOrder(vs[k], rows, replies[k]).error)
    ensures forall j :: k <= j < |vs| ==> FixUpUpTo(vs, rows, replies, |vs|).views[j] == vs[j]
  {
    var ids := OrderIds(vs, rows, replies);
    assert ids[k] == FixUpOrder(vs[k], rows, replies[k]);
    ApplyStopsAtFailure(vs, ids, k);
  }

  /** One position of the pass: its `sell_order_id` is set and saved. */
  method SetOrderAt(ps: seq<LongPosition>, i: nat, id: int)
    requires Distinct(ps) && i < |ps|
    modifies ps[i]
    ensures Views(ps) == old(Views(ps))[i := old(ps[i].View()).(sellOrderId := Some(id))]
  {
    ghost var before := Views(ps);
    var p := ps[i];
    p.sellOrderId := Some(id);
    forall k | 0 <= k < |ps| ensures ps[k].View() == before[i := before[i].(sellOrderId := Some(id))][k] {
      if k != i { assert ps[k] != p; }
    }
  }

  /** `lookups` holds each position's market params. The trigger keeps a lookup out of
      sight until that lookup is at hand. */
  predicate LookupsFor(vs: seq<Position>, rows: seq<MarketParams>, lookups: seq<Option<MarketParams>>) {
    |lookups| == |vs| &&
    forall k {:trigger GetMarket(rows, vs[k].market, ExchangeBinance)} ::
      0 <= k < |vs| ==> lookups[k] == GetMarket(rows, vs[k].market, ExchangeBinance)
  }

  /** The params the fix-up loop holds before position `i`: those of the previous
      position's market (of the first position's market at the start), found. */
  predicate CachedFor(lookups: seq<Option<MarketParams>>, i: nat, params: Option<MarketParams>)
    requires i <= |lookups| && |lookups| > 0
  {
    params == lookups[if i == 0 then 0 else i - 1] && (i > 0 ==> params.Some?)
  }

  /** The positions hold the pass over the first `i` of them, which raised nothing. */
  predicate FixedUpTo(ps: seq<LongPosition>, vs: seq<Position>, ids: seq<Result<int>>, i: nat)
    reads set p | p in ps
    requires i <= |vs| == |ids|
  {
    ApplyFixUps(vs, ids, i).failure.None? && Views(ps) == ApplyFixUps(vs, ids, i).views
  }

  /** The loop state before position `i`: the pass so far, and the cached params. */
  predicate Progress(ps: seq<LongPosition>, vs: seq<Position>, ids: seq<Result<int>>,
                     lookups: seq<Option<MarketParams>>, i: nat, params: Option<MarketParams>)
    reads set p | p in ps
    requires i <= |vs| == |ids| == |lookups| && |vs| > 0
  {
    FixedUpTo(ps, vs, ids, i) && CachedFor(lookups, i, params)
  }

  /** One turn of the fix-up loop on the position at index `i`, with the params cached
      for the previous position's market: refreshed when the market differs, then the
      scalp pair, the limit sell and the saved order id. */
  method FixUpAt(ps: seq<LongPosition>, ghost vs: seq<Position>, rows: seq<MarketParams>,
                 replies: seq<SellReply>, ghost ids: seq<Result<int>>, ghost lookups: seq<Option<MarketParams>>,
                 i: nat, cached: Option<MarketParams>)
    returns (failure: Option<Error>, params: Option<MarketParams>)
    requires Distinct(ps) && |ps| == |vs| == |replies| && i < |ps|
    requires forall k :: 0 <= k < |rows| ==> rows[k].Valid()
    requires IdsFor(vs, rows, replies, ids)
    requires LookupsFor(vs, rows, lookups) && Progress(ps, vs, ids, lookups, i, cached)
    modifies ps[i]
    ensures var next := ApplyFixUps(vs, ids, i + 1);
            Views(ps) == next.views && failure == next.failure
    ensures failure.None? ==> Progress(ps, vs, ids, lookups, i + 1, params)
  {
    ApplyOnlyOrderId(vs, ids, i, i);
    ApplyStep(vs, ids, i);
    assert ids[i] == FixUpOrder(vs[i], rows, replies[i]);
    assert ps[i].View() == vs[i];
    assert lookups[i] == GetMarket(rows, vs[i].market, ExchangeBinance);
    assert lookups[if i == 0 then 0 else i - 1] == GetMarket(rows, vs[if i == 0 then 0 else i - 1].market, ExchangeBinance);
    params := cached;
    if params.None? {
      return Some(AttributeError), params;
    }
    if params.value.market != ps[i].market {
      params := GetMarket(rows, ps[i].market, ExchangeBinance);
      if params.None? {
        return Some(AttributeError), params;
      }
    }
    assert params == GetMarket(rows, vs[i].market, ExchangeBinance);
    GetMarketValid(rows, vs[i].market);
    var o := FixUpSell(ps[i].View(), params.value, replies[i]);
    if o.Failure? {
      return Some(o.error), params;
    }
    SetOrderAt(ps, i, o.value);
    return None, params;
  }

  /** The fix-up loop from the first position on, given what each position obtains, the
      params of each position's market, and the params fetched for the first position. */
  method FixUpAll(ps: seq<LongPosition>, ghost vs: seq<Position>, rows: seq<MarketParams>,
                  replies: seq<SellReply>, ghost ids: seq<Result<int>>, ghost lookups: seq<Option<MarketParams>>,
                  first: Option<MarketParams>)
    returns (failure: Option<Error>)
    requires Distinct(ps) && |ps| == |vs| == |replies| && |ps| > 0
    requires forall k :: 0 <= k < |rows| ==> rows[k].Valid()
    requires IdsFor(vs, rows, replies, ids) && LookupsFor(vs, rows, lookups)
    requires Views(ps) == vs && CachedFor(lookups, 0, first)
    modifies set p | p in ps
    ensures var fix := ApplyFixUps(vs, ids, |ps|);
            Views(ps) == fix.views && failure == fix.failure
  {
    var params := first;
    var i := 0;
    while i < |ps|
      invariant 0 <= i <= |ps|
      invariant Progress(ps, vs, ids, lookups, i, params)
    {
      var next;
      failure, next := FixUpAt(ps, vs, rows, replies, ids, lookups, i, params);
      if failure.Some? {
        ApplyFailureFinal(vs, ids, i + 1, |ps|);
        return;
      }
      params := next;
      i := i + 1;
    }
    return None;
  }

  /** The fix-up migration as written. The first position is indexed to look up its
      market's params (IndexError when there is none), and the exchange client is then
      built from `api_key` and `api_secret`, names the module neither defines nor imports:
      every run raises before the loop, and no position gets a limit sell. */
  method GenerateLimitSellsAsWritten(ps: seq<LongPosition>, rows: seq<MarketParams>, replies: seq<SellReply>)
    returns (r: Result<()>)
    requires |replies| == |ps|
    ensures r.Failure?
    ensures r.error == if |ps| == 0 then IndexError else NameError
  {
    if |ps| == 0 {
      return Failure(IndexError);
    }
    return Failure(NameError);
  }

  /** The fix-up migration as intended, with a working exchange client, over the positions
      without a limit sell, ordered by market.
      The cached market params are fetched for the first position (an empty list cannot
      be indexed) and again whenever the market changes, so that they always belong to the
      market of the position at hand; `replies` are the exchange's answers to the limit
      sells, one per position. */
  method GenerateLimitSells(ps: seq<LongPosition>, rows: seq<MarketParams>, replies: seq<SellReply>)
    returns (r: Result<()>)
    requires Distinct(ps) && |replies| == |ps|
    requires forall k :: 0 <= k < |rows| ==> rows[k].Valid()
    modifies set p | p in ps
    ensures |ps| == 0 ==> r == Failure(IndexError) && Views(ps) == old(Views(ps))
    ensures |ps| > 0 ==>
      var fix := FixUpUpTo(old(Views(ps)), rows, replies, |ps|);
      Views(ps) == fix.views && (r.Success? <==> fix.failure.None?) &&
      (r.Failure? ==> r.error == fix.failure.value)
  {
    if |ps| == 0 {
      return Failure(IndexError);
    }
    ghost var vs := Views(ps);
    var params := GetMarket(rows, ps[0].market, ExchangeBinance);
    ghost var ids := OrderIds(vs, rows, replies);
    assert IdsFor(vs, rows, replies, ids) by {
      forall k | 0 <= k < |vs| ensures ids[k] == FixUpOrder(vs[k], rows, replies[k]) {}
    }
    ghost var lookups := seq(|vs|, k requires 0 <= k < |vs| => GetMarket(rows, vs[k].market, ExchangeBinance));
    assert LookupsFor(vs, rows, lookups) by {
      forall k | 0 <= k < |vs| ensures lookups[k] == GetMarket(rows, vs[k].market, ExchangeBinance) {}
    }
    var failure := FixUpAll(ps, vs, rows, replies, ids, lookups, params);
    if failure.Some? {
      return Failure(failure.value);
    }
    return Success(());
  }
}
