/** The bot's persisted records: exchange market parameters, long positions, candles and
    the all-time watchlist. Database tables are in-memory sequences in the order a query
    returns them; a position is an object whose sell fields are updated in place. */
module Models {
  import opened Outcomes
  import opened Decimals
  import opened Sorting
  import opened Text

  /** The code Binance is stored under in `MarketParams.exchange`. */
  const ExchangeBinance: string := "B"

  /** A `MarketParams` row: the exchange's price and quantity granularity for one market.
      `multiplierUp` and `avgPriceMinutes` are the nullable PERCENT_PRICE columns. */
  datatype MarketParams = MarketParams(
    exchange: string,
    market: string,
    priceTickSize: real,
    lotStepSize: real,
    minNotional: real,
    multiplierUp: Option<real>,
    avgPriceMinutes: Option<real>)
  {
    /** Tick and lot step are positive (the exchange publishes powers of ten). */
    predicate Valid() {
      priceTickSize > 0.0 && lotStepSize > 0.0
    }
  }

  predicate Matches(row: MarketParams, market: string, exchange: string) {
    row.market == market && row.exchange == exchange
  }

  predicate NoMatchBefore(rows: seq<MarketParams>, k: int, market: string, exchange: string)
    requires 0 <= k <= |rows|
  {
    forall j :: 0 <= j < k ==> !Matches(rows[j], market, exchange)
  }

  /** `MarketParams.get_market(market, exchange)`: the first row for that market on that
      exchange, or None when there is none. */
  function GetMarket(rows: seq<MarketParams>, market: string, exchange: string): (r: Option<MarketParams>)
    ensures r.None? <==> NoMatchBefore(rows, |rows|, market, exchange)
    ensures r.Some? ==> Matches(r.value, market, exchange) && r.value in rows
  {
    if |rows| == 0 then None
    else if Matches(rows[0], market, exchange) then Some(rows[0])
    else
      var r := GetMarket(rows[1..], market, exchange);
      assert NoMatchBefore(rows, |rows|, market, exchange) <==> NoMatchBefore(rows[1..], |rows| - 1, market, exchange) by {
        forall j | 0 < j < |rows| ensures rows[j] == rows[1..][j - 1] {}
      }
      r
  }

  /** The figures the main script gathers for each watched market before its passes: the
      latest close, its moving average and their ratio. */
  datatype Metric = Metric(exchange: string, market: string, close: real, ma: real, priceToMa: real)

  /** The values of one `LongPosition` row. The sell fields are nullable. */
  datatype Position = Position(
    exchange: string,
    market: string,
    buyOrderId: int,
    buyQuantity: real,
    purchasePrice: real,
    fees: real,
    timestamp: real,
    watchlist: string,
    sellOrderId: Option<int>,
    sellPrice: Option<real>,
    sellQuantity: Option<real>,
    sellTimestamp: Option<real>,
    scalpedQuantity: Option<real>)
  {
    /** `LongPosition.spent`: what the buy cost. */
    function Spent(): real {
      buyQuantity * purchasePrice
    }

    /** Python truthiness of `position.sell_order_id`: not None and not 0. */
    predicate HasSellOrder() {
      sellOrderId.Some? && sellOrderId.value != 0
    }

    /** Python truthiness of `position.sell_price`: not None and not 0. */
    predicate HasSellPrice() {
      sellPrice.Some? && sellPrice.value != 0.0
    }
  }

  /** Dividing what was spent by the purchase price gives back the quantity bought. */
  lemma SpentPerPrice(p: Position)
    requires p.purchasePrice != 0.0
    ensures Divide(p.Spent(), p.purchasePrice) == Success(p.buyQuantity)
  {
    var d := Divide(p.Spent(), p.purchasePrice);
    assert d.value * p.purchasePrice == p.buyQuantity * p.purchasePrice;
    assert (d.value - p.buyQuantity) * p.purchasePrice == 0.0;
  }

  /** A `LongPosition` record: the purchase facts never change after creation; the sell
      fields are assigned by the sell-side passes and saved. */
  class LongPosition {
    const exchange: string
    const market: string
    const buyOrderId: int
    const buyQuantity: real
    const purchasePrice: real
    const fees: real
    const timestamp: real
    const watchlist: string
    var sellOrderId: Option<int>
    var sellPrice: Option<real>
    var sellQuantity: Option<real>
    var sellTimestamp: Option<real>
    var scalpedQuantity: Option<real>

    function View(): Position
      reads this
    {
      Position(exchange, market, buyOrderId, buyQuantity, purchasePrice, fees, timestamp, watchlist,
               sellOrderId, sellPrice, sellQuantity, sellTimestamp, scalpedQuantity)
    }

    /** `LongPosition.create(...)` after a buy: every sell field is null. */
    constructor Create(exchange: string, market: string, buyOrderId: int, buyQuantity: real,
                       purchasePrice: real, fees: real, timestamp: real, watchlist: string)
      ensures View() == Position(exchange, market, buyOrderId, buyQuantity, purchasePrice, fees,
                                 timestamp, watchlist, None, None, None, None, None)
    {
      this.exchange := exchange;
      this.market := market;
      this.buyOrderId := buyOrderId;
      this.buyQuantity := buyQuantity;
      this.purchasePrice := purchasePrice;
      this.fees := fees;
      this.timestamp := timestamp;
      this.watchlist := watchlist;
      sellOrderId := None;
      sellPrice := None;
      sellQuantity := None;
      sellTimestamp := None;
      scalpedQuantity := None;
    }
  }

  /** The values of a sequence of position objects. */
  function Views(ps: seq<LongPosition>): (r: seq<Position>)
    reads set p | p in ps
    ensures |r| == |ps|
    ensures forall i :: 0 <= i < |ps| ==> r[i] == ps[i].View()
  {
    if |ps| == 0 then [] else [ps[0].View()] + Views(ps[1..])
  }

  /** Each record object occurs at most once in a query result. */
  predicate Distinct(ps: seq<LongPosition>) {
    forall i, j :: 0 <= i < j < |ps| ==> ps[i] != ps[j]
  }

  /** Two position values that differ at most in their sell fields. */
  predicate SamePurchase(a: Position, b: Position) {
    a.exchange == b.exchange && a.market == b.market && a.buyOrderId == b.buyOrderId &&
    a.buyQuantity == b.buyQuantity && a.purchasePrice == b.purchasePrice && a.fees == b.fees &&
    a.timestamp == b.timestamp && a.watchlist == b.watchlist
  }

  /** A `Candle` row; `(market, interval, timestamp)` is its key. */
  datatype Candle = Candle(market: string, interval: int, timestamp: int, close: real)

  /** The rows of the candle query in `calculate_moving_average`: only rows that pass
      `InQuery`, and (`EligibleComplete`) every such row as often as it occurs. */
  function Eligible(table: seq<Candle>, self: Candle): (r: seq<Candle>)
    ensures forall k :: 0 <= k < |r| ==> InQuery(r[k], self)
    ensures multiset(r) <= multiset(table)
  {
    if |table| == 0 then []
    else
      var c := table[|table| - 1];
      var rest := Eligible(table[..|table| - 1], self);
      assert table == table[..|table| - 1] + [c];
      if InQuery(c, self) then rest + [c] else rest
  }

  /** The filter of that query: same market and interval, and not later than `self`. */
  predicate InQuery(c: Candle, self: Candle) {
    c.market == self.market && c.interval == self.interval && c.timestamp <= self.timestamp
  }

  /** Every row that passes the query's filter is selected, as often as it occurs in the
      table. */
  lemma {:induction false} EligibleComplete(table: seq<Candle>, self: Candle, c: Candle)
    requires InQuery(c, self)
    ensures multiset(Eligible(table, self))[c] == multiset(table)[c]
  {
    if |table| > 0 {
      var last := table[|table| - 1];
      assert table == table[..|table| - 1] + [last];
      EligibleComplete(table[..|table| - 1], self, c);
    }
  }

  /** Newest first. */
  function Age(c: Candle): real {
    -(c.timestamp as real)
  }

  /** `ORDER BY timestamp DESC LIMIT periods` over the eligible rows. */
  function Latest(table: seq<Candle>, self: Candle, periods: nat): seq<Candle> {
    var sorted := SortBy(Eligible(table, self), Age);
    sorted[..if periods < |sorted| then periods else |sorted|]
  }

  function SumCloses(cs: seq<Candle>): real {
    if |cs| == 0 then 0.0 else SumCloses(cs[..|cs| - 1]) + cs[|cs| - 1].close
  }

  /** `Candle.calculate_moving_average(periods)`: the closes of the latest `periods`
      candles summed in a loop, then divided by `periods` whatever number was found. */
  method CalculateMovingAverage(table: seq<Candle>, self: Candle, periods: nat) returns (r: Result<real>)
    ensures r == Divide(SumCloses(Latest(table, self, periods)), periods as real)
  {
    var candles := Latest(table, self, periods);
    var ma := 0.0;
    var i := 0;
    while i < |candles|
      invariant 0 <= i <= |candles|
      invariant ma == SumCloses(candles[..i])
    {
      assert candles[..i + 1][..i] == candles[..i];
      ma := ma + candles[i].close;
      i := i + 1;
    }
    assert candles[..i] == candles;
    r := Divide(ma, periods as real);
  }

  /** The averaged candles are at most `periods` of the eligible ones, and no eligible
      candle left out is newer than one taken. */
  lemma {:induction false} LatestAreNewest(table: seq<Candle>, self: Candle, periods: nat, i: nat, j: nat)
    requires i < |Latest(table, self, periods)|
    requires |Latest(table, self, periods)| <= j < |SortBy(Eligible(table, self), Age)|
    ensures |Latest(table, self, periods)| <= periods
    ensures SortBy(Eligible(table, self), Age)[j].timestamp <= Latest(table, self, periods)[i].timestamp
  {
    var sorted := SortBy(Eligible(table, self), Age);
    assert Latest(table, self, periods)[i] == sorted[i];
    assert Age(sorted[i]) <= Age(sorted[j]);
  }

  /** With fewer eligible candles than `periods`, all of them are taken, and the result
      is their sum divided by `periods`: below their mean when the closes are positive. */
  lemma ShortHistoryUnderestimates(table: seq<Candle>, self: Candle, periods: nat)
    requires |Eligible(table, self)| < periods
    requires 0 < |Eligible(table, self)|
    requires SumCloses(Eligible(table, self)) > 0.0
    ensures multiset(Latest(table, self, periods)) == multiset(Eligible(table, self))
    ensures Divide(SumCloses(Latest(table, self, periods)), periods as real).value
            < SumCloses(Latest(table, self, periods)) / (|Latest(table, self, periods)| as real)
  {
    var sorted := SortBy(Eligible(table, self), Age);
    assert Latest(table, self, periods) == sorted;
    SumClosesPermutation(sorted, Eligible(table, self));
    DivideByMore(SumCloses(sorted), |sorted| as real, periods as real);
  }

  lemma DivideByMore(s: real, n: real, m: real)
    requires s > 0.0 && 0.0 < n < m
    ensures s / m < s / n
  {
    assert (s / m) * m == s && (s / n) * n == s;
    if s / m >= s / n {
      MulStrict(n, m, s / n);
      MulMonotone(s / n, s / m, m);
    }
  }

  /** Summing closes does not depend on the order of the candles. */
  lemma {:induction false} SumClosesPermutation(a: seq<Candle>, b: seq<Candle>)
    requires multiset(a) == multiset(b)
    ensures SumCloses(a) == SumCloses(b)
    decreases |a|
  {
    if |a| > 0 {
      var k := MatchLast(a, b);
      SumClosesPermutation(a[..|a| - 1], b[..k] + b[k + 1..]);
      SumClosesRemove(b, k);
    }
  }

  /** The last element of `a` sits somewhere in a rearrangement `b` of it; taking it out
      of both leaves rearrangements of each other. */
  lemma MatchLast<T>(a: seq<T>, b: seq<T>) returns (k: nat)
    requires |a| > 0 && multiset(a) == multiset(b)
    ensures k < |b| && b[k] == a[|a| - 1]
    ensures multiset(a[..|a| - 1]) == multiset(b[..k] + b[k + 1..])
  {
    var c := a[|a| - 1];
    assert c in multiset(a);
    k :| 0 <= k < |b| && b[k] == c;
    MultisetRemove(a, |a| - 1);
    assert a[..|a| - 1] + a[|a|..] == a[..|a| - 1];
    MultisetRemove(b, k);
  }

  /** Taking the element at `k` out of a sequence takes it out of its multiset. */
  lemma MultisetRemove<T>(s: seq<T>, k: nat)
    requires k < |s|
    ensures multiset(s[..k] + s[k + 1..]) == multiset(s) - multiset{s[k]}
  {
    assert s == s[..k] + [s[k]] + s[k + 1..];
  }

  /** Taking one candle out of a sequence takes its close out of the sum. */
  lemma {:induction false} SumClosesRemove(b: seq<Candle>, k: nat)
    requires k < |b|
    ensures SumCloses(b) == SumCloses(b[..k] + b[k + 1..]) + b[k].close
    decreases |b|
  {
    var last := |b| - 1;
    if k < last {
      var b' := b[..k] + b[k + 1..];
      assert b'[..|b'| - 1] == b[..last][..k] + b[..last][k + 1..];
      assert b'[|b'| - 1] == b[last];
      SumClosesRemove(b[..last], k);
    } else {
      assert b[..k] + b[k + 1..] == b[..last];
    }
  }

  /** With `periods == 0` the query finds nothing and Decimal `0 / 0` is raised. */
  lemma ZeroPeriods(table: seq<Candle>, self: Candle)
    ensures Divide(SumCloses(Latest(table, self, 0)), 0 as real) == Failure(InvalidOperation)
  {
    assert Latest(table, self, 0) == [];
  }

  /** An `AllTimeWatchlist` row: the comma-separated cryptos ever watched on an exchange. */
  class AllTimeWatchlist {
    const exchange: string
    var watchlist: Option<string>

    constructor (exchange: string, watchlist: Option<string>)
      ensures this.exchange == exchange && this.watchlist == watchlist
    {
      this.exchange := exchange;
      this.watchlist := watchlist;
    }
  }

  /** Index of the first row for `exchange`, or `|rows|` when there is none. */
  function FirstRow(rows: seq<AllTimeWatchlist>, exchange: string): (k: nat)
    ensures k <= |rows|
    ensures k < |rows| ==> rows[k].exchange == exchange
    ensures forall j :: 0 <= j < k ==> rows[j].exchange != exchange
  {
    if |rows| == 0 then 0
    else if rows[0].exchange == exchange then 0
    else 1 + FirstRow(rows[1..], exchange)
  }

  /** `AllTimeWatchlist.get_watchlist(exchange)`: the first row's list split on commas;
      None when there is no row or its list is null (the exception is swallowed). */
  function GetWatchlist(rows: seq<AllTimeWatchlist>, exchange: string): (r: Option<seq<string>>)
    reads set w | w in rows
    ensures r.None? <==> FirstRow(rows, exchange) == |rows| || rows[FirstRow(rows, exchange)].watchlist.None?
    ensures r.Some? ==> Join(r.value) == rows[FirstRow(rows, exchange)].watchlist.value
    ensures r.Some? ==> |r.value| >= 1 && forall k :: 0 <= k < |r.value| ==> CommaFree(r.value[k])
  {
    var k := FirstRow(rows, exchange);
    if k == |rows| || rows[k].watchlist.None? then None
    else
      JoinSplit(rows[k].watchlist.value);
      Some(Split(rows[k].watchlist.value))
  }

  /** The stored list after `update_watchlist`: old and new entries, deduplicated,
      sorted and joined with commas. */
  function Merged(stored: string, watchlist: seq<string>): string {
    Join(SortedUnique(Split(stored) + watchlist))
  }

  /** `AllTimeWatchlist.update_watchlist(watchlist, exchange)`. The first row for the
      exchange must exist (`[0]` raises IndexError) and hold a list (`None.split` raises
      AttributeError); its list becomes the merged one and no other row changes. */
  method UpdateWatchlist(rows: seq<AllTimeWatchlist>, watchlist: seq<string>, exchange: string)
    returns (r: Result<()>)
    modifies set w | w in rows
    ensures var k := FirstRow(rows, exchange);
      if k == |rows| then r == Failure(IndexError)
      else if old(rows[k].watchlist).None? then r == Failure(AttributeError)
      else r == Success(()) && rows[k].watchlist == Some(Merged(old(rows[k].watchlist.value), watchlist))
    ensures forall w :: w in rows && (FirstRow(rows, exchange) == |rows| || w != rows[FirstRow(rows, exchange)]) ==>
      w.watchlist == old(w.watchlist)
    ensures r.Failure? ==> forall w :: w in rows ==> w.watchlist == old(w.watchlist)
  {
    var k := FirstRow(rows, exchange);
    if k == |rows| {
      return Failure(IndexError);
    }
    var atw := rows[k];
    if atw.watchlist.None? {
      return Failure(AttributeError);
    }
    var alltime := Split(atw.watchlist.value) + watchlist;
    atw.watchlist := Some(Join(SortedUnique(alltime)));
    r := Success(());
  }

  lemma {:induction false} ElementsAppend(a: seq<string>, b: seq<string>)
    ensures Elements(a + b) == Elements(a) + Elements(b)
  {
    var c := a + b;
    forall y | y in Elements(c) ensures y in Elements(a) + Elements(b) {
      var k :| 0 <= k < |c| && c[k] == y;
      if k >= |a| { assert b[k - |a|] == y; }
    }
    forall y | y in Elements(a) + Elements(b) ensures y in Elements(c) {
      if y in Elements(a) {
        var k :| 0 <= k < |a| && a[k] == y;
        assert c[k] == y;
      } else {
        var k :| 0 <= k < |b| && b[k] == y;
        assert c[|a| + k] == y;
      }
    }
  }

  /** Splitting the merged list gives the sorted union of the old and new entries, provided
      no new entry contains a comma: both lists are kept, so the all-time list only grows. */
  lemma {:induction false} MergedSplit(stored: string, watchlist: seq<string>)
    requires forall k :: 0 <= k < |watchlist| ==> CommaFree(watchlist[k])
    ensures Split(Merged(stored, watchlist)) == SortedUnique(Split(stored) + watchlist)
    ensures Elements(Split(Merged(stored, watchlist))) == Elements(Split(stored)) + Elements(watchlist)
  {
    var all := Split(stored) + watchlist;
    var su := SortedUnique(all);
    ElementsAppend(Split(stored), watchlist);
    assert |su| >= 1 by {
      assert Split(stored)[0] in Elements(all) by { assert all[0] == Split(stored)[0]; }
    }
    forall k | 0 <= k < |su| ensures CommaFree(su[k]) {
      assert su[k] in Elements(all);
      var j :| 0 <= j < |all| && all[j] == su[k];
      if j >= |Split(stored)| { assert watchlist[j - |Split(stored)|] == su[k]; }
    }
    SplitJoin(su);
  }

  /** Merging the same watchlist twice stores the same string as merging it once. */
  lemma {:induction false} MergedIdempotent(stored: string, watchlist: seq<string>)
    requires forall k :: 0 <= k < |watchlist| ==> CommaFree(watchlist[k])
    ensures Merged(Merged(stored, watchlist), watchlist) == Merged(stored, watchlist)
  {
    var once := Merged(stored, watchlist);
    MergedSplit(stored, watchlist);
    var su := SortedUnique(Split(stored) + watchlist);
    var again := SortedUnique(su + watchlist);
    ElementsAppend(su, watchlist);
    ElementsAppend(Split(stored), watchlist);
    StrictlySortedUnique(again, su);
  }

  /** `get_watchlist` after a successful `update_watchlist` yields the sorted union of the
      old and new entries (no new entry holding a comma). */
  lemma GetAfterUpdate(rows: seq<AllTimeWatchlist>, exchange: string, stored: string, watchlist: seq<string>)
    requires forall k :: 0 <= k < |watchlist| ==> CommaFree(watchlist[k])
    requires FirstRow(rows, exchange) < |rows|
    requires rows[FirstRow(rows, exchange)].watchlist == Some(Merged(stored, watchlist))
    ensures GetWatchlist(rows, exchange) == Some(SortedUnique(Split(stored) + watchlist))
  {
    MergedSplit(stored, watchlist);
  }
}
