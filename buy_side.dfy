/** The buy side of the main script: which watched crypto is bought next (over-positioning,
    candidate eligibility, cubic lottery entries and the weighted draw), the size of the
    market buy, and the limit sell placed right after it. */
module BuySide {
  import opened Outcomes
  import opened Decimals
  import opened Models
  import opened Binance
  import opened Scalp
  import opened Sorting
  import opened Text

  // ---------------------------------------------------------------------------------
  // Market names

  /** `market[:-len(base)]`: the market name without as many trailing characters as the
      base currency has. Python's `[:-0]` is the empty slice, and so is a slice that would
      start before the first character. */
  function StripBase(market: string, base: string): (crypto: string)
    ensures crypto <= market
    ensures |base| == 0 ==> crypto == []
    ensures |crypto| == if |base| <= |market| && |base| > 0 then |market| - |base| else 0
  {
    if |base| == 0 || |base| > |market| then [] else market[..|market| - |base|]
  }

  /** Stripping a non-empty base from a market name built with it gives the crypto back. */
  lemma StripBuilt(crypto: string, base: string)
    requires |base| > 0
    ensures StripBase(BuildMarketName(crypto, base), base) == crypto
  {
    assert (crypto + base)[..|crypto|] == crypto;
  }

  // ---------------------------------------------------------------------------------
  // Over-positioning

  /** `get_open_positions(market).count()`: the open positions in a market. */
  function Count(open: seq<Position>, market: string): (n: nat)
    ensures n <= |open|
  {
    if |open| == 0 then 0
    else Count(open[..|open| - 1], market) + (if open[|open| - 1].market == market then 1 else 0)
  }

  /** A crypto is over-positioned when positions exist and its share of them reaches the
      limit. The share is the exact ratio of the counts. */
  predicate OverPositioned(count: nat, total: nat, limit: real) {
    total > 0 && count as real / total as real >= limit
  }

  /** The share reaches the limit exactly when the count reaches the limit's fraction of
      the total. */
  lemma OverShare(count: nat, total: nat, limit: real)
    ensures OverPositioned(count, total, limit) <==> total > 0 && count as real >= limit * total as real
  {
    if total > 0 {
      var share := count as real / total as real;
      assert share * total as real == count as real;
      if share >= limit {
        MulMonotone(limit, share, total as real);
      } else {
        MulStrict(share, limit, total as real);
      }
    }
  }

  /** Under a positive limit a crypto without positions is never over-positioned, and no
      crypto is once the limit exceeds 100%. */
  lemma OverBounds(count: nat, total: nat, limit: real)
    requires count <= total && OverPositioned(count, total, limit)
    ensures limit <= 1.0
    ensures limit > 0.0 ==> count > 0
  {
    OverShare(count, total, limit);
    if limit > 1.0 {
      MulStrict(1.0, limit, total as real);
    }
    if limit > 0.0 && count == 0 {
      MulStrict(0.0, limit, total as real);
    }
  }

  /** The over-positioned cryptos of a watchlist, in watchlist order. */
  function OverList(watchlist: seq<string>, base: string, open: seq<Position>, limit: real): seq<string> {
    if |watchlist| == 0 then []
    else
      var crypto := watchlist[|watchlist| - 1];
      OverList(watchlist[..|watchlist| - 1], base, open, limit) +
        (if OverPositioned(Count(open, BuildMarketName(crypto, base)), |open|, limit) then [crypto] else [])
  }

  /** A crypto is listed exactly when it is watched and over-positioned. */
  lemma {:induction false} OverListMembers(watchlist: seq<string>, base: string, open: seq<Position>,
                                           limit: real, crypto: string)
    ensures crypto in OverList(watchlist, base, open, limit) <==>
            crypto in watchlist && OverPositioned(Count(open, BuildMarketName(crypto, base)), |open|, limit)
  {
    if |watchlist| > 0 {
      var front := watchlist[..|watchlist| - 1];
      OverListMembers(front, base, open, limit, crypto);
      assert watchlist == front + [watchlist[|watchlist| - 1]];
    }
  }

  /** The loop over the watchlist: the open-position count of each crypto, and the list of
      those that are over-positioned. */
  method FindOverPositioned(watchlist: seq<string>, base: string, open: seq<Position>, limit: real)
    returns (over: seq<string>, counts: map<string, nat>)
    ensures over == OverList(watchlist, base, open, limit)
    ensures forall crypto :: crypto in counts <==> crypto in watchlist
    ensures forall crypto :: crypto in counts ==> counts[crypto] == Count(open, BuildMarketName(crypto, base))
  {
    var total := |open|;
    over, counts := [], map[];
    var i := 0;
    while i < |watchlist|
      invariant 0 <= i <= |watchlist|
      invariant over == OverList(watchlist[..i], base, open, limit)
      invariant forall crypto :: crypto in counts <==> crypto in watchlist[..i]
      invariant forall crypto :: crypto in counts ==> counts[crypto] == Count(open, BuildMarketName(crypto, base))
    {
      var crypto := watchlist[i];
      counts := counts[crypto := Count(open, BuildMarketName(crypto, base))];
      if OverPositioned(counts[crypto], total, limit) {
        over := over + [crypto];
      }
      assert watchlist[..i + 1] == watchlist[..i] + [crypto];
      i := i + 1;
    }
    assert watchlist[..i] == watchlist;
  }

  // ---------------------------------------------------------------------------------
  // Buy candidates and lottery entries

  /** What the candidate loop filters on: the watchlist, the base currency, the
      over-positioned cryptos and the markets of the latest buys. */
  datatype Screen = Screen(watchlist: seq<string>, base: string, over: seq<string>, recent: set<string>)

  datatype Candidate = Candidate(market: string, priceToMa: real, entries: real)

  datatype Selection = Selection(candidates: seq<Candidate>, total: real)

  function PriceToMa(m: Metric): real {
    m.priceToMa
  }

  /** `{p.market for p in recent_positions}`. */
  function RecentMarkets(recent: seq<Position>): set<string> {
    set p | p in recent :: p.market
  }

  /** `max(metrics, key=price_to_ma)['price_to_ma']`. */
  function MaxRatio(metrics: seq<Metric>): (r: real)
    requires |metrics| > 0
    ensures forall m :: m in metrics ==> m.priceToMa <= r
    ensures exists m :: m in metrics && m.priceToMa == r
  {
    if |metrics| == 1 then metrics[0].priceToMa
    else
      var rest := MaxRatio(metrics[1..]);
      assert metrics == [metrics[0]] + metrics[1..];
      if metrics[0].priceToMa >= rest then metrics[0].priceToMa else rest
  }

  function Cube(x: real): real {
    x * x * x
  }

  /** Lottery entries: the distance below the highest price-to-MA ratio, in percent, cubed
      and rounded to a whole number (half-even). */
  function Entries(maxRatio: real, ratio: real): real {
    Quantize(Cube((maxRatio - ratio) * 100.0), 1.0, HalfEven)
  }

  /** Not over-positioned, and the latest buys are not all in this market. */
  predicate Eligible(crypto: string, market: string, over: seq<string>, recent: set<string>) {
    crypto !in over && (market !in recent || |recent| > 1)
  }

  /** A metric that yields a candidate: its crypto is on the watchlist and eligible. */
  predicate Selected(m: Metric, sc: Screen) {
    var crypto := StripBase(m.market, sc.base);
    crypto in sc.watchlist && Eligible(crypto, m.market, sc.over, sc.recent)
  }

  /** The candidate a metric yields. */
  function Offer(m: Metric, maxRatio: real): Candidate {
    Candidate(m.market, m.priceToMa, Entries(maxRatio, m.priceToMa))
  }

  /** The candidates from metrics in the order given. */
  function CandidatesOf(ms: seq<Metric>, maxRatio: real, sc: Screen): seq<Candidate> {
    if |ms| == 0 then []
    else
      var m := ms[|ms| - 1];
      CandidatesOf(ms[..|ms| - 1], maxRatio, sc) +
        (if Selected(m, sc) then [Offer(m, maxRatio)] else [])
  }

  /** The candidates, in ascending order of price-to-MA ratio. */
  function Candidates(metrics: seq<Metric>, sc: Screen): seq<Candidate>
    requires |metrics| > 0
  {
    CandidatesOf(SortBy(metrics, PriceToMa), MaxRatio(metrics), sc)
  }

  function TotalEntries(cs: seq<Candidate>): real {
    if |cs| == 0 then 0.0 else TotalEntries(cs[..|cs| - 1]) + cs[|cs| - 1].entries
  }

  /** The loop over the metrics sorted by ratio: the candidates and the sum of their
      entries. `max` of no metrics raises. */
  method SelectCandidates(metrics: seq<Metric>, sc: Screen) returns (r: Result<Selection>)
    ensures |metrics| == 0 ==> r == Failure(ValueError)
    ensures |metrics| > 0 ==> r == Success(Selection(Candidates(metrics, sc), TotalEntries(Candidates(metrics, sc))))
  {
    if |metrics| == 0 {
      return Failure(ValueError);
    }
    var candidates, total := Collect(SortBy(metrics, PriceToMa), MaxRatio(metrics), sc);
    return Success(Selection(candidates, total));
  }

  /** The candidate loop over the ratio-sorted metrics, summing the entries as it goes. */
  method Collect(sorted: seq<Metric>, maxRatio: real, sc: Screen) returns (candidates: seq<Candidate>, total: real)
    ensures candidates == CandidatesOf(sorted, maxRatio, sc)
    ensures total == TotalEntries(candidates)
  {
    candidates, total := [], 0.0;
    var i := 0;
    while i < |sorted|
      invariant 0 <= i <= |sorted|
      invariant candidates == CandidatesOf(sorted[..i], maxRatio, sc)
      invariant total == TotalEntries(candidates)
    {
      var m := sorted[i];
      assert sorted[..i + 1] == sorted[..i] + [m];
      CandidatesSnoc(sorted[..i], m, maxRatio, sc);
      var crypto := StripBase(m.market, sc.base);
      if crypto in sc.watchlist && Eligible(crypto, m.market, sc.over, sc.recent) {
        var c := Offer(m, maxRatio);
        TotalSnoc(candidates, c);
        total := total + c.entries;
        candidates := candidates + [c];
      }
      i := i + 1;
    }
    assert sorted[..i] == sorted;
  }

  lemma CandidatesSnoc(ms: seq<Metric>, m: Metric, maxRatio: real, sc: Screen)
    ensures CandidatesOf(ms + [m], maxRatio, sc) ==
            CandidatesOf(ms, maxRatio, sc) + (if Selected(m, sc) then [Offer(m, maxRatio)] else [])
  {
    assert (ms + [m])[..|ms|] == ms;
  }

  lemma TotalSnoc(cs: seq<Candidate>, c: Candidate)
    ensures TotalEntries(cs + [c]) == TotalEntries(cs) + c.entries
  {
    assert (cs + [c])[..|cs|] == cs;
  }

  /** Each candidate comes from a selected metric: its market and ratio, and the entries of
      that ratio. */
  lemma {:induction false} CandidateFrom(ms: seq<Metric>, maxRatio: real, sc: Screen, k: nat) returns (m: Metric)
    requires k < |CandidatesOf(ms, maxRatio, sc)|
    ensures m in ms && Selected(m, sc) && CandidatesOf(ms, maxRatio, sc)[k] == Offer(m, maxRatio)
  {
    var front := ms[..|ms| - 1];
    if k < |CandidatesOf(front, maxRatio, sc)| {
      m := CandidateFrom(front, maxRatio, sc, k);
      assert m in ms;
    } else {
      m := ms[|ms| - 1];
    }
  }

  /** Every selected metric gives a candidate with its market and ratio. */
  lemma {:induction false} SelectedIsCandidate(ms: seq<Metric>, maxRatio: real, sc: Screen, m: Metric) returns (k: nat)
    requires m in ms && Selected(m, sc)
    ensures k < |CandidatesOf(ms, maxRatio, sc)| && CandidatesOf(ms, maxRatio, sc)[k] == Offer(m, maxRatio)
  {
    var front := ms[..|ms| - 1];
    var cs := CandidatesOf(ms, maxRatio, sc);
    if m == ms[|ms| - 1] {
      k := |cs| - 1;
    } else {
      assert ms == front + [ms[|ms| - 1]];
      k := SelectedIsCandidate(front, maxRatio, sc, m);
      assert cs[k] == CandidatesOf(front, maxRatio, sc)[k];
    }
  }

  /** The selected metric a candidate comes from. */
  lemma CandidateSource(metrics: seq<Metric>, sc: Screen, k: nat) returns (m: Metric)
    requires |metrics| > 0 && k < |Candidates(metrics, sc)|
    ensures m in metrics && Selected(m, sc) && Candidates(metrics, sc)[k] == Offer(m, MaxRatio(metrics))
  {
    var sorted := SortBy(metrics, PriceToMa);
    m := CandidateFrom(sorted, MaxRatio(metrics), sc, k);
    assert m in multiset(sorted);
  }

  /** `c` is the candidate of a selected metric. */
  ghost predicate Offered(metrics: seq<Metric>, sc: Screen, c: Candidate)
    requires |metrics| > 0
  {
    exists m :: m in metrics && Selected(m, sc) && c == Offer(m, MaxRatio(metrics))
  }

  /** Every candidate comes from a selected metric. */
  lemma CandidatesFromSelected(metrics: seq<Metric>, sc: Screen)
    requires |metrics| > 0
    ensures forall c :: c in Candidates(metrics, sc) ==> Offered(metrics, sc, c)
  {
    forall c | c in Candidates(metrics, sc) ensures Offered(metrics, sc, c) {
      var k :| 0 <= k < |Candidates(metrics, sc)| && Candidates(metrics, sc)[k] == c;
      var m := CandidateSource(metrics, sc, k);
    }
  }

  /** Every selected metric is a candidate. */
  lemma SelectedAreCandidates(metrics: seq<Metric>, sc: Screen)
    requires |metrics| > 0
    ensures forall m :: m in metrics && Selected(m, sc) ==> Offer(m, MaxRatio(metrics)) in Candidates(metrics, sc)
  {
    forall m | m in metrics && Selected(m, sc) ensures Offer(m, MaxRatio(metrics)) in Candidates(metrics, sc) {
      var k := CandidateOfSelected(metrics, sc, m);
    }
  }

  /** Where a selected metric's candidate is. */
  lemma CandidateOfSelected(metrics: seq<Metric>, sc: Screen, m: Metric) returns (k: nat)
    requires m in metrics && Selected(m, sc)
    ensures k < |Candidates(metrics, sc)| && Candidates(metrics, sc)[k] == Offer(m, MaxRatio(metrics))
  {
    var sorted := SortBy(metrics, PriceToMa);
    assert m in multiset(metrics);
    k := SelectedIsCandidate(sorted, MaxRatio(metrics), sc, m);
  }

  /** Cubing keeps the order of non-negative numbers. */
  lemma CubeMonotone(a: real, b: real)
    requires 0.0 <= a <= b
    ensures 0.0 <= Cube(a) <= Cube(b)
  {
    MulMonotone(a, b, a);
    MulMonotone(a, b, b);
    assert a * a <= b * b;
    MulMonotone(0.0, a * a, a);
    MulMonotone(a * a, b * b, a);
    MulMonotone(a, b, b * b);
  }

  /** Entries never go negative for a ratio at or below the maximum, and a higher ratio
      never gets more entries. */
  lemma EntriesAntitone(maxRatio: real, a: real, b: real)
    requires a <= b <= maxRatio
    ensures 0.0 <= Entries(maxRatio, b) <= Entries(maxRatio, a)
  {
    var db, da := (maxRatio - b) * 100.0, (maxRatio - a) * 100.0;
    CubeMonotone(db, da);
    QuantizeMonotone(Cube(db), Cube(da), 1.0, HalfEven);
    QuantizeNonNegative(Cube(db), 1.0, HalfEven);
  }

  /** The market with the highest ratio gets no entries. */
  lemma TopRatioNoEntries(ratio: real)
    ensures Entries(ratio, ratio) == 0.0
  {
    assert Cube((ratio - ratio) * 100.0) == 0.0;
    assert OnGrid(0.0, 1.0);
    QuantizeExact(0.0, 1.0, HalfEven);
  }

  /** Candidates from ratio-sorted metrics are in ascending ratio order. */
  lemma {:induction false} CandidatesSorted(ms: seq<Metric>, maxRatio: real, sc: Screen)
    requires SortedBy(ms, PriceToMa)
    ensures forall i, j :: 0 <= i < j < |CandidatesOf(ms, maxRatio, sc)| ==>
      CandidatesOf(ms, maxRatio, sc)[i].priceToMa <= CandidatesOf(ms, maxRatio, sc)[j].priceToMa
  {
    if |ms| > 0 {
      var front := ms[..|ms| - 1];
      var last := ms[|ms| - 1];
      assert SortedBy(front, PriceToMa);
      CandidatesSorted(front, maxRatio, sc);
      var fc := CandidatesOf(front, maxRatio, sc);
      var cs := CandidatesOf(ms, maxRatio, sc);
      forall i | 0 <= i < |fc| ensures fc[i].priceToMa <= last.priceToMa {
        var m := CandidateFrom(front, maxRatio, sc, i);
        var p :| 0 <= p < |front| && front[p] == m;
        assert ms[p] == m;
      }
      forall i, j | 0 <= i < j < |cs| ensures cs[i].priceToMa <= cs[j].priceToMa {
        if j < |fc| {
          assert cs[i] == fc[i] && cs[j] == fc[j];
        } else {
          assert cs[i] == fc[i] && cs[j].priceToMa == last.priceToMa;
        }
      }
    }
  }

  /** Every candidate has a non-negative number of entries, and the entries never increase
      along the candidate list: the lower the ratio, the more entries. */
  lemma EntriesOrdered(metrics: seq<Metric>, sc: Screen)
    requires |metrics| > 0
    ensures forall i, j :: 0 <= i <= j < |Candidates(metrics, sc)| ==>
      0.0 <= Candidates(metrics, sc)[j].entries <= Candidates(metrics, sc)[i].entries
  {
    var sorted := SortBy(metrics, PriceToMa);
    var maxRatio := MaxRatio(metrics);
    var cs := CandidatesOf(sorted, maxRatio, sc);
    assert cs == Candidates(metrics, sc);
    CandidatesSorted(sorted, maxRatio, sc);
    forall i, j | 0 <= i <= j < |cs| ensures 0.0 <= cs[j].entries <= cs[i].entries {
      CandidateAt(metrics, sc, i);
      CandidateAt(metrics, sc, j);
      EntriesAntitone(maxRatio, cs[i].priceToMa, cs[j].priceToMa);
    }
  }

  /** A candidate's ratio is at most the highest ratio, and its entries are those of its
      ratio, never negative. */
  lemma CandidateAt(metrics: seq<Metric>, sc: Screen, k: nat)
    requires |metrics| > 0 && k < |Candidates(metrics, sc)|
    ensures var c := Candidates(metrics, sc)[k];
            c.priceToMa <= MaxRatio(metrics) && c.entries == Entries(MaxRatio(metrics), c.priceToMa) && c.entries >= 0.0
  {
    var m := CandidateSource(metrics, sc, k);
    EntriesAntitone(MaxRatio(metrics), m.priceToMa, m.priceToMa);
  }

  /** With no negative entries, the total is zero exactly when every candidate has none. */
  lemma {:induction false} TotalZero(cs: seq<Candidate>)
    requires forall k :: 0 <= k < |cs| ==> cs[k].entries >= 0.0
    ensures TotalEntries(cs) >= 0.0
    ensures TotalEntries(cs) == 0.0 <==> forall k :: 0 <= k < |cs| ==> cs[k].entries == 0.0
  {
    if |cs| > 0 {
      var front := cs[..|cs| - 1];
      TotalZero(front);
      if TotalEntries(cs) == 0.0 {
        forall k | 0 <= k < |cs| ensures cs[k].entries == 0.0 {
          if k < |front| { assert cs[k] == front[k]; }
        }
      }
    }
  }

  // ---------------------------------------------------------------------------------
  // The lottery

  /** Each candidate's share of the entries (`random.choices` weights). */
  function Shares(cs: seq<Candidate>, total: real): (ws: seq<real>)
    requires total != 0.0
    ensures |ws| == |cs|
    ensures forall k :: 0 <= k < |cs| ==> ws[k] * total == cs[k].entries
  {
    if |cs| == 0 then []
    else Shares(cs[..|cs| - 1], total) + [cs[|cs| - 1].entries / total]
  }

  /** The loop that lists the weights: each is a Decimal division by the total, which
      raises at the first candidate when the total is zero. */
  method LotteryWeights(cs: seq<Candidate>, total: real) returns (r: Result<seq<real>>)
    ensures total == 0.0 && |cs| > 0 ==> r == Failure(if cs[0].entries == 0.0 then InvalidOperation else DivisionByZero)
    ensures |cs| == 0 ==> r == Success([])
    ensures total != 0.0 ==> r == Success(Shares(cs, total))
  {
    var weights: seq<real> := [];
    var i := 0;
    while i < |cs|
      invariant 0 <= i <= |cs|
      invariant i > 0 ==> total != 0.0
      invariant i == 0 ==> weights == []
      invariant total != 0.0 ==> weights == Shares(cs[..i], total)
    {
      var w := Divide(cs[i].entries, total);
      if w.Failure? {
        return Failure(w.error);
      }
      weights := weights + [w.value];
      assert cs[..i + 1][..i] == cs[..i];
      i := i + 1;
    }
    assert cs[..i] == cs;
    return Success(weights);
  }

  /** The shares add up to one. */
  lemma WeightsSumToOne(cs: seq<Candidate>, total: real)
    requires total == TotalEntries(cs) && total != 0.0
    ensures Cumulative(Shares(cs, total), |cs|) == 1.0
  {
    var ws := Shares(cs, total);
    ScaledSum(cs, ws, total, |cs|);
    assert cs[..|cs|] == cs;
    UnitSum(Cumulative(ws, |cs|), total, TotalEntries(cs[..|cs|]));
  }

  /** A sum that scales to the total it was divided by is one. */
  lemma UnitSum(sum: real, total: real, scaled: real)
    requires sum * total == scaled && scaled == total && total != 0.0
    ensures sum == 1.0
  {
    Cancel(sum, 1.0, total);
  }

  /** A non-zero factor cancels. */
  lemma Cancel(a: real, b: real, c: real)
    requires a * c == b * c && c != 0.0
    ensures a == b
  {
    assert (a - b) * c == 0.0;
  }

  lemma {:induction false} ScaledSum(cs: seq<Candidate>, ws: seq<real>, total: real, n: nat)
    requires n <= |cs| == |ws|
    requires forall k :: 0 <= k < |cs| ==> ws[k] * total == cs[k].entries
    ensures Cumulative(ws, n) * total == TotalEntries(cs[..n])
  {
    if n > 0 {
      ScaledSum(cs, ws, total, n - 1);
      ScaledStep(cs, ws, total, n);
    }
  }

  lemma ScaledStep(cs: seq<Candidate>, ws: seq<real>, total: real, n: nat)
    requires 0 < n <= |cs| == |ws| && ws[n - 1] * total == cs[n - 1].entries
    requires Cumulative(ws, n - 1) * total == TotalEntries(cs[..n - 1])
    ensures Cumulative(ws, n) * total == TotalEntries(cs[..n])
  {
    assert cs[..n][..n - 1] == cs[..n - 1];
    assert TotalEntries(cs[..n]) == TotalEntries(cs[..n - 1]) + cs[n - 1].entries;
    SumStep(Cumulative(ws, n - 1), ws[n - 1], total, TotalEntries(cs[..n - 1]), cs[n - 1].entries);
  }

  lemma SumStep(a: real, w: real, t: real, sum: real, e: real)
    requires a * t == sum && w * t == e
    ensures (a + w) * t == sum + e
  {
  }

  /** The sum of the first `n` weights. */
  function Cumulative(ws: seq<real>, n: nat): real
    requires n <= |ws|
  {
    if n == 0 then 0.0 else Cumulative(ws, n - 1) + ws[n - 1]
  }

  /** `bisect(cum_weights, x, 0, len - 1)`: the first index, below the last, whose running
      total exceeds `x`, or the last index. */
  function Bisect(ws: seq<real>, x: real, i: nat): (k: nat)
    requires i < |ws|
    ensures i <= k < |ws|
    decreases |ws| - i
  {
    if i == |ws| - 1 || Cumulative(ws, i + 1) > x then i else Bisect(ws, x, i + 1)
  }

  /** `random.choices(population, weights)[0]` with the random draw `u` in [0, 1) given:
      the index whose cumulative-weight interval holds `u` times the total weight. */
  function Draw(ws: seq<real>, u: real): (k: nat)
    requires |ws| > 0
    ensures k < |ws|
  {
    Bisect(ws, u * Cumulative(ws, |ws|), 0)
  }

  lemma {:induction false} BisectLands(ws: seq<real>, x: real, i: nat)
    requires i < |ws| && Cumulative(ws, i) <= x
    ensures var k := Bisect(ws, x, i);
            Cumulative(ws, k) <= x && (k < |ws| - 1 ==> Cumulative(ws, k + 1) > x)
    decreases |ws| - i
  {
    if !(i == |ws| - 1 || Cumulative(ws, i + 1) > x) {
      BisectLands(ws, x, i + 1);
    }
  }

  /** With non-negative weights of positive total, the draw never picks a weight of zero. */
  lemma DrawPicksPositive(ws: seq<real>, u: real)
    requires |ws| > 0 && 0.0 <= u < 1.0
    requires forall k :: 0 <= k < |ws| ==> ws[k] >= 0.0
    requires Cumulative(ws, |ws|) > 0.0
    ensures ws[Draw(ws, u)] > 0.0
  {
    var total := Cumulative(ws, |ws|);
    MulMonotone(0.0, u, total);
    MulStrict(u, 1.0, total);
    BisectLands(ws, u * Cumulative(ws, |ws|), 0);
    var k := Draw(ws, u);
    assert Cumulative(ws, k + 1) > u * total by {
      if k == |ws| - 1 { assert k + 1 == |ws|; }
    }
  }


  /** With a positive total and no negative entries, the draw lands on a candidate with
      entries: one without is never bought. */
  lemma DrawnHasEntries(cs: seq<Candidate>, total: real, u: real)
    requires |cs| > 0 && 0.0 <= u < 1.0 && total > 0.0 && Cumulative(Shares(cs, total), |cs|) == 1.0
    requires forall k :: 0 <= k < |cs| ==> cs[k].entries >= 0.0
    ensures cs[Draw(Shares(cs, total), u)].entries > 0.0
  {
    var ws := Shares(cs, total);
    forall k | 0 <= k < |ws| ensures ws[k] >= 0.0 {
      FactorNonNegative(ws[k], total, cs[k].entries);
    }
    DrawPicksPositive(ws, u);
    var k := Draw(ws, u);
    MulStrict(0.0, ws[k], total);
  }

  lemma FactorNonNegative(w: real, total: real, e: real)
    requires w * total == e && e >= 0.0 && total > 0.0
    ensures w >= 0.0
  {
    if w < 0.0 {
      MulStrict(w, 0.0, total);
    }
  }

  /** `next(metric for metric in metrics if metric['market'] == market)`. */
  function FirstWithMarket(metrics: seq<Metric>, market: string): (r: Option<Metric>)
    ensures r.None? <==> forall m :: m in metrics ==> m.market != market
    ensures r.Some? ==> r.value in metrics && r.value.market == market
    ensures r.Some? ==> exists k :: 0 <= k < |metrics| && metrics[k] == r.value &&
                                    forall j :: 0 <= j < k ==> metrics[j].market != market
  {
    if |metrics| == 0 then None
    else if metrics[0].market == market then Some(metrics[0])
    else
      var r := FirstWithMarket(metrics[1..], market);
      assert forall k :: 0 < k < |metrics| ==> metrics[k] == metrics[1..][k - 1];
      r
  }

  /** The draw among the candidates and the search for the drawn market's metric: no
      candidate means nothing to buy, and no entries at all make the first weight divide
      by a zero total. */
  function Lottery(metrics: seq<Metric>, cs: seq<Candidate>, u: real): Result<Option<Metric>> {
    if |cs| == 0 then Success(None)
    else
      var total := TotalEntries(cs);
      if total == 0.0 then Failure(if cs[0].entries == 0.0 then InvalidOperation else DivisionByZero)
      else
        match FirstWithMarket(metrics, cs[Draw(Shares(cs, total), u)].market)
        case None => Failure(StopIteration)
        case Some(m) => Success(Some(m))
  }

  /** When every candidate's market has a metric, the search never runs dry, and what is
      found is the metric of a candidate with entries. */
  lemma LotteryPicks(metrics: seq<Metric>, cs: seq<Candidate>, u: real)
    requires 0.0 <= u < 1.0
    requires forall k :: 0 <= k < |cs| ==> cs[k].entries >= 0.0
    requires forall k :: 0 <= k < |cs| ==> FirstWithMarket(metrics, cs[k].market).Some?
    ensures Lottery(metrics, cs, u) != Failure(StopIteration)
    ensures var r := Lottery(metrics, cs, u);
            r.Success? && r.value.Some? ==>
              exists k :: 0 <= k < |cs| && cs[k].entries > 0.0 && r.value == FirstWithMarket(metrics, cs[k].market)
  {
    if |cs| > 0 && TotalEntries(cs) != 0.0 {
      DrawnShare(cs, u);
    }
  }

  /** The candidate the shares draw has entries. */
  lemma DrawnShare(cs: seq<Candidate>, u: real)
    requires |cs| > 0 && 0.0 <= u < 1.0 && TotalEntries(cs) != 0.0
    requires forall k :: 0 <= k < |cs| ==> cs[k].entries >= 0.0
    ensures cs[Draw(Shares(cs, TotalEntries(cs)), u)].entries > 0.0
  {
    var total := TotalEntries(cs);
    TotalZero(cs);
    WeightsSumToOne(cs, total);
    DrawnHasEntries(cs, total, u);
  }

  /** The draw as the script runs it: the weights loop, `random.choices` and `next`. */
  method DrawTarget(metrics: seq<Metric>, cs: seq<Candidate>, total: real, u: real)
    returns (r: Result<Option<Metric>>)
    requires total == TotalEntries(cs)
    ensures r == Lottery(metrics, cs, u)
  {
    if |cs| == 0 {
      return Success(None);
    }
    var weights := LotteryWeights(cs, total);
    if weights.Failure? {
      return Failure(weights.error);
    }
    var target := FirstWithMarket(metrics, cs[Draw(weights.value, u)].market);
    if target.None? {
      return Failure(StopIteration);
    }
    return Success(target);
  }

  // ---------------------------------------------------------------------------------
  // Choosing the market

  /** The filter of a run: the over-positioned cryptos of the watchlist and the markets of
      the latest buys. */
  function ScreenFor(watchlist: seq<string>, base: string, open: seq<Position>, recent: seq<Position>,
                     limit: real): Screen
  {
    Screen(watchlist, base, OverList(watchlist, base, open, limit), RecentMarkets(recent))
  }

  /** The whole selection: `max` of no metrics raises, then the lottery among the
      candidates. */
  function Target(metrics: seq<Metric>, watchlist: seq<string>, base: string, open: seq<Position>,
                  recent: seq<Position>, limit: real, u: real): Result<Option<Metric>>
  {
    if |metrics| == 0 then Failure(ValueError)
    else Lottery(metrics, Candidates(metrics, ScreenFor(watchlist, base, open, recent, limit)), u)
  }

  /** Every candidate has no negative entries, and the first metric of its market is a
      selected one. */
  lemma CandidateMarkets(metrics: seq<Metric>, sc: Screen)
    requires |metrics| > 0
    ensures forall k :: 0 <= k < |Candidates(metrics, sc)| ==>
      var c := Candidates(metrics, sc)[k];
      c.entries >= 0.0 && FirstWithMarket(metrics, c.market).Some? && Selected(FirstWithMarket(metrics, c.market).value, sc)
  {
    var cs := Candidates(metrics, sc);
    forall k | 0 <= k < |cs|
      ensures cs[k].entries >= 0.0 && FirstWithMarket(metrics, cs[k].market).Some?
      ensures Selected(FirstWithMarket(metrics, cs[k].market).value, sc)
    {
      var m := CandidateSource(metrics, sc, k);
      CandidateAt(metrics, sc, k);
      assert m.market == cs[k].market;
    }
  }

  /** The market chosen is always found, is a watched and eligible one, and is the market
      of a candidate with entries. */
  lemma TargetIsEligible(metrics: seq<Metric>, watchlist: seq<string>, base: string, open: seq<Position>,
                         recent: seq<Position>, limit: real, u: real)
    requires 0.0 <= u < 1.0
    ensures Target(metrics, watchlist, base, open, recent, limit, u) != Failure(StopIteration)
    ensures var r := Target(metrics, watchlist, base, open, recent, limit, u);
            r.Success? && r.value.Some? ==>
              var sc := ScreenFor(watchlist, base, open, recent, limit);
              r.value.value in metrics && Selected(r.value.value, sc) &&
              exists c :: c in Candidates(metrics, sc) && c.market == r.value.value.market && c.entries > 0.0
  {
    if |metrics| > 0 {
      var sc := ScreenFor(watchlist, base, open, recent, limit);
      var cs := Candidates(metrics, sc);
      CandidateMarkets(metrics, sc);
      LotteryPicks(metrics, cs, u);
      var r := Lottery(metrics, cs, u);
      if r.Success? && r.value.Some? {
        var k :| 0 <= k < |cs| && cs[k].entries > 0.0 && r.value == FirstWithMarket(metrics, cs[k].market);
        assert cs[k] in cs;
      }
    }
  }

  /** The selection as the script runs it: its loops, then the draw. */
  method ChooseTarget(metrics: seq<Metric>, watchlist: seq<string>, base: string, open: seq<Position>,
                      recent: seq<Position>, limit: real, u: real)
    returns (r: Result<Option<Metric>>)
    ensures r == Target(metrics, watchlist, base, open, recent, limit, u)
  {
    var over, counts := FindOverPositioned(watchlist, base, open, limit);
    var selection := SelectCandidates(metrics, Screen(watchlist, base, over, RecentMarkets(recent)));
    if selection.Failure? {
      return Failure(selection.error);
    }
    r := DrawTarget(metrics, selection.value.candidates, selection.value.total, u);
  }

  // ---------------------------------------------------------------------------------
  // The order size

  /** `buy_amount / current_price` on the lot step (half-even), one lot step more when that
      is worth less than the minimum notional; the division raises on a zero price. */
  function OrderSize(buyAmount: real, ask: real, mp: MarketParams): Result<real>
    requires mp.Valid()
  {
    match Divide(buyAmount, ask)
    case Failure(e) => Failure(e)
    case Success(quantity) => Success(Sized(quantity, ask, mp.lotStepSize, mp.minNotional))
  }

  /** A quantity on the lot step, bumped by one step when it is worth less than the
      minimum notional at `price`. */
  function Sized(quantity: real, price: real, step: real, minNotional: real): real
    requires step > 0.0
  {
    var q := Quantize(quantity, step, HalfEven);
    if q * price < minNotional then q + step else q
  }

  /** The sized quantity is a multiple of the step, within half a step below and one and a
      half steps above the quantity, and worth at least the minimum notional whenever the
      quantity itself is. */
  lemma SizedBounds(quantity: real, price: real, step: real, minNotional: real)
    requires step > 0.0 && price > 0.0
    ensures var q := Sized(quantity, price, step, minNotional);
            OnGrid(q, step) && quantity - step / 2.0 <= q <= quantity + 3.0 * step / 2.0 &&
            (quantity * price >= minNotional ==> q * price >= minNotional)
  {
    var q := Quantize(quantity, step, HalfEven);
    QuantizeOnGrid(quantity, step, HalfEven);
    QuantizeBounds(quantity, step, HalfEven);
    if q * price < minNotional {
      StepOnGrid(step);
      GridAdd(q, step, step);
      MulMonotone(quantity, q + step, price);
    }
  }

  /** The sized quantity is on the step grid for any price, so the market buy's own
      quantize to the lot step sends it unchanged. */
  lemma SizedOnGrid(quantity: real, price: real, step: real, minNotional: real)
    requires step > 0.0
    ensures Quantize(Sized(quantity, price, step, minNotional), step, HalfEven) == Sized(quantity, price, step, minNotional)
  {
    var q := Quantize(quantity, step, HalfEven);
    QuantizeOnGrid(quantity, step, HalfEven);
    if q * price < minNotional {
      StepOnGrid(step);
      GridAdd(q, step, step);
    }
    QuantizeExact(Sized(quantity, price, step, minNotional), step, HalfEven);
  }

  /** The order size is a multiple of the lot step, within half a step below and one and a
      half steps above the exact quantity; a buy amount of at least the minimum notional is
      always enough for the exchange's minimum. */
  lemma OrderSizeBounds(buyAmount: real, ask: real, mp: MarketParams)
    requires mp.Valid() && ask > 0.0
    ensures OrderSize(buyAmount, ask, mp).Success?
    ensures var q := OrderSize(buyAmount, ask, mp).value;
            var step := mp.lotStepSize;
            OnGrid(q, step) &&
            buyAmount / ask - step / 2.0 <= q <= buyAmount / ask + 3.0 * step / 2.0 &&
            (buyAmount >= mp.minNotional ==> q * ask >= mp.minNotional)
  {
    var quantity := buyAmount / ask;
    assert quantity * ask == buyAmount;
    SizedBounds(quantity, ask, mp.lotStepSize, mp.minNotional);
  }

  /** One extra step is not always enough: 1 of a 10-minimum market at price 1 is sized 2. */
  lemma OneStepShort()
    ensures var mp := MarketParams(ExchangeBinance, "XBTC", 0.01, 1.0, 10.0, None, None);
            OrderSize(1.0, 1.0, mp) == Success(2.0) && 2.0 * 1.0 < mp.minNotional
  {
    var mp := MarketParams(ExchangeBinance, "XBTC", 0.01, 1.0, 10.0, None, None);
    assert OnGrid(1.0, 1.0);
    QuantizeExact(1.0, 1.0, HalfEven);
  }

  // ---------------------------------------------------------------------------------
  // The first limit sell

  /** `(purchase_price * profit_threshold)` rounded up to the tick. */
  function MinProfit(purchasePrice: real, threshold: real, tick: real): real
    requires tick > 0.0
  {
    Quantize(purchasePrice * threshold, tick, Up)
  }

  /** The first target: the midpoint of the moving average and the minimum profitable
      price, rounded up to the tick, but never below that minimum. */
  function InitialTarget(purchasePrice: real, ma: real, threshold: real, tick: real): real
    requires tick > 0.0
  {
    var minProfit := MinProfit(purchasePrice, threshold, tick);
    var target := Quantize((ma + minProfit) / 2.0, tick, Up);
    if target < minProfit then minProfit else target
  }

  /** The first target is on the tick grid and at least the minimum profitable price. With
      the average at or below that minimum it is the minimum; otherwise it is the midpoint
      rounded up, less than one tick above it. */
  lemma InitialTargetBounds(purchasePrice: real, ma: real, threshold: real, tick: real)
    requires tick > 0.0 && purchasePrice >= 0.0 && threshold >= 0.0
    ensures var minProfit := MinProfit(purchasePrice, threshold, tick);
            var target := InitialTarget(purchasePrice, ma, threshold, tick);
            var mid := (ma + minProfit) / 2.0;
            minProfit <= target && OnGrid(target, tick) &&
            (ma <= minProfit ==> target == minProfit) &&
            (ma >= minProfit ==> mid <= target < mid + tick)
  {
    var minProfit := MinProfit(purchasePrice, threshold, tick);
    var mid := (ma + minProfit) / 2.0;
    MulMonotone(0.0, purchasePrice, threshold);
    QuantizeNonNegative(purchasePrice * threshold, tick, Up);
    QuantizeOnGrid(purchasePrice * threshold, tick, Up);
    QuantizeOnGrid(mid, tick, Up);
    QuantizeExact(minProfit, tick, Up);
    if ma <= minProfit {
      QuantizeMonotone(mid, minProfit, tick, Up);
    } else {
      QuantizeBounds(mid, tick, Up);
    }
  }

  /** A position after its first limit sell, and the exception that ended the run. */
  datatype Listing = Listing(view: Position, failure: Option<Error>)

  /** The first limit sell as written: the scalp pair at the first target is sent, the
      progress line divides by the purchase price, and the reply is indexed without a
      check, so a tolerated rejection (None) raises. */
  function InitialSellAsWritten(v: Position, mp: MarketParams, ma: real, threshold: real, reply: SellReply): (r: Listing)
    requires mp.Valid()
  {
    var target := InitialTarget(v.purchasePrice, ma, threshold, mp.priceTickSize);
    match ScalpSellPrice(v, mp, target)
    case Failure(e) => Listing(v, Some(e))
    case Success(pair) =>
      match LimitSell(Some(mp), pair.0, pair.1, reply)
      case Failure(e) => Listing(v, Some(e))
      case Success(result) =>
        match Divide(pair.1, v.purchasePrice)
        case Failure(e) => Listing(v, Some(e))
        case Success(_) =>
          if result.None? then Listing(v, Some(TypeError))
          else Listing(v.(sellOrderId := Some(result.value.orderId), sellPrice := Some(result.value.price)), None)
  }

  /** A rejection that `limit_sell` tolerates (PERCENT_PRICE, say) makes the first limit
      sell raise after the buy: the new position is left without an order. */
  lemma RejectedInitialSellRaises(v: Position, mp: MarketParams, ma: real, threshold: real, message: string)
    requires mp.Valid() && v.purchasePrice != 0.0 && Tolerated(message)
    requires ScalpSellPrice(v, mp, InitialTarget(v.purchasePrice, ma, threshold, mp.priceTickSize)).Success?
    ensures InitialSellAsWritten(v, mp, ma, threshold, SellRejected(message)) == Listing(v, Some(TypeError))
  {
    var pair := ScalpSellPrice(v, mp, InitialTarget(v.purchasePrice, ma, threshold, mp.priceTickSize)).value;
    assert Divide(pair.1, v.purchasePrice).Success?;
  }

  /** The first limit sell with the reply checked, as the revision pass does: on a receipt
      the order id and the placed price are recorded (the sell quantity is not); a
      tolerated rejection leaves the position as it is. */
  function InitialSell(v: Position, mp: MarketParams, ma: real, threshold: real, reply: SellReply): (r: Listing)
    requires mp.Valid()
    ensures SamePurchase(r.view, v) && r.view.sellQuantity == v.sellQuantity
    ensures r.view.sellTimestamp == v.sellTimestamp && r.view.scalpedQuantity == v.scalpedQuantity
    ensures r.failure.Some? || reply.SellRejected? ==> r.view == v
    ensures r.failure.None? && reply.SellAccepted? ==>
              var pair := ScalpSellPrice(v, mp, InitialTarget(v.purchasePrice, ma, threshold, mp.priceTickSize));
              pair.Success? && r.view.sellOrderId == Some(reply.orderId) &&
              r.view.sellPrice == Some(pair.value.1) && OnGrid(pair.value.1, mp.priceTickSize)
  {
    var target := InitialTarget(v.purchasePrice, ma, threshold, mp.priceTickSize);
    match ScalpSellPrice(v, mp, target)
    case Failure(e) => Listing(v, Some(e))
    case Success(pair) =>
      InitialPairOnGrid(v, mp, ma, threshold);
      QuantizeExact(pair.1, mp.priceTickSize, HalfEven);
      match LimitSell(Some(mp), pair.0, pair.1, reply)
      case Failure(e) => Listing(v, Some(e))
      case Success(None) => Listing(v, None)
      case Success(Some(receipt)) =>
        match Divide(pair.1, v.purchasePrice)
        case Failure(e) => Listing(v, Some(e))
        case Success(_) =>
          Listing(v.(sellOrderId := Some(receipt.orderId), sellPrice := Some(receipt.price)), None)
  }

  /** The first target is on the tick grid: it is a rounded-up value either way. */
  lemma InitialTargetOnGrid(purchasePrice: real, ma: real, threshold: real, tick: real)
    requires tick > 0.0
    ensures OnGrid(InitialTarget(purchasePrice, ma, threshold, tick), tick)
  {
    var minProfit := MinProfit(purchasePrice, threshold, tick);
    QuantizeOnGrid(purchasePrice * threshold, tick, Up);
    QuantizeOnGrid((ma + minProfit) / 2.0, tick, Up);
  }

  /** The price of the scalp pair for the first target is on the tick grid: the target
      is, and a re-priced pair is rounded to the tick. */
  lemma InitialPairOnGrid(v: Position, mp: MarketParams, ma: real, threshold: real)
    requires mp.Valid()
    ensures var pair := ScalpSellPrice(v, mp, InitialTarget(v.purchasePrice, ma, threshold, mp.priceTickSize));
            pair.Success? ==> OnGrid(pair.value.1, mp.priceTickSize)
  {
    var target := InitialTarget(v.purchasePrice, ma, threshold, mp.priceTickSize);
    InitialTargetOnGrid(v.purchasePrice, ma, threshold, mp.priceTickSize);
    if target != 0.0 {
      if FirstQuantity(v, mp, target) < v.buyQuantity {
        ScalpUnchanged(v, mp, target);
      } else {
        ScalpDropsOneStep(v, mp, target);
      }
    }
  }

  /** A tolerated rejection leaves the new position without an order and raises nothing. */
  lemma RejectedInitialSellLeavesNoOrder(v: Position, mp: MarketParams, ma: real, threshold: real, message: string)
    requires mp.Valid() && Tolerated(message)
    requires ScalpSellPrice(v, mp, InitialTarget(v.purchasePrice, ma, threshold, mp.priceTickSize)).Success?
    ensures InitialSell(v, mp, ma, threshold, SellRejected(message)) == Listing(v, None)
  {
  }

  /** When the scalp pair keeps the first target (its quantity is below the quantity
      bought), an accepted order rests at that target, which is at least the minimum
      profitable price. */
  lemma InitialSellAtTarget(v: Position, mp: MarketParams, ma: real, threshold: real, id: int)
    requires mp.Valid() && v.purchasePrice > 0.0 && threshold >= 0.0
    requires var target := InitialTarget(v.purchasePrice, ma, threshold, mp.priceTickSize);
             target != 0.0 && FirstQuantity(v, mp, target) < v.buyQuantity
    ensures var target := InitialTarget(v.purchasePrice, ma, threshold, mp.priceTickSize);
            var r := InitialSell(v, mp, ma, threshold, SellAccepted(id));
            r.failure.None? && r.view.sellOrderId == Some(id) && r.view.sellPrice == Some(target) &&
            target >= MinProfit(v.purchasePrice, threshold, mp.priceTickSize)
  {
    var tick := mp.priceTickSize;
    var target := InitialTarget(v.purchasePrice, ma, threshold, tick);
    InitialTargetBounds(v.purchasePrice, ma, threshold, tick);
    ScalpUnchanged(v, mp, target);
    var pair := ScalpSellPrice(v, mp, target).value;
    LimitSellQuantizes(mp, pair.0, pair.1, id);
    assert Divide(pair.1, v.purchasePrice).Success?;
  }

  /** The row `LongPosition.create(...)` saves for a buy, with the watchlist joined by
      commas. */
  function NewPosition(m: Metric, t: Trade, watchlist: seq<string>): Position {
    Position(m.exchange, m.market, t.orderId, t.quantity, t.price, t.fees, t.timestamp, Join(watchlist),
             None, None, None, None, None)
  }

  /** The position is created from the trade and its first limit sell is placed. */
  method OpenPosition(m: Metric, t: Trade, watchlist: seq<string>, mp: MarketParams, threshold: real,
                      reply: SellReply)
    returns (p: LongPosition, failure: Option<Error>)
    requires mp.Valid()
    ensures fresh(p)
    ensures Listing(p.View(), failure) == InitialSell(NewPosition(m, t, watchlist), mp, m.ma, threshold, reply)
  {
    p := new LongPosition.Create(m.exchange, m.market, t.orderId, t.quantity, t.price, t.fees, t.timestamp,
                                 Join(watchlist));
    var listing := InitialSell(p.View(), mp, m.ma, threshold, reply);
    p.sellOrderId := listing.view.sellOrderId;
    p.sellPrice := listing.view.sellPrice;
    failure := listing.failure;
  }

  // ---------------------------------------------------------------------------------
  // The buy

  /** The buy step of a run: nothing when the buy amount is zero; otherwise the target is
      chosen, sized and bought, and the new position gets its first limit sell. `ask` is the
      current ask of the chosen market and `u` the random draw. `sent` is the quantity of
      the market buy, when one is sent: `OrderSize`, on the lot grid and reaching the
      minimum notional (`OrderSizeBounds`), which the buy's own quantize keeps as it is. */
  method BuyNext(metrics: seq<Metric>, watchlist: seq<string>, base: string, open: seq<Position>,
                 recent: seq<Position>, limit: real, u: real, buyAmount: real, ask: real,
                 rows: seq<MarketParams>, threshold: real, buyReply: MarketOrderReply, sellReply: SellReply)
    returns (p: LongPosition?, sent: Option<real>, r: Result<()>)
    requires forall k :: 0 <= k < |rows| ==> rows[k].Valid()
    ensures buyAmount == 0.0 ==> p == null && sent.None? && r == Success(())
    ensures buyAmount != 0.0 ==>
      var target := Target(metrics, watchlist, base, open, recent, limit, u);
      (target.Failure? ==> p == null && sent.None? && r == Failure(target.error)) &&
      (target == Success(None) ==> p == null && sent.None? && r == Success(())) &&
      (target.Success? && target.value.Some? ==>
        var m := target.value.value;
        var params := GetMarket(rows, m.market, ExchangeBinance);
        var quantity := Divide(buyAmount, ask);
        (quantity.Failure? ==> p == null && sent.None? && r == Failure(quantity.error)) &&
        (quantity.Success? && params.None? ==> p == null && sent.None? && r == Failure(AttributeError)) &&
        (quantity.Success? && params.Some? ==>
          var trade := Bought(params, buyReply);
          OrderSize(buyAmount, ask, params.value).Success? &&
          sent == Some(OrderSize(buyAmount, ask, params.value).value) &&
          Quantize(sent.value, params.value.lotStepSize, HalfEven) == sent.value &&
          (trade.Failure? ==> p == null && r == Failure(trade.error)) &&
          (trade.Success? ==>
            p != null && fresh(p) &&
            var listing := InitialSell(NewPosition(m, trade.value, watchlist), params.value, m.ma, threshold, sellReply);
            p.View() == listing.view &&
            (r.Success? <==> listing.failure.None?) && (r.Failure? ==> r.error == listing.failure.value))))
  {
    p, sent := null, None;
    if buyAmount == 0.0 {
      return p, sent, Success(());
    }
    var target := ChooseTarget(metrics, watchlist, base, open, recent, limit, u);
    if target.Failure? {
      return p, sent, Failure(target.error);
    }
    if target.value.None? {
      return p, sent, Success(());
    }
    var m := target.value.value;
    var quantity := Divide(buyAmount, ask);
    if quantity.Failure? {
      return p, sent, Failure(quantity.error);
    }
    var params := GetMarket(rows, m.market, ExchangeBinance);
    if params.None? {
      return p, sent, Failure(AttributeError);
    }
    GetMarketValid(rows, m.market);
    var size := Sized(quantity.value, ask, params.value.lotStepSize, params.value.minNotional);
    sent := Some(size);
    SizedOnGrid(quantity.value, ask, params.value.lotStepSize, params.value.minNotional);
    var trade := Buy(params, buyReply);
    if trade.Failure? {
      return p, sent, Failure(trade.error);
    }
    var failure;
    p, failure := OpenPosition(m, trade.value, watchlist, params.value, threshold, sellReply);
    if failure.Some? {
      return p, sent, Failure(failure.value);
    }
    return p, sent, Success(());
  }
}
