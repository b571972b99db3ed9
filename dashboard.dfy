/**
 * The five read-only views of the dashboard: summary metrics with the
 * cleaning summary, refund-prone products, top products by revenue, price
 * volatility and the monthly revenue trend. All of them read the loaded
 * frame; the cleaning summary also reads the cleaned one.
 */
module Dashboard {
  import opened Wrappers
  import opened Seqs
  import opened Grouping
  import opened Ranking
  import opened Records
  import opened Cleaning

  /** The division by the row count at the refund rate fails on an empty frame. */
  datatype Error = EmptyDataset

  /** The length of every top-N view (`head(10)`). */
  const TopN: nat := 10

  /** `df[df['Quantity'] < 0]`. */
  function Refunds(df: seq<Row>): (r: seq<Row>)
    ensures forall x :: x in r <==> x in df && x.quantity < 0
  {
    Filter(df, IsRefund)
  }

  /** The refund frame keeps every copy of a refund row, so its length counts refund rows. */
  lemma RefundsCounts(df: seq<Row>)
    ensures forall x :: multiset(Refunds(df))[x] == if x.quantity < 0 then multiset(df)[x] else 0
  {
    FilterCounts(df, IsRefund);
  }

  /** `df['Customer ID'].nunique()`: distinct non-missing customer identifiers. */
  function UniqueCustomers(df: seq<Row>): (n: nat)
    ensures n <= |df|
  {
    ValuesBound(df, CustomerId);
    |Values(df, CustomerId)|
  }

  /** `refunds['Total'].sum()`. */
  function RefundVolume(df: seq<Row>): int
  {
    Sum(Refunds(df), Total)
  }

  /**
   * `len(refunds) / len(df) * 100`, exactly: the percentage of refund rows,
   * between 0 and 100; on an empty frame the division fails.
   */
  function RefundRate(df: seq<Row>): (r: Result<real, Error>)
    ensures r.Failure? <==> |df| == 0
    ensures r.Success? ==> 0.0 <= r.value <= 100.0
    ensures r.Success? ==> r.value * (|df| as real) == 100.0 * (|Refunds(df)| as real)
  {
    if |df| == 0 then Failure(EmptyDataset)
    else
      var c, n := |Refunds(df)| as real, |df| as real;
      Percentage(c, n);
      Success(c / n * 100.0)
  }

  lemma Percentage(c: real, n: real)
    requires 0.0 <= c <= n && n > 0.0
    ensures 0.0 <= c / n * 100.0 <= 100.0
    ensures c / n * 100.0 * n == 100.0 * c
  {
    assert c / n * n == c;
  }

  /** The refund volume of loaded rows with non-negative prices is never positive. */
  lemma RefundVolumeNonPositive(df: seq<Row>)
    requires forall x :: x in df ==> Consistent(x) && x.price >= 0
    ensures RefundVolume(df) <= 0
  {
    forall x | x in Refunds(df) ensures Total(x) <= 0 {
      assert x.quantity < 0 && x.price >= 0;
      NegativeTimesNonNegative(x.quantity, x.price);
    }
    SumNonPositive(Refunds(df), Total);
  }

  lemma NegativeTimesNonNegative(q: int, p: int)
    requires q < 0 && p >= 0
    ensures q * p <= 0
  {
  }

  /** `df.groupby('Description')['Price'].nunique()`. */
  function PriceVariation(df: seq<Row>): map<string, int>
  {
    NUniqueBy(df, Description, Price)
  }

  /** `price_variation[price_variation > 3]`, as its index. */
  function VolatileProducts(df: seq<Row>): seq<string>
  {
    Filter(GroupKeys(df, Description), Exceeds(PriceVariation(df), 3))
  }

  /** `...nunique().gt(3).sum()`: the number of descriptions with more than three distinct prices. */
  function VolatileCount(df: seq<Row>): nat
  {
    var m := PriceVariation(df);
    |set k | k in m && m[k] > 3|
  }

  /** The summary metrics table. */
  datatype Metrics = Metrics(
    totalRecords: nat,
    uniqueCustomers: nat,
    refundVolume: int,
    refundRate: real,
    volatileProducts: nat)

  /** The data cleaning summary block. */
  datatype CleaningReport = CleaningReport(
    initialRows: nat,
    refundRows: nat,
    duplicateRows: nat,
    nullRows: nat,
    cleanedRows: nat)

  /** The summary metrics; building the table fails when the refund rate does. */
  function SummaryMetrics(df: seq<Row>): (r: Result<Metrics, Error>)
    ensures r.Failure? <==> |df| == 0
    ensures r.Success? ==>
      && r.value.totalRecords == |df|
      && r.value.uniqueCustomers == |Values(df, CustomerId)| <= |df|
      && r.value.refundVolume == Sum(Refunds(df), Total)
      && 0.0 <= r.value.refundRate <= 100.0
      && r.value.refundRate == (|Refunds(df)| as real) / (|df| as real) * 100.0
      && r.value.volatileProducts == |VolatileProducts(df)|
  {
    match RefundRate(df)
    case Failure(e) => Failure(e)
    case Success(rate) =>
      assert VolatileCount(df) == |VolatileProducts(df)| by { VolatileCountMatches(df); }
      Success(Metrics(|df|, UniqueCustomers(df), RefundVolume(df), rate, VolatileCount(df)))
  }

  /**
   * The cleaning summary: refund, duplicate and incomplete rows are each at
   * most all rows, and the cleaned frame is no larger than what remains after
   * taking away any one of those groups.
   */
  function CleaningSummary(df: seq<Row>): (c: CleaningReport)
    ensures c.initialRows == |df|
    ensures c.refundRows == |Refunds(df)| && c.duplicateRows == DuplicateCount(df)
    ensures c.nullRows == |Filter(df, HasMissing)| && c.cleanedRows == |Clean(df)|
    ensures c.refundRows <= c.initialRows && c.duplicateRows <= c.initialRows && c.nullRows <= c.initialRows
    ensures c.cleanedRows <= c.initialRows - c.refundRows
    ensures c.cleanedRows <= c.initialRows - c.duplicateRows
    ensures c.cleanedRows <= c.initialRows - c.nullRows
  {
    CleanedBounds(df);
    CleaningReport(|df|, |Filter(df, IsRefund)|, DuplicateCount(df), |Filter(df, HasMissing)|, |Clean(df)|)
  }

  lemma CleanedBounds(df: seq<Row>)
    ensures |Filter(df, IsRefund)| <= |df| && |Filter(df, HasMissing)| <= |df|
    ensures DuplicateCount(df) <= |df|
    ensures |Clean(df)| + |Filter(df, IsRefund)| <= |df|
    ensures |Clean(df)| + DuplicateCount(df) <= |df|
    ensures |Clean(df)| + |Filter(df, HasMissing)| <= |df|
  {
    KeptSpec(df);
    CleanSpec(df);
    DedupLength(df);
    DedupFilter(df, Eligible);
    var eligible := Filter(df, Eligible);
    assert |Kept(df)| <= |eligible|;
    assert |Kept(df)| <= |Dedup(df)|;
    FilterDisjoint(df, Eligible, IsRefund);
    FilterDisjoint(df, Eligible, HasMissing);
  }

  /** The summary view: the metrics table and the cleaning summary, or the failure of the former. */
  datatype Summary = Summary(metrics: Metrics, cleaning: CleaningReport)

  function SummaryView(df: seq<Row>): (r: Result<Summary, Error>)
    ensures r.Failure? <==> |df| == 0
  {
    match SummaryMetrics(df)
    case Failure(e) => Failure(e)
    case Success(m) => Success(Summary(m, CleaningSummary(df)))
  }

  // Refund analysis

  /** The number of refund rows with description `p`. */
  function RefundCount(df: seq<Row>, p: string): nat
  {
    |Filter(Refunds(df), Member(Description, p))|
  }

  /** `refunds.groupby('Description')['Quantity'].count().sort_values(ascending=False).head(10)`. */
  function RefundRanking(df: seq<Row>): seq<Entry<string>>
  {
    var refunds := Refunds(df);
    Top(CountBy(refunds, Description), GroupKeys(refunds, Description), TopN)
  }

  /**
   * At most ten products, each once, in non-increasing order of refund rows;
   * each count is the product's number of refund rows, at least one; and a
   * refunded product left out has no more refund rows than the last one listed.
   */
  lemma RefundRankingSpec(df: seq<Row>)
    ensures var r := RefundRanking(df);
      && |r| <= TopN
      && DistinctKeys(r)
      && NonIncreasingValues(r)
      && (forall i :: 0 <= i < |r| ==> r[i].value == RefundCount(df, r[i].key) && r[i].value >= 1)
      && (forall p :: RefundCount(df, p) > 0 && !Listed(r, p) ==>
            |r| == TopN && RefundCount(df, p) <= r[TopN - 1].value)
  {
    var refunds := Refunds(df);
    var m, keys := CountBy(refunds, Description), GroupKeys(refunds, Description);
    var r := RefundRanking(df);
    TopSpec(m, keys, TopN);
    forall p | RefundCount(df, p) > 0 && !Listed(r, p)
      ensures |r| == TopN && RefundCount(df, p) <= r[TopN - 1].value
    {
      PresentNonEmpty(refunds, Description, p);
    }
  }

  // Top products

  /** The revenue of description `p`: the sum of `Total` over all its rows, refunds included. */
  function ProductRevenue(df: seq<Row>, p: string): int
  {
    Sum(Filter(df, Member(Description, p)), Total)
  }

  /** `df.groupby('Description')['Total'].sum().sort_values(ascending=False).head(10)`. */
  function RevenueRanking(df: seq<Row>): seq<Entry<string>>
  {
    Top(SumBy(df, Description, Total), GroupKeys(df, Description), TopN)
  }

  /**
   * At most ten products that occur in the frame, each once, in
   * non-increasing order of revenue, each with its revenue; a product left
   * out earns no more than the last one listed.
   */
  lemma RevenueRankingSpec(df: seq<Row>)
    ensures var r := RevenueRanking(df);
      && |r| <= TopN
      && DistinctKeys(r)
      && NonIncreasingValues(r)
      && (forall i :: 0 <= i < |r| ==> Present(df, Description, r[i].key) && r[i].value == ProductRevenue(df, r[i].key))
      && (forall p :: Present(df, Description, p) && !Listed(r, p) ==>
            |r| == TopN && ProductRevenue(df, p) <= r[TopN - 1].value)
  {
    var m, keys := SumBy(df, Description, Total), GroupKeys(df, Description);
    var r := RevenueRanking(df);
    TopSpec(m, keys, TopN);
    forall i | 0 <= i < |r| ensures Present(df, Description, r[i].key) && r[i].value == ProductRevenue(df, r[i].key) {
      assert r[i].key in keys;
    }
    forall p | Present(df, Description, p) && !Listed(r, p)
      ensures |r| == TopN && ProductRevenue(df, p) <= r[TopN - 1].value
    {
      assert p in keys && p in m;
    }
  }

  // Price volatility

  /** `price_variation[price_variation > 3].sort_values(ascending=False).head(10)`. */
  function VolatilityRanking(df: seq<Row>): seq<Entry<string>>
  {
    Top(PriceVariation(df), VolatileProducts(df), TopN)
  }

  /** The volatility metric of the summary counts exactly the products the volatility view ranks. */
  lemma VolatileCountMatches(df: seq<Row>)
    ensures VolatileCount(df) == |VolatileProducts(df)|
  {
    CountAbove(PriceVariation(df), GroupKeys(df, Description), 3);
  }

  /**
   * At most ten products, each once, each with more than three distinct
   * prices, in non-increasing order of that count; as many as the summary's
   * volatility metric allows; and a volatile product left out has no more
   * distinct prices than the last one listed.
   */
  lemma VolatilityRankingSpec(df: seq<Row>)
    ensures var r := VolatilityRanking(df);
      && |r| == (if VolatileCount(df) < TopN then VolatileCount(df) else TopN)
      && DistinctKeys(r)
      && NonIncreasingValues(r)
      && (forall i :: 0 <= i < |r| ==> r[i].value == |DistinctPrices(df, r[i].key)| && r[i].value > 3)
      && (forall p :: |DistinctPrices(df, p)| > 3 && !Listed(r, p) ==>
            |r| == TopN && |DistinctPrices(df, p)| <= r[TopN - 1].value)
  {
    var m := PriceVariation(df);
    var v := VolatileProducts(df);
    var r := VolatilityRanking(df);
    VolatileCountMatches(df);
    VolatileProductsSpec(df);
    TopSpec(m, v, TopN);
    forall i | 0 <= i < |r| ensures r[i].value == |DistinctPrices(df, r[i].key)| {
      assert r[i].key in v;
    }
  }

  /**
   * The volatile products are distinct and are exactly the descriptions with
   * more than three distinct prices, each scored by that number.
   */
  lemma VolatileProductsSpec(df: seq<Row>)
    ensures Distinct(VolatileProducts(df))
    ensures forall p :: p in VolatileProducts(df) <==> |DistinctPrices(df, p)| > 3
    ensures forall p :: p in VolatileProducts(df) ==> Lookup(PriceVariation(df))(p) == |DistinctPrices(df, p)|
  {
    var m := PriceVariation(df);
    var keys := GroupKeys(df, Description);
    FilterDistinct(keys, Exceeds(m, 3));
    forall p ensures p in VolatileProducts(df) <==> |DistinctPrices(df, p)| > 3 {
      ValuesNonEmpty(Filter(df, Member(Description, p)), Price);
      PresentNonEmpty(df, Description, p);
      if p in m {
        assert Lookup(m)(p) == m[p];
      }
    }
  }

  // Revenue trend

  /** The revenue of month `ym`: the sum of `Total` over its rows. */
  function MonthRevenue(df: seq<Row>, ym: YearMonth): int
  {
    Sum(Filter(df, Member(Period, ym)), Total)
  }

  /** The sort score that puts earlier months first. */
  function MonthRank(ym: YearMonth): int
  {
    -MonthIndex(ym)
  }

  /** `df.groupby('YearMonth')['Total'].sum()`, whose index pandas sorts by month. */
  function MonthlyTrend(df: seq<Row>): seq<Entry<YearMonth>>
  {
    Entries(SortDesc(GroupKeys(df, Period), MonthRank), SumBy(df, Period, Total))
  }

  /**
   * One entry per month that occurs in the frame, in strictly increasing
   * month order, each with that month's revenue; together the entries add up
   * to the revenue of every row that has a date.
   */
  lemma MonthlyTrendSpec(df: seq<Row>)
    ensures var t := MonthlyTrend(df);
      && (forall i, j :: 0 <= i < j < |t| ==> Before(t[i].key, t[j].key))
      && (forall ym :: Listed(t, ym) <==> Present(df, Period, ym))
      && (forall i :: 0 <= i < |t| ==> t[i].value == MonthRevenue(df, t[i].key))
      && Sum(t, Value) == Sum(Filter(df, HasKey(Period)), Total)
  {
    var keys := GroupKeys(df, Period);
    var m := SumBy(df, Period, Total);
    var t := MonthlyTrend(df);
    SortedEntries(keys, m, MonthRank);
    forall i, j | 0 <= i < j < |t| ensures Before(t[i].key, t[j].key) {
      assert MonthRank(t[i].key) >= MonthRank(t[j].key);
      MonthIndexOrder(t[i].key, t[j].key);
    }
    forall i | 0 <= i < |t| ensures t[i].value == MonthRevenue(df, t[i].key) {
      var k := t[i].key;
      assert Listed(t, k);
      assert k in m;
      assert t[i].value == m[k];
    }
    GroupSumsTotal(df, Period, Total);
  }
}
