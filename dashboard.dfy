/** Portfolio aggregation of the dashboard page (`computePortfolioMetrics`).

    A document row carries four optional financial metrics. The page first keeps
    the rows that have any metric, then for each metric sums the kept rows with
    missing values read as 0 and divides by the number of kept rows that have the
    metric. The lemmas below show that this equals the plain arithmetic mean of the
    values that are present, computed over the whole list. */
module Dashboard {
  import opened Wrappers

  /** One row of the document list, as the backend sends it. */
  datatype DocumentListItem = DocumentListItem(
    id: string,
    fileName: string,
    status: string,
    createdAt: string,
    purchasePrice: Option<real>,
    noi: Option<real>,
    capRate: Option<real>,
    occupancy: Option<real>,
    units: Option<int>,
    yearBuilt: Option<int>,
    propertyType: Option<string>,
    location: Option<string>)

  /** The four metrics that are averaged. */
  datatype Metric = PurchasePrice | Noi | CapRate | Occupancy

  datatype PortfolioMetrics = PortfolioMetrics(
    totalDeals: nat,
    avgCapRate: Option<real>,
    avgNoi: Option<real>,
    avgPurchase: Option<real>,
    avgOccupancy: Option<real>)

  function Get(d: DocumentListItem, m: Metric): Option<real> {
    match m
    case PurchasePrice => d.purchasePrice
    case Noi => d.noi
    case CapRate => d.capRate
    case Occupancy => d.occupancy
  }

  /** The average that a result record reports for metric `m`. */
  function AverageOf(r: PortfolioMetrics, m: Metric): Option<real> {
    match m
    case PurchasePrice => r.avgPurchase
    case Noi => r.avgNoi
    case CapRate => r.avgCapRate
    case Occupancy => r.avgOccupancy
  }

  // ---------------------------------------------------------------------------
  // The computation as the page writes it
  // ---------------------------------------------------------------------------

  /** The pre-filter's test: the row has at least one of the four metrics (any of, not all of). */
  function HasAnyMetric(d: DocumentListItem): (r: bool)
    ensures r <==> exists m :: Get(d, m).Some?
  {
    assert Get(d, PurchasePrice) == d.purchasePrice && Get(d, CapRate) == d.capRate;
    assert Get(d, Noi) == d.noi && Get(d, Occupancy) == d.occupancy;
    d.purchasePrice.Some? || d.capRate.Some? || d.noi.Some? || d.occupancy.Some?
  }

  /** `docs.filter(HasAnyMetric)`: keeps each row with some metric, as often as it occurs. */
  function WithMetrics(docs: seq<DocumentListItem>): (r: seq<DocumentListItem>)
    ensures |r| <= |docs|
    ensures forall d :: d in r <==> d in docs && HasAnyMetric(d)
    ensures forall d :: multiset(r)[d] == if HasAnyMetric(d) then multiset(docs)[d] else 0
  {
    if docs == [] then []
    else
      assert docs == [docs[0]] + docs[1..];
      if HasAnyMetric(docs[0]) then [docs[0]] + WithMetrics(docs[1..])
      else WithMetrics(docs[1..])
  }

  /** `rows.filter(d => d.m != null)`: keeps each row that has metric `m`, as often as it occurs;
      its length is the number of present values. */
  function HavingMetric(rows: seq<DocumentListItem>, m: Metric): (r: seq<DocumentListItem>)
    ensures |r| <= |rows|
    ensures forall d :: d in r <==> d in rows && Get(d, m).Some?
    ensures forall d :: multiset(r)[d] == if Get(d, m).Some? then multiset(rows)[d] else 0
    ensures |r| == |PresentValues(rows, m)|
  {
    if rows == [] then []
    else
      assert rows == [rows[0]] + rows[1..];
      if Get(rows[0], m).Some? then [rows[0]] + HavingMetric(rows[1..], m)
      else HavingMetric(rows[1..], m)
  }

  /** `rows.reduce((s, d) => s + (d.m ?? 0), 0)`: a left fold from 0. It adds exactly the present
      values; a missing value contributes nothing. */
  function SumOrZero(rows: seq<DocumentListItem>, m: Metric): (r: real)
    ensures r == Sum(PresentValues(rows, m))
  {
    if rows == [] then 0.0
    else
      var init, last := rows[..|rows| - 1], rows[|rows| - 1];
      assert rows == init + [last];
      PresentValuesAppend(init, [last], m);
      assert [last][1..] == [];
      SumAppend(PresentValues(init, m), PresentValues([last], m));
      SumOrZero(init, m) + Get(last, m).GetOr(0.0)
  }

  /** The conditional expression used for each average: `null` when no row has the metric,
      otherwise the mean of the present values. */
  function FieldAverage(rows: seq<DocumentListItem>, m: Metric): (r: Option<real>)
    ensures r == Mean(PresentValues(rows, m))
  {
    var count := |HavingMetric(rows, m)|;
    if count > 0 then Some(SumOrZero(rows, m) / count as real) else None
  }

  /** `computePortfolioMetrics`: each average is the plain mean of that metric's present
      values over the whole list, and `totalDeals` counts every row. */
  function ComputePortfolioMetrics(docs: seq<DocumentListItem>): (r: PortfolioMetrics)
    ensures r.totalDeals == |docs|
    ensures r.avgCapRate == Mean(PresentValues(docs, CapRate))
    ensures r.avgNoi == Mean(PresentValues(docs, Noi))
    ensures r.avgPurchase == Mean(PresentValues(docs, PurchasePrice))
    ensures r.avgOccupancy == Mean(PresentValues(docs, Occupancy))
  {
    FieldAverageIsMean(docs, CapRate);
    FieldAverageIsMean(docs, Noi);
    FieldAverageIsMean(docs, PurchasePrice);
    FieldAverageIsMean(docs, Occupancy);
    var withMetrics := WithMetrics(docs);
    PortfolioMetrics(
      |docs|,
      FieldAverage(withMetrics, CapRate),
      FieldAverage(withMetrics, Noi),
      FieldAverage(withMetrics, PurchasePrice),
      FieldAverage(withMetrics, Occupancy))
  }

  // ---------------------------------------------------------------------------
  // Reference definition: the mean of the present values
  // ---------------------------------------------------------------------------

  /** The values of metric `m` in the rows that have it, in list order. */
  function PresentValues(docs: seq<DocumentListItem>, m: Metric): seq<real> {
    if docs == [] then []
    else (match Get(docs[0], m) case Some(v) => [v] case None => []) + PresentValues(docs[1..], m)
  }

  function Sum(s: seq<real>): real {
    if s == [] then 0.0 else s[0] + Sum(s[1..])
  }

  function Mean(s: seq<real>): Option<real> {
    if s == [] then None else Some(Sum(s) / |s| as real)
  }

  function Min(s: seq<real>): real
    requires s != []
  {
    if |s| == 1 then s[0] else var t := Min(s[1..]); if s[0] <= t then s[0] else t
  }

  function Max(s: seq<real>): real
    requires s != []
  {
    if |s| == 1 then s[0] else var t := Max(s[1..]); if s[0] >= t then s[0] else t
  }

  // ---------------------------------------------------------------------------
  // Lemmas
  // ---------------------------------------------------------------------------

  lemma {:induction false} PresentValuesAppend(a: seq<DocumentListItem>, b: seq<DocumentListItem>, m: Metric)
    ensures PresentValues(a + b, m) == PresentValues(a, m) + PresentValues(b, m)
  {
    if a == [] {
      assert a + b == b;
    } else {
      assert (a + b)[1..] == a[1..] + b;
      PresentValuesAppend(a[1..], b, m);
    }
  }

  lemma {:induction false} SumAppend(a: seq<real>, b: seq<real>)
    ensures Sum(a + b) == Sum(a) + Sum(b)
  {
    if a == [] {
      assert a + b == b;
    } else {
      assert (a + b)[1..] == a[1..] + b;
      SumAppend(a[1..], b);
    }
  }

  /** Dropping rows that have no metric at all never changes any metric's present values. */
  lemma {:induction false} PreFilterKeepsPresentValues(docs: seq<DocumentListItem>, m: Metric)
    ensures PresentValues(WithMetrics(docs), m) == PresentValues(docs, m)
  {
    if docs != [] {
      var d, rest := docs[0], WithMetrics(docs[1..]);
      PreFilterKeepsPresentValues(docs[1..], m);
      if HasAnyMetric(d) {
        assert WithMetrics(docs) == [d] + rest;
        assert ([d] + rest)[1..] == rest;
      } else {
        assert WithMetrics(docs) == rest;
        assert Get(d, m).None?;
      }
    }
  }

  /** The filter-then-`?? 0` construction equals the plain mean of the present values. */
  lemma FieldAverageIsMean(docs: seq<DocumentListItem>, m: Metric)
    ensures FieldAverage(WithMetrics(docs), m) == Mean(PresentValues(docs, m))
  {
    PreFilterKeepsPresentValues(docs, m);
  }

  /** The average a result reports for any metric is that metric's plain mean. */
  lemma AverageIsMean(docs: seq<DocumentListItem>, m: Metric)
    ensures AverageOf(ComputePortfolioMetrics(docs), m) == Mean(PresentValues(docs, m))
  {
  }

  /** Applying the average to the whole list, without the pre-filter, gives the same result. */
  lemma PreFilterIsRedundant(docs: seq<DocumentListItem>, m: Metric)
    ensures FieldAverage(WithMetrics(docs), m) == FieldAverage(docs, m)
  {
    FieldAverageIsMean(docs, m);
  }

  lemma {:induction false} PresentValuesEmpty(docs: seq<DocumentListItem>, m: Metric)
    ensures PresentValues(docs, m) == [] <==> forall i :: 0 <= i < |docs| ==> Get(docs[i], m).None?
  {
    if docs != [] {
      PresentValuesEmpty(docs[1..], m);
      assert forall i :: 1 <= i < |docs| ==> docs[i] == docs[1..][i - 1];
    }
  }

  /** An average is `null` exactly when no row of the list has that metric. */
  lemma AverageAbsentIff(docs: seq<DocumentListItem>, m: Metric)
    ensures AverageOf(ComputePortfolioMetrics(docs), m).None? <==>
            forall i :: 0 <= i < |docs| ==> Get(docs[i], m).None?
  {
    AverageIsMean(docs, m);
    PresentValuesEmpty(docs, m);
  }

  /** When present, an average is the sum of the present values over their number. */
  lemma AveragePresentIsSumOverCount(docs: seq<DocumentListItem>, m: Metric)
    requires exists i :: 0 <= i < |docs| && Get(docs[i], m).Some?
    ensures AverageOf(ComputePortfolioMetrics(docs), m) ==
            Some(Sum(PresentValues(docs, m)) / |PresentValues(docs, m)| as real)
    ensures |PresentValues(docs, m)| > 0
  {
    AverageIsMean(docs, m);
    PresentValuesEmpty(docs, m);
  }

  /** Empty input: no deals and no averages. */
  lemma EmptyPortfolio()
    ensures ComputePortfolioMetrics([]) == PortfolioMetrics(0, None, None, None, None)
  {
  }

  /** Independence: appending a row that has metric `m` adds its value to `m`'s average,
      whatever the row's other metrics are. */
  lemma AppendRowWithMetric(docs: seq<DocumentListItem>, d: DocumentListItem, m: Metric, v: real)
    requires Get(d, m) == Some(v)
    ensures AverageOf(ComputePortfolioMetrics(docs + [d]), m) == Mean(PresentValues(docs, m) + [v])
  {
    AverageIsMean(docs + [d], m);
    PresentValuesAppend(docs, [d], m);
    assert PresentValues([d], m) == [v] by {
      assert [d][1..] == [];
      assert PresentValues([d], m) == [v] + PresentValues([], m);
    }
  }

  /** Independence: appending a row that lacks metric `m` leaves `m`'s average unchanged,
      whatever the row's other metrics are. */
  lemma AppendRowWithoutMetric(docs: seq<DocumentListItem>, d: DocumentListItem, m: Metric)
    requires Get(d, m).None?
    ensures AverageOf(ComputePortfolioMetrics(docs + [d]), m) == AverageOf(ComputePortfolioMetrics(docs), m)
  {
    AverageIsMean(docs + [d], m);
    AverageIsMean(docs, m);
    PresentValuesAppend(docs, [d], m);
    assert [d][1..] == [];
    assert PresentValues(docs, m) + [] == PresentValues(docs, m);
  }

  /** Two rows, one with only `noi` and one with only `cap_rate`: each average is that row's value. */
  lemma DisjointRowsAverageIndependently(a: DocumentListItem, b: DocumentListItem)
    requires a.noi.Some? && a.capRate.None? && a.purchasePrice.None? && a.occupancy.None?
    requires b.capRate.Some? && b.noi.None? && b.purchasePrice.None? && b.occupancy.None?
    ensures ComputePortfolioMetrics([a, b]).avgNoi == Some(a.noi.value)
    ensures ComputePortfolioMetrics([a, b]).avgCapRate == Some(b.capRate.value)
  {
    assert [a, b][1..] == [b];
    assert [b][1..] == [];
    OnlyValue(a, [b], Noi);
    OnlyValue(b, [], CapRate);
    assert PresentValues([a, b], CapRate) == PresentValues([b], CapRate);
    SingletonMean(a.noi.value);
    SingletonMean(b.capRate.value);
  }

  lemma OnlyValue(d: DocumentListItem, rest: seq<DocumentListItem>, m: Metric)
    requires Get(d, m).Some?
    requires forall e :: e in rest ==> Get(e, m).None?
    ensures PresentValues([d] + rest, m) == [Get(d, m).value]
  {
    PresentValuesEmpty(rest, m);
    assert ([d] + rest)[1..] == rest;
  }

  lemma SingletonMean(v: real)
    ensures Mean([v]) == Some(v)
  {
    assert Sum([v]) == v + Sum([v][1..]);
    assert [v][1..] == [];
  }

  /** Missing is not zero: a present 0 adds one to the denominator and nothing to the sum,
      a missing value adds to neither. */
  lemma ZeroIsCountedMissingIsNot(rows: seq<DocumentListItem>, d: DocumentListItem, m: Metric)
    ensures Get(d, m) == Some(0.0) ==>
      |HavingMetric(rows + [d], m)| == |HavingMetric(rows, m)| + 1 && SumOrZero(rows + [d], m) == SumOrZero(rows, m)
    ensures Get(d, m).None? ==>
      |HavingMetric(rows + [d], m)| == |HavingMetric(rows, m)| && SumOrZero(rows + [d], m) == SumOrZero(rows, m)
  {
    assert (rows + [d])[..|rows + [d]| - 1] == rows;
    PresentValuesAppend(rows, [d], m);
    assert [d][1..] == [];
  }

  /** A single present value is its own average. */
  lemma SingleValueIsItsAverage(docs: seq<DocumentListItem>, m: Metric, v: real)
    requires PresentValues(docs, m) == [v]
    ensures AverageOf(ComputePortfolioMetrics(docs), m) == Some(v)
  {
    AverageIsMean(docs, m);
    SingletonMean(v);
  }

  lemma {:induction false} MinMaxBound(s: seq<real>)
    requires s != []
    ensures forall i :: 0 <= i < |s| ==> Min(s) <= s[i] <= Max(s)
  {
    if |s| > 1 {
      MinMaxBound(s[1..]);
      assert forall i :: 1 <= i < |s| ==> s[i] == s[1..][i - 1];
    }
  }

  lemma {:induction false} SumAtLeast(s: seq<real>, lo: real)
    requires forall i :: 0 <= i < |s| ==> lo <= s[i]
    ensures |s| as real * lo <= Sum(s)
  {
    if s != [] {
      var t := s[1..];
      assert forall i :: 0 <= i < |t| ==> t[i] == s[i + 1];
      SumAtLeast(t, lo);
      assert |s| as real * lo == lo + |t| as real * lo;
    }
  }

  lemma {:induction false} SumAtMost(s: seq<real>, hi: real)
    requires forall i :: 0 <= i < |s| ==> s[i] <= hi
    ensures Sum(s) <= |s| as real * hi
  {
    if s != [] {
      var t := s[1..];
      assert forall i :: 0 <= i < |t| ==> t[i] == s[i + 1];
      SumAtMost(t, hi);
      assert |s| as real * hi == hi + |t| as real * hi;
    }
  }

  /** A present average lies between the smallest and the largest present value. */
  lemma AverageWithinRange(docs: seq<DocumentListItem>, m: Metric)
    requires PresentValues(docs, m) != []
    ensures AverageOf(ComputePortfolioMetrics(docs), m).Some?
    ensures Min(PresentValues(docs, m)) <= AverageOf(ComputePortfolioMetrics(docs), m).value
                                        <= Max(PresentValues(docs, m))
  {
    AverageIsMean(docs, m);
    MeanWithinRange(PresentValues(docs, m));
  }

  lemma MeanWithinRange(s: seq<real>)
    requires s != []
    ensures Mean(s).Some? && Min(s) <= Mean(s).value <= Max(s)
  {
    MinMaxBound(s);
    SumAtLeast(s, Min(s));
    SumAtMost(s, Max(s));
    QuotientBounds(Min(s), Sum(s), Max(s), |s| as real);
  }

  lemma QuotientBounds(lo: real, x: real, hi: real, n: real)
    requires n > 0.0 && n * lo <= x <= n * hi
    ensures lo <= x / n <= hi
  {
  }
}
