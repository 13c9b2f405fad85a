/** Change detection: compares the value a sector and dimension had in one
    period with the value it has in the next, grades the change by its
    relative size, and scans every sector and dimension pair of the store.
    Reports group the detected changes by significance and by sector. */
module ChangeDetection {
  import opened Common
  import opened Schema
  import opened Store

  datatype Significance = High | Medium | Low | Minimal

  datatype ChangeKind = New | Removed | Increase | Decrease

  /** The two periods a change compares; the label `"Y-MM vs Y-MM"` or
      `"Y vs Y"` is not spelled out. */
  datatype Period =
    | Months(year: int, month: int, prevYear: int, prevMonth: int)
    | Years(year: int, prevYear: int)

  datatype Change = Change(
    dataPointId: nat,
    sector: string,
    dimension: string,
    oldValue: Option<real>,
    newValue: Option<real>,
    percentChange: Option<real>,
    kind: ChangeKind,
    significance: Significance,
    detectedAt: Timestamp,
    period: Period)

  /** Significance thresholds, in percent. */
  const HighThreshold: real := 20.0
  const MediumThreshold: real := 10.0
  const LowThreshold: real := 5.0

  function Abs(x: real): real {
    if x < 0.0 then -x else x
  }

  // ------------------------------------------------------------ percent change

  /** Relative change in percent of the old value's magnitude. Undefined
      when either value is missing or both are zero; a change away from zero
      counts as 100 percent whatever its direction. */
  function PercentChange(prior: Option<real>, latest: Option<real>): (p: Option<real>)
    ensures p.None? <==> prior.None? || latest.None? || (prior.value == 0.0 && latest.value == 0.0)
    ensures p.Some? && prior.value == 0.0 ==> p.value == 100.0
  {
    if prior.None? || latest.None? then None
    else if prior.value == 0.0 then (if latest.value == 0.0 then None else Some(100.0))
    else Some((latest.value - prior.value) / Abs(prior.value) * 100.0)
  }

  /** Applying a percent change to a non-zero old value gives the new value
      back. */
  lemma PercentChangeInverse(prior: real, latest: real)
    requires prior != 0.0
    ensures PercentChange(Some(prior), Some(latest)).Some?
    ensures latest == prior + PercentChange(Some(prior), Some(latest)).value * Abs(prior) / 100.0
  {
    var p := (latest - prior) / Abs(prior) * 100.0;
    assert p * Abs(prior) / 100.0 == latest - prior;
  }

  /** From a non-zero old value the percent change has the sign of the
      difference. */
  lemma PercentChangeSign(prior: real, latest: real)
    requires prior != 0.0
    ensures PercentChange(Some(prior), Some(latest)).value > 0.0 <==> latest > prior
    ensures PercentChange(Some(prior), Some(latest)).value < 0.0 <==> latest < prior
    ensures PercentChange(Some(prior), Some(latest)).value == 0.0 <==> latest == prior
  {
    var a := Abs(prior);
    assert a > 0.0;
    var p := (latest - prior) / a * 100.0;
    assert p * a == (latest - prior) * 100.0;
  }

  // ------------------------------------------------------------ significance

  /** Grades a percent change by its magnitude, with each threshold
      belonging to the grade above it; an undefined change is low. */
  function SignificanceOf(p: Option<real>): (s: Significance)
    ensures p.None? ==> s == Significance.Low
    ensures s == Significance.Minimal <==> p.Some? && Abs(p.value) < LowThreshold
    ensures s == Significance.High <==> p.Some? && Abs(p.value) >= HighThreshold
    ensures s == Significance.Medium <==> p.Some? && MediumThreshold <= Abs(p.value) < HighThreshold
  {
    if p.None? then Significance.Low
    else if Abs(p.value) >= HighThreshold then Significance.High
    else if Abs(p.value) >= MediumThreshold then Significance.Medium
    else if Abs(p.value) >= LowThreshold then Significance.Low
    else Significance.Minimal
  }

  /** The sort key of the detectors: high first, minimal (never reported)
      last. */
  function Rank(s: Significance): nat {
    match s
    case High => 0
    case Medium => 1
    case Low => 2
    case Minimal => 3
  }

  /** A larger change is never graded below a smaller one. */
  lemma SignificanceMonotone(p: real, q: real)
    requires Abs(p) <= Abs(q)
    ensures Rank(SignificanceOf(Some(q))) <= Rank(SignificanceOf(Some(p)))
  {
  }

  // ------------------------------------------------------------ one comparison

  /** The kind of change between two values; none when they are equal,
      both missing included. */
  function Classify(prior: Option<real>, latest: Option<real>): (k: Option<ChangeKind>)
    ensures k.None? <==> prior == latest
    ensures k == Some(New) <==> prior.None? && latest.Some?
    ensures k == Some(Removed) <==> prior.Some? && latest.None?
    ensures k == Some(Increase) <==> prior.Some? && latest.Some? && latest.value > prior.value
    ensures k == Some(Decrease) <==> prior.Some? && latest.Some? && latest.value < prior.value
  {
    if prior.None? && latest.Some? then Some(New)
    else if prior.Some? && latest.None? then Some(Removed)
    else if prior.Some? && latest.Some? then
      (if latest.value > prior.value then Some(Increase)
       else if latest.value < prior.value then Some(Decrease)
       else None)
    else None
  }

  /** The numeric value of the first (newest) data point of a period. */
  function FirstValue(vs: seq<View>): Option<real> {
    if vs == [] then None else vs[0].Cols().value
  }

  /** Compares the newest value of the previous period with the newest
      value of the current one (see `CompareValuesReports`). */
  function CompareValues(sector: string, dimension: string, prev: seq<View>, cur: seq<View>,
                         now: Timestamp, period: Period): (r: Option<Change>)
    ensures r.Some? ==> && r.value.significance != Significance.Minimal
                        && r.value.sector == sector && r.value.dimension == dimension
                        && r.value.period == period && r.value.detectedAt == now
  {
    if prev == [] && cur == [] then None
    else
      var prior := FirstValue(prev);
      var latest := FirstValue(cur);
      match Classify(prior, latest)
      case None => None
      case Some(kind) =>
        var p := PercentChange(prior, latest);
        var s := SignificanceOf(p);
        if s == Significance.Minimal then None
        else Some(Change(if cur != [] then cur[0].row.id else prev[0].row.id,
                         sector, dimension, prior, latest, p, kind, s, now, period))
  }

  /** A comparison reports a change exactly when the two newest values
      differ and the change is not minimal; the change carries both values,
      their kind, percent change and grade, and is attributed to the newest
      data point of the current period, or of the previous one when the
      current is empty. */
  lemma CompareValuesReports(sector: string, dimension: string, prev: seq<View>, cur: seq<View>,
                             now: Timestamp, period: Period)
    ensures var r := CompareValues(sector, dimension, prev, cur, now, period);
            r.Some? <==> FirstValue(prev) != FirstValue(cur)
                         && SignificanceOf(PercentChange(FirstValue(prev), FirstValue(cur))) != Significance.Minimal
    ensures var r := CompareValues(sector, dimension, prev, cur, now, period);
            r.Some? ==> && r.value.oldValue == FirstValue(prev)
                        && r.value.newValue == FirstValue(cur)
                        && Classify(r.value.oldValue, r.value.newValue) == Some(r.value.kind)
                        && r.value.percentChange == PercentChange(r.value.oldValue, r.value.newValue)
                        && r.value.significance == SignificanceOf(r.value.percentChange)
                        && r.value.dataPointId == (if cur != [] then cur[0].row.id else prev[0].row.id)
  {
  }

  /** A value that appears or disappears is always reported, as low. */
  lemma AppearingAlwaysReported(sector: string, dimension: string, prev: seq<View>, cur: seq<View>,
                                now: Timestamp, period: Period)
    requires FirstValue(prev).None? != FirstValue(cur).None?
    ensures CompareValues(sector, dimension, prev, cur, now, period).Some?
    ensures CompareValues(sector, dimension, prev, cur, now, period).value.significance == Significance.Low
    ensures CompareValues(sector, dimension, prev, cur, now, period).value.percentChange.None?
  {
  }

  /** Keeps data points of the given month or with no month. */
  function MonthIs(m: int): View -> bool {
    (v: View) => v.row.month == Some(m) || v.row.month.None?
  }

  /** Keeps annual data points, those with no month. */
  function Annual(): View -> bool {
    (v: View) => v.row.month.None?
  }

  /** The newest `limit` data points of a sector, dimension and year, then
      narrowed by `keep`. */
  function PeriodData(t: Tables, sector: string, dimension: string, year: int, limit: int,
                      keep: View -> bool): seq<View> {
    Filter(Query(t, RowFilter(Some(sector), Some(dimension), Some(year), None), limit), keep)
  }

  /** What one comparison of a sector and dimension over a period reports:
      month over month looks at the ten newest points of each year, year
      over year at the five newest. */
  function Comparison(t: Tables, sector: string, dimension: string, period: Period,
                      now: Timestamp): Option<Change> {
    match period
    case Months(y, m, py, pm) =>
      CompareValues(sector, dimension, PeriodData(t, sector, dimension, py, 10, MonthIs(pm)),
                    PeriodData(t, sector, dimension, y, 10, MonthIs(m)), now, period)
    case Years(y, py) =>
      CompareValues(sector, dimension, PeriodData(t, sector, dimension, py, 5, Annual()),
                    PeriodData(t, sector, dimension, y, 5, Annual()), now, period)
  }

  /** A reported change names a data point of the store that belongs to
      one of the two compared periods. */
  lemma ComparisonTraceable(t: Tables, sector: string, dimension: string, period: Period,
                            now: Timestamp)
    requires Comparison(t, sector, dimension, period, now).Some?
    ensures exists r :: r in t.rows
                        && r.id == Comparison(t, sector, dimension, period, now).value.dataPointId
                        && (r.year == Some(period.year) || r.year == Some(period.prevYear)
                            || period.year == 0 || period.prevYear == 0)
  {
    var limit := if period.Months? then 10 else 5;
    var prevKeep := if period.Months? then MonthIs(period.prevMonth) else Annual();
    var curKeep := if period.Months? then MonthIs(period.month) else Annual();
    var prev := PeriodData(t, sector, dimension, period.prevYear, limit, prevKeep);
    var cur := PeriodData(t, sector, dimension, period.year, limit, curKeep);
    assert Comparison(t, sector, dimension, period, now)
           == CompareValues(sector, dimension, prev, cur, now, period);
    CompareValuesReports(sector, dimension, prev, cur, now, period);
    if cur != [] {
      PeriodDataTraceable(t, sector, dimension, period.year, limit, curKeep);
    } else {
      PeriodDataTraceable(t, sector, dimension, period.prevYear, limit, prevKeep);
    }
  }

  /** The newest data point of a period is a row of the store of that year
      (of any year when the year is zero, which the filter skips). */
  lemma PeriodDataTraceable(t: Tables, sector: string, dimension: string, year: int, limit: int,
                            keep: View -> bool)
    requires PeriodData(t, sector, dimension, year, limit, keep) != []
    ensures var v := PeriodData(t, sector, dimension, year, limit, keep)[0];
            v.row in t.rows && (v.row.year == Some(year) || year == 0)
  {
    var f := RowFilter(Some(sector), Some(dimension), Some(year), None);
    var q := Query(t, f, limit);
    var data := PeriodData(t, sector, dimension, year, limit, keep);
    FilterSubset(q, keep);
    assert data[0] in data;
    var k :| 0 <= k < |q| && q[k] == data[0];
    QuerySound(t, f, limit, k);
  }

  /** `year or now.year`: a missing or zero argument means the clock's. */
  function OrNow(given: Option<int>, clock: int): (r: int)
    ensures given.Some? && given.value != 0 ==> r == given.value
    ensures given.None? || given.value == 0 ==> r == clock
  {
    if given.Some? && given.value != 0 then given.value else clock
  }

  /** The month before `m` of year `y`: one month earlier on the running
      month count, and a calendar month again when `m` is one. */
  function PreviousMonth(y: int, m: int): (r: (int, int))
    ensures r.0 * 12 + r.1 == y * 12 + m - 1
    ensures 1 <= m <= 12 ==> 1 <= r.1 <= 12
    ensures m != 1 ==> r.0 == y
  {
    if m == 1 then (y - 1, 12) else (y, m - 1)
  }

  // ------------------------------------------------------------ scans

  function Reported(c: Option<Change>): seq<Change> {
    if c.Some? then [c.value] else []
  }

  /** One comparison per sector and dimension name, over a fixed store,
      period and clock. */
  type Comparer = (string, string) -> Option<Change>

  function PairComparison(t: Tables, period: Period, now: Timestamp): Comparer {
    (sector: string, dimension: string) => Comparison(t, sector, dimension, period, now)
  }

  /** `compare` gives what `Comparison` gives on a store, period and clock;
      the scanning loops are stated over such a `compare`. */
  ghost predicate Agrees(compare: Comparer, t: Tables, period: Period, now: Timestamp) {
    forall sector, dimension {:trigger Comparison(t, sector, dimension, period, now)} ::
      compare(sector, dimension) == Comparison(t, sector, dimension, period, now)
  }

  /** The changes for one sector over a run of dimensions, in their order. */
  function ScanSector(sector: string, dims: seq<Dimension>, compare: Comparer): seq<Change> {
    if dims == [] then []
    else ScanSector(sector, dims[..|dims| - 1], compare) + Reported(compare(sector, dims[|dims| - 1].name))
  }

  /** The changes for every sector and dimension pair, sector by sector. */
  function Scan(sectors: seq<Sector>, dims: seq<Dimension>, compare: Comparer): seq<Change> {
    if sectors == [] then []
    else Scan(sectors[..|sectors| - 1], dims, compare)
         + ScanSector(sectors[|sectors| - 1].name, dims, compare)
  }

  /** Whether comparing `sector` with one of `dims` reports `c`. */
  ghost predicate SectorReports(sector: string, dims: seq<Dimension>, compare: Comparer, c: Change) {
    exists j :: 0 <= j < |dims| && compare(sector, dims[j].name) == Some(c)
  }

  /** Every change of a sector scan is a comparison of that sector with
      one of the dimensions, and every reported comparison is in it. */
  lemma {:induction false} ScanSectorExact(sector: string, dims: seq<Dimension>, compare: Comparer,
                                           c: Change)
    ensures c in ScanSector(sector, dims, compare) <==> SectorReports(sector, dims, compare, c)
  {
    if dims != [] {
      var init := dims[..|dims| - 1];
      var last := dims[|dims| - 1];
      ScanSectorExact(sector, init, compare, c);
      assert ScanSector(sector, dims, compare)
             == ScanSector(sector, init, compare) + Reported(compare(sector, last.name));
      if SectorReports(sector, dims, compare, c) {
        var j :| 0 <= j < |dims| && compare(sector, dims[j].name) == Some(c);
        if j < |dims| - 1 {
          assert init[j] == dims[j];
        }
      }
      if SectorReports(sector, init, compare, c) {
        var j :| 0 <= j < |init| && compare(sector, init[j].name) == Some(c);
        assert dims[j] == init[j];
      }
    }
  }

  /** Every change of a scan comes from one sector and dimension pair, and
      every pair whose comparison reports a change contributes it. */
  lemma {:induction false} ScanExact(sectors: seq<Sector>, dims: seq<Dimension>, compare: Comparer,
                                     c: Change)
    ensures c in Scan(sectors, dims, compare) <==>
              exists i :: 0 <= i < |sectors| && SectorReports(sectors[i].name, dims, compare, c)
  {
    if sectors != [] {
      var init := sectors[..|sectors| - 1];
      var last := sectors[|sectors| - 1];
      ScanExact(init, dims, compare, c);
      ScanSectorExact(last.name, dims, compare, c);
      assert Scan(sectors, dims, compare) == Scan(init, dims, compare) + ScanSector(last.name, dims, compare);
      if exists i :: 0 <= i < |sectors| && SectorReports(sectors[i].name, dims, compare, c) {
        var i :| 0 <= i < |sectors| && SectorReports(sectors[i].name, dims, compare, c);
        if i < |sectors| - 1 {
          assert init[i] == sectors[i];
        }
      }
      if exists i :: 0 <= i < |init| && SectorReports(init[i].name, dims, compare, c) {
        var i :| 0 <= i < |init| && SectorReports(init[i].name, dims, compare, c);
        assert sectors[i] == init[i];
      }
    }
  }

  /** The comparisons of a store never report a minimal change. */
  lemma PairComparisonNotMinimal(t: Tables, period: Period, now: Timestamp, sector: string,
                                 dimension: string)
    ensures PairComparison(t, period, now)(sector, dimension).Some? ==>
              PairComparison(t, period, now)(sector, dimension).value.significance != Significance.Minimal
  {
  }

  // ------------------------------------------------------------ ordering

  function IsTier(s: Significance): Change -> bool {
    (c: Change) => c.significance == s
  }

  /** The stable sort on `Rank`: the changes of each grade, in their
      original order, high grades first. */
  function TierSorted(cs: seq<Change>): seq<Change> {
    Filter(cs, IsTier(Significance.High)) + Filter(cs, IsTier(Significance.Medium)) + Filter(cs, IsTier(Significance.Low))
    + Filter(cs, IsTier(Significance.Minimal))
  }

  function RankFrom(r: nat): Change -> bool {
    (c: Change) => Rank(c.significance) >= r
  }

  /** Regrouping a chain of four multiset sums. */
  lemma MultisetSum4<T>(a: multiset<T>, b: multiset<T>, c: multiset<T>, d: multiset<T>,
                        from1: multiset<T>, from2: multiset<T>, all: multiset<T>)
    requires a + from1 == all && b + from2 == from1 && c + d == from2
    ensures a + b + c + d == all
  {
  }

  /** The changes from rank `r` on are those of grade `s`, which has rank
      `r`, and those from rank `r + 1` on. */
  lemma RankSplit(cs: seq<Change>, s: Significance, r: nat, next: nat)
    requires Rank(s) == r && next == r + 1
    ensures multiset(Filter(cs, IsTier(s))) + multiset(Filter(cs, RankFrom(next)))
            == multiset(Filter(cs, RankFrom(r)))
  {
    var x := Filter(cs, RankFrom(r));
    forall k | 0 <= k < |x|
      ensures RankFrom(next)(x[k]) == !IsTier(s)(x[k])
    {
      assert RankFrom(r)(x[k]);
    }
    FilterSplit(x, IsTier(s), RankFrom(next));
    FilterNarrow(cs, IsTier(s), RankFrom(r));
    FilterNarrow(cs, RankFrom(next), RankFrom(r));
  }

  /** Every change has rank 0 or more, and rank 3 only when it is minimal. */
  lemma RankEnds(cs: seq<Change>)
    ensures Filter(cs, RankFrom(0)) == cs
    ensures Filter(cs, IsTier(Significance.Minimal)) == Filter(cs, RankFrom(3))
  {
    forall k | 0 <= k < |cs|
      ensures RankFrom(0)(cs[k])
      ensures IsTier(Significance.Minimal)(cs[k]) == RankFrom(3)(cs[k])
    {
    }
    FilterAll(cs, RankFrom(0));
    FilterSame(cs, IsTier(Significance.Minimal), RankFrom(3));
  }

  /** Each grade's changes, taken together, are the changes themselves. */
  lemma TierPartition(cs: seq<Change>)
    ensures multiset(Filter(cs, IsTier(Significance.High))) + multiset(Filter(cs, IsTier(Significance.Medium)))
            + multiset(Filter(cs, IsTier(Significance.Low))) + multiset(Filter(cs, IsTier(Significance.Minimal)))
            == multiset(cs)
  {
    RankSplit(cs, Significance.High, 0, 1);
    RankSplit(cs, Significance.Medium, 1, 2);
    RankSplit(cs, Significance.Low, 2, 3);
    RankEnds(cs);
    MultisetSum4(multiset(Filter(cs, IsTier(Significance.High))),
                 multiset(Filter(cs, IsTier(Significance.Medium))),
                 multiset(Filter(cs, IsTier(Significance.Low))),
                 multiset(Filter(cs, IsTier(Significance.Minimal))),
                 multiset(Filter(cs, RankFrom(1))), multiset(Filter(cs, RankFrom(2))), multiset(cs));
  }

  /** Sorting only reorders. */
  lemma TierSortedPermutation(cs: seq<Change>)
    ensures multiset(TierSorted(cs)) == multiset(cs)
    ensures |TierSorted(cs)| == |cs|
  {
    TierPartition(cs);
    assert |multiset(TierSorted(cs))| == |multiset(cs)|;
  }

  /** Every selected element has the selected grade. */
  lemma TierFilterUniform(cs: seq<Change>, s: Significance, k: nat)
    requires k < |Filter(cs, IsTier(s))|
    ensures Filter(cs, IsTier(s))[k].significance == s
  {
    assert IsTier(s)(Filter(cs, IsTier(s))[k]);
  }

  /** The sorted changes never go from a higher rank back to a lower one. */
  lemma TierSortedOrdered(cs: seq<Change>)
    ensures forall a, b :: 0 <= a < b < |TierSorted(cs)| ==>
              Rank(TierSorted(cs)[a].significance) <= Rank(TierSorted(cs)[b].significance)
  {
    var h, m, l, n := Filter(cs, IsTier(Significance.High)), Filter(cs, IsTier(Significance.Medium)),
                      Filter(cs, IsTier(Significance.Low)), Filter(cs, IsTier(Significance.Minimal));
    var ts := TierSorted(cs);
    assert ts == h + m + l + n;
    forall k | 0 <= k < |ts|
      ensures Rank(ts[k].significance) == if k < |h| then 0 else if k < |h| + |m| then 1
                                          else if k < |h| + |m| + |l| then 2 else 3
    {
      if k < |h| {
        TierFilterUniform(cs, Significance.High, k);
      } else if k < |h| + |m| {
        TierFilterUniform(cs, Significance.Medium, k - |h|);
      } else if k < |h| + |m| + |l| {
        TierFilterUniform(cs, Significance.Low, k - |h| - |m|);
      } else {
        TierFilterUniform(cs, Significance.Minimal, k - |h| - |m| - |l|);
      }
    }
  }

  /** Selecting a grade from a selection of the same grade changes nothing,
      and from a selection of another grade gives nothing. */
  lemma {:induction false} TierFilterTwice(cs: seq<Change>, s: Significance, u: Significance)
    ensures Filter(Filter(cs, IsTier(u)), IsTier(s)) == if s == u then Filter(cs, IsTier(s)) else []
    decreases |cs|
  {
    if cs != [] {
      var init := cs[..|cs| - 1];
      var last := cs[|cs| - 1];
      TierFilterTwice(init, s, u);
      var fu := Filter(init, IsTier(u));
      if last.significance == u {
        assert Filter(cs, IsTier(u)) == fu + [last];
        var g := fu + [last];
        assert g[..|g| - 1] == fu && g[|g| - 1] == last;
        assert Filter(g, IsTier(s)) == Filter(fu, IsTier(s)) + (if last.significance == s then [last] else []);
      } else {
        assert Filter(cs, IsTier(u)) == fu;
      }
    }
  }

  lemma FilterConcat4<T>(a: seq<T>, b: seq<T>, c: seq<T>, d: seq<T>, p: T -> bool)
    ensures Filter(a + b + c + d, p) == Filter(a, p) + Filter(b, p) + Filter(c, p) + Filter(d, p)
  {
    FilterAppend(a, b, p);
    FilterAppend(a + b, c, p);
    FilterAppend(a + b + c, d, p);
  }

  /** Filtering the sorted changes for one grade: the grade's own part
      passes whole and the other three parts vanish. */
  lemma TierSortedFilter(cs: seq<Change>, s: Significance)
    ensures Filter(TierSorted(cs), IsTier(s))
            == Filter(Filter(cs, IsTier(Significance.High)), IsTier(s))
               + Filter(Filter(cs, IsTier(Significance.Medium)), IsTier(s))
               + Filter(Filter(cs, IsTier(Significance.Low)), IsTier(s))
               + Filter(Filter(cs, IsTier(Significance.Minimal)), IsTier(s))
  {
    FilterConcat4(Filter(cs, IsTier(Significance.High)), Filter(cs, IsTier(Significance.Medium)),
                  Filter(cs, IsTier(Significance.Low)), Filter(cs, IsTier(Significance.Minimal)), IsTier(s));
  }

  /** The sort is stable: within one grade the original order is kept. */
  lemma TierSortedStable(cs: seq<Change>, s: Significance)
    ensures Filter(TierSorted(cs), IsTier(s)) == Filter(cs, IsTier(s))
  {
    TierSortedParts(cs, s);
    var f: seq<Change> := Filter(cs, IsTier(s));
    var none: seq<Change> := [];
    match s
    case High => assert f + none + none + none == f;
    case Medium => assert none + f + none + none == f;
    case Low => assert none + none + f + none == f;
    case Minimal => assert none + none + none + f == f;
  }

  /** Of the four parts of the sorted changes only the grade's own part
      survives filtering for that grade. */
  lemma TierSortedParts(cs: seq<Change>, s: Significance)
    ensures var f := Filter(cs, IsTier(s));
            Filter(TierSorted(cs), IsTier(s))
            == (if s == Significance.High then f else []) + (if s == Significance.Medium then f else [])
               + (if s == Significance.Low then f else []) + (if s == Significance.Minimal then f else [])
  {
    TierSortedFilter(cs, s);
    TierFilterTwice(cs, s, Significance.High);
    TierFilterTwice(cs, s, Significance.Medium);
    TierFilterTwice(cs, s, Significance.Low);
    TierFilterTwice(cs, s, Significance.Minimal);
  }

  /** No scanned change is minimal. */
  lemma {:induction false} ScanNotMinimal(t: Tables, sectors: seq<Sector>, dims: seq<Dimension>,
                                          period: Period, now: Timestamp)
    ensures Filter(Scan(sectors, dims, PairComparison(t, period, now)), IsTier(Significance.Minimal)) == []
  {
    var compare := PairComparison(t, period, now);
    var cs := Scan(sectors, dims, compare);
    if Filter(cs, IsTier(Significance.Minimal)) != [] {
      var c := Filter(cs, IsTier(Significance.Minimal))[0];
      FilterSubset(cs, IsTier(Significance.Minimal));
      assert c in Filter(cs, IsTier(Significance.Minimal));
      assert c in cs && c.significance == Significance.Minimal;
      ScanExact(sectors, dims, compare, c);
      var i :| 0 <= i < |sectors| && SectorReports(sectors[i].name, dims, compare, c);
      var j :| 0 <= j < |dims| && compare(sectors[i].name, dims[j].name) == Some(c);
      PairComparisonNotMinimal(t, period, now, sectors[i].name, dims[j].name);
      assert false;
    }
  }

  /** With no minimal change present, the high, medium and low counts add
      up to the total. */
  lemma TierCounts(cs: seq<Change>)
    requires Filter(cs, IsTier(Significance.Minimal)) == []
    ensures |cs| == |Filter(cs, IsTier(Significance.High))| + |Filter(cs, IsTier(Significance.Medium))| + |Filter(cs, IsTier(Significance.Low))|
  {
    TierPartition(cs);
    assert |multiset(cs)| == |cs|;
  }

  /** Every pair of a period compared, sectors and dimensions each taken in
      order of name, as `get_sectors` and `get_dimensions` list them. */
  function ScanByName(t: Tables, period: Period, now: Timestamp): seq<Change> {
    Scan(SortByKey(t.sectors, SectorKey), SortByKey(t.dimensions, DimensionKey), PairComparison(t, period, now))
  }

  /** Month over month for the given month (the clock's when not given):
      every pair compared with the month before, sorted by significance. */
  function MonthOverMonth(t: Tables, year: int, month: int, now: Timestamp): seq<Change> {
    var prev := PreviousMonth(year, month);
    TierSorted(ScanByName(t, Months(year, month, prev.0, prev.1), now))
  }

  /** The grades of a month's changes account for all of them. */
  lemma MonthOverMonthCounts(t: Tables, year: int, month: int, now: Timestamp)
    ensures var cs := MonthOverMonth(t, year, month, now);
            |cs| == |Filter(cs, IsTier(Significance.High))| + |Filter(cs, IsTier(Significance.Medium))|
                    + |Filter(cs, IsTier(Significance.Low))|
  {
    var prev := PreviousMonth(year, month);
    var sectors, dims := SortByKey(t.sectors, SectorKey), SortByKey(t.dimensions, DimensionKey);
    var scanned := Scan(sectors, dims, PairComparison(t, Months(year, month, prev.0, prev.1), now));
    ScanNotMinimal(t, sectors, dims, Months(year, month, prev.0, prev.1), now);
    TierSortedStable(scanned, Significance.Minimal);
    TierCounts(TierSorted(scanned));
  }

  // ------------------------------------------------------------ detector

  /** The detector reads the store; it changes nothing. */
  class ChangeDetector {
    const db: Database

    constructor (db: Database)
      ensures this.db == db
    {
      this.db := db;
    }

    /** `compare_periods`: period 1 is the earlier one. */
    method ComparePeriods(sector: string, dimension: string, year1: int, month1: int,
                          year2: int, month2: int, now: Timestamp) returns (c: Option<Change>)
      ensures c == Comparison(db.Current(), sector, dimension, Months(year2, month2, year1, month1), now)
    {
      var data1 := db.GetDataPoints(RowFilter(Some(sector), Some(dimension), Some(year1), None), 10);
      data1 := Filter(data1, MonthIs(month1));
      var data2 := db.GetDataPoints(RowFilter(Some(sector), Some(dimension), Some(year2), None), 10);
      data2 := Filter(data2, MonthIs(month2));
      c := CompareValues(sector, dimension, data1, data2, now, Months(year2, month2, year1, month1));
    }

    /** The body of the year-over-year loop for one pair: annual points of
        the two years. */
    method CompareYears(sector: string, dimension: string, year: int, now: Timestamp)
      returns (c: Option<Change>)
      ensures c == Comparison(db.Current(), sector, dimension, Years(year, year - 1), now)
    {
      var current := db.GetDataPoints(RowFilter(Some(sector), Some(dimension), Some(year), None), 5);
      current := Filter(current, Annual());
      var previous := db.GetDataPoints(RowFilter(Some(sector), Some(dimension), Some(year - 1), None), 5);
      previous := Filter(previous, Annual());
      c := CompareValues(sector, dimension, previous, current, now, Years(year, year - 1));
    }

    /** Sorts changes by `Rank`, keeping the order within a grade. */
    method SortBySignificance(cs: seq<Change>) returns (sorted: seq<Change>)
      ensures sorted == TierSorted(cs)
    {
      var high, medium, low, rest := [], [], [], [];
      var i := 0;
      while i < |cs|
        invariant 0 <= i <= |cs|
        invariant high == Filter(cs[..i], IsTier(Significance.High))
        invariant medium == Filter(cs[..i], IsTier(Significance.Medium))
        invariant low == Filter(cs[..i], IsTier(Significance.Low))
        invariant rest == Filter(cs[..i], IsTier(Significance.Minimal))
      {
        assert cs[..i + 1][..i] == cs[..i];
        match cs[i].significance {
          case High => high := high + [cs[i]];
          case Medium => medium := medium + [cs[i]];
          case Low => low := low + [cs[i]];
          case Minimal => rest := rest + [cs[i]];
        }
        i := i + 1;
      }
      assert cs[..i] == cs;
      sorted := high + medium + low + rest;
    }

    /** One comparison, by the rules of the period's kind. */
    method ComparePair(sector: string, dimension: string, period: Period, now: Timestamp,
                       ghost compare: Comparer) returns (c: Option<Change>)
      requires period.Months? || period.prevYear == period.year - 1
      requires compare(sector, dimension) == Comparison(db.Current(), sector, dimension, period, now)
      ensures c == compare(sector, dimension)
    {
      match period {
        case Months(year, month, prevYear, prevMonth) =>
          c := ComparePeriods(sector, dimension, prevYear, prevMonth, year, month, now);
          assert c == Comparison(db.Current(), sector, dimension, period, now);
        case Years(year, _) =>
          assert period == Years(year, year - 1);
          c := CompareYears(sector, dimension, year, now);
      }
    }

    /** The inner loop: one sector against every dimension listed. */
    method ScanSectorPairs(sector: string, dims: seq<Dimension>, period: Period, now: Timestamp,
                           ghost compare: Comparer)
      returns (found: seq<Change>)
      requires period.Months? || period.prevYear == period.year - 1
      requires Agrees(compare, db.Current(), period, now)
      ensures found == ScanSector(sector, dims, compare)
    {
      found := [];
      var j := 0;
      while j < |dims|
        invariant 0 <= j <= |dims|
        invariant found == ScanSector(sector, dims[..j], compare)
      {
        var c := ComparePair(sector, dims[j].name, period, now, compare);
        assert dims[..j + 1][..j] == dims[..j];
        if c.Some? {
          found := found + [c.value];
        }
        j := j + 1;
      }
      assert dims[..j] == dims;
    }

    /** Runs one comparison for every sector and every dimension, each
        listed in order of name. */
    method ScanPairs(period: Period, now: Timestamp) returns (changes: seq<Change>)
      requires period.Months? || period.prevYear == period.year - 1
      ensures changes == ScanByName(db.Current(), period, now)
    {
      var listing := db.GetSectors();
      var dims := db.GetDimensions();
      ghost var compare := PairComparison(db.Current(), period, now);
      changes := ScanAll(ListedSectors(listing), dims, period, now, compare);
    }

    /** The outer loop: every sector listed in turn. */
    method ScanAll(sectors: seq<Sector>, dims: seq<Dimension>, period: Period, now: Timestamp,
                   ghost compare: Comparer) returns (changes: seq<Change>)
      requires period.Months? || period.prevYear == period.year - 1
      requires Agrees(compare, db.Current(), period, now)
      ensures changes == Scan(sectors, dims, compare)
    {
      changes := [];
      var i := 0;
      while i < |sectors|
        invariant 0 <= i <= |sectors|
        invariant changes == Scan(sectors[..i], dims, compare)
      {
        var found := ScanSectorPairs(sectors[i].name, dims, period, now, compare);
        assert sectors[..i + 1][..i] == sectors[..i];
        changes := changes + found;
        i := i + 1;
      }
      assert sectors[..i] == sectors;
    }

    /** `detect_month_over_month_changes`: every sector and dimension
        compared with the month before, most significant first. */
    method DetectMonthOverMonth(year: Option<int>, month: Option<int>, clockYear: int,
                                clockMonth: int, now: Timestamp) returns (changes: seq<Change>)
      ensures changes == MonthOverMonth(db.Current(), OrNow(year, clockYear), OrNow(month, clockMonth), now)
    {
      var y := OrNow(year, clockYear);
      var m := OrNow(month, clockMonth);
      var prev := PreviousMonth(y, m);
      var found := ScanPairs(Months(y, m, prev.0, prev.1), now);
      changes := SortBySignificance(found);
    }

    /** `detect_year_over_year_changes`: annual points of every sector and
        dimension compared with the year before, in order of sector and
        dimension name. */
    method DetectYearOverYear(year: Option<int>, clockYear: int, now: Timestamp)
      returns (changes: seq<Change>)
      ensures changes == ScanByName(db.Current(), Years(OrNow(year, clockYear), OrNow(year, clockYear) - 1), now)
    {
      var y := OrNow(year, clockYear);
      changes := ScanPairs(Years(y, y - 1), now);
    }
  }

  // ------------------------------------------------------------ reports

  datatype Summary = Summary(total: nat, high: nat, medium: nat, low: nat)

  datatype MonthlyReport = MonthlyReport(
    year: int,
    month: int,
    generatedAt: Timestamp,
    summary: Summary,
    high: seq<Change>,
    medium: seq<Change>,
    low: seq<Change>,
    bySector: map<string, seq<Change>>,
    sectorOrder: seq<string>)

  function SectorIs(name: string): Change -> bool {
    (c: Change) => c.sector == name
  }

  /** The grouping loop by grade; a minimal change would fall in no group. */
  method GroupBySignificance(cs: seq<Change>) returns (high: seq<Change>, medium: seq<Change>, low: seq<Change>)
    ensures high == Filter(cs, IsTier(Significance.High))
    ensures medium == Filter(cs, IsTier(Significance.Medium))
    ensures low == Filter(cs, IsTier(Significance.Low))
  {
    high, medium, low := [], [], [];
    var i := 0;
    while i < |cs|
      invariant 0 <= i <= |cs|
      invariant high == Filter(cs[..i], IsTier(Significance.High))
      invariant medium == Filter(cs[..i], IsTier(Significance.Medium))
      invariant low == Filter(cs[..i], IsTier(Significance.Low))
    {
      assert cs[..i + 1][..i] == cs[..i];
      if cs[i].significance == Significance.High {
        high := high + [cs[i]];
      } else if cs[i].significance == Significance.Medium {
        medium := medium + [cs[i]];
      } else if cs[i].significance == Significance.Low {
        low := low + [cs[i]];
      }
      i := i + 1;
    }
    assert cs[..i] == cs;
  }

  /** The sectors that have a change. */
  function SectorsOf(cs: seq<Change>): set<string> {
    set c | c in cs :: c.sector
  }

  /** The order in which a dict keyed by sector receives its keys: each
      sector where its first change stands. */
  function SectorOrder(cs: seq<Change>): seq<string> {
    if cs == [] then []
    else
      var order := SectorOrder(cs[..|cs| - 1]);
      var s := cs[|cs| - 1].sector;
      if s in order then order else order + [s]
  }

  /** Some change of sector `s` comes before every change of sector `t`. */
  ghost predicate FirstBefore(cs: seq<Change>, s: string, t: string) {
    exists i :: 0 <= i < |cs| && cs[i].sector == s && forall j :: 0 <= j <= i ==> cs[j].sector != t
  }

  /** The key order lists every sector that has a change, each once, in the
      order of their first changes. */
  lemma {:induction false} SectorOrderSound(cs: seq<Change>)
    ensures forall s :: s in SectorOrder(cs) <==> s in SectorsOf(cs)
    ensures forall a, b :: 0 <= a < b < |SectorOrder(cs)| ==> SectorOrder(cs)[a] != SectorOrder(cs)[b]
    ensures forall a, b :: 0 <= a < b < |SectorOrder(cs)| ==>
              FirstBefore(cs, SectorOrder(cs)[a], SectorOrder(cs)[b])
    decreases |cs|
  {
    if cs != [] {
      var init, c := cs[..|cs| - 1], cs[|cs| - 1];
      assert cs == init + [c];
      SectorOrderSound(init);
      SectorsOfSnoc(init, c);
      var order := SectorOrder(init);
      forall a, b | 0 <= a < b < |order|
        ensures FirstBefore(cs, order[a], order[b])
      {
        FirstBeforeSnoc(init, c, order[a], order[b]);
      }
      if c.sector !in order {
        forall a | 0 <= a < |order|
          ensures FirstBefore(cs, order[a], c.sector)
        {
          FirstBeforeNew(init, c, order[a]);
        }
      }
    }
  }

  /** Appending a change keeps an earlier first change earlier. */
  lemma FirstBeforeSnoc(init: seq<Change>, c: Change, s: string, t: string)
    requires FirstBefore(init, s, t)
    ensures FirstBefore(init + [c], s, t)
  {
    var cs := init + [c];
    var i :| 0 <= i < |init| && init[i].sector == s
             && forall j :: 0 <= j <= i ==> init[j].sector != t;
    assert cs[i] == init[i];
    assert forall j :: 0 <= j <= i ==> cs[j] == init[j];
  }

  /** A sector that already has a change comes before a sector first met in
      the appended change. */
  lemma FirstBeforeNew(init: seq<Change>, c: Change, s: string)
    requires s in SectorsOf(init) && c.sector !in SectorsOf(init)
    ensures FirstBefore(init + [c], s, c.sector)
  {
    var cs := init + [c];
    var i :| 0 <= i < |init| && init[i].sector == s;
    forall j | 0 <= j <= i
      ensures cs[j].sector != c.sector
    {
      assert cs[j] == init[j] && init[j] in init;
    }
    assert cs[i] == init[i];
  }

  /** The grouping loop by sector: one entry per sector that has a change,
      holding that sector's changes in order, with the sectors in the order
      the dict receives them. */
  method GroupBySector(cs: seq<Change>) returns (bySector: map<string, seq<Change>>, order: seq<string>)
    ensures Grouped(cs, bySector)
    ensures order == SectorOrder(cs)
  {
    bySector, order := map[], [];
    var i := 0;
    while i < |cs|
      invariant 0 <= i <= |cs|
      invariant Grouped(cs[..i], bySector)
      invariant order == SectorOrder(cs[..i])
    {
      var c := cs[i];
      ghost var before := bySector;
      SectorOrderSound(cs[..i]);
      assert cs[..i + 1][..i] == cs[..i];
      if c.sector in bySector {
        bySector := bySector[c.sector := bySector[c.sector] + [c]];
      } else {
        bySector := bySector[c.sector := [c]];
        order := order + [c.sector];
      }
      GroupStep(cs, i, before, bySector);
      i := i + 1;
    }
    assert cs[..i] == cs;
  }

  /** `groups` holds, for each sector that has a change, that sector's
      changes in order, and nothing else. */
  ghost predicate Grouped(cs: seq<Change>, groups: map<string, seq<Change>>) {
    && groups.Keys == SectorsOf(cs)
    && forall s :: s in groups ==> groups[s] == Filter(cs, SectorIs(s))
  }

  /** Appending one more change to its sector's group, opening the group
      if needed, keeps the grouping exact. */
  lemma GroupStep(cs: seq<Change>, i: nat, groups: map<string, seq<Change>>,
                  next: map<string, seq<Change>>)
    requires i < |cs| && Grouped(cs[..i], groups)
    requires var c := cs[i];
             next == if c.sector in groups then groups[c.sector := groups[c.sector] + [c]]
                     else groups[c.sector := [c]]
    ensures Grouped(cs[..i + 1], next)
  {
    var prefix, c := cs[..i], cs[i];
    assert cs[..i + 1] == prefix + [c];
    SectorsOfSnoc(prefix, c);
    assert next.Keys == SectorsOf(cs[..i + 1]);
    forall s | s in next
      ensures next[s] == Filter(cs[..i + 1], SectorIs(s))
    {
      GroupEntry(prefix, c, groups, next, s);
    }
  }

  lemma SectorsOfSnoc(prefix: seq<Change>, c: Change)
    ensures SectorsOf(prefix + [c]) == SectorsOf(prefix) + {c.sector}
  {
  }

  /** One sector's group after the step. */
  lemma GroupEntry(prefix: seq<Change>, c: Change, groups: map<string, seq<Change>>,
                   next: map<string, seq<Change>>, s: string)
    requires Grouped(prefix, groups) && s in next
    requires next == if c.sector in groups then groups[c.sector := groups[c.sector] + [c]]
                     else groups[c.sector := [c]]
    ensures next[s] == Filter(prefix + [c], SectorIs(s))
  {
    FilterSnoc(prefix, c, SectorIs(s));
    if s == c.sector && c.sector !in groups {
      assert forall k :: 0 <= k < |prefix| ==> prefix[k] in prefix;
      FilterNone(prefix, SectorIs(c.sector));
    }
  }

  class ChangeReporter {
    const detector: ChangeDetector

    constructor (detector: ChangeDetector)
      ensures this.detector == detector
    {
      this.detector := detector;
    }

    /** `generate_monthly_report`: the month's changes grouped by grade and
        by sector; the grade counts add up to the total. */
    method GenerateMonthlyReport(year: Option<int>, month: Option<int>, clockYear: int,
                                 clockMonth: int, now: Timestamp) returns (report: MonthlyReport)
      ensures var db := detector.db;
              var cs := MonthOverMonth(db.Current(), OrNow(year, clockYear), OrNow(month, clockMonth), now);
              && report.year == OrNow(year, clockYear) && report.month == OrNow(month, clockMonth)
              && report.high == Filter(cs, IsTier(Significance.High))
              && report.medium == Filter(cs, IsTier(Significance.Medium))
              && report.low == Filter(cs, IsTier(Significance.Low))
              && report.summary == Summary(|cs|, |report.high|, |report.medium|, |report.low|)
              && Grouped(cs, report.bySector) && report.sectorOrder == SectorOrder(cs)
      ensures report.summary.total == report.summary.high + report.summary.medium + report.summary.low
    {
      var y := OrNow(year, clockYear);
      var m := OrNow(month, clockMonth);
      var changes := detector.DetectMonthOverMonth(Some(y), Some(m), clockYear, clockMonth, now);
      var high, medium, low := GroupBySignificance(changes);
      var bySector, order := GroupBySector(changes);
      MonthOverMonthCounts(detector.db.Current(), y, m, now);
      report := MonthlyReport(y, m, now, Summary(|changes|, |high|, |medium|, |low|),
                              high, medium, low, bySector, order);
    }
  }
}
