/** The data reconciler (`remove_outliers_std` and `PrepareData`): cutover split of the two
    sources, concatenation and sort, zero-as-missing, null drop, global k-sigma outlier
    filter and the Year -> `ds` conversion. */
module Reconcile {
  import opened Wrappers
  import opened Seqs
  import opened Frames

  /** The supplementary source covers the years before this one, the competition source
      this year and after. */
  const CutoverYear: int := 2000

  /** Default `num_std` of `remove_outliers_std`. */
  const DefaultNumStd: real := 3.0

  /** January 1 of these years is inside pandas' nanosecond Timestamp range
      (1677-09-21 .. 2262-04-11); `pd.to_datetime` raises for any other year. */
  const MinTimestampYear: int := 1678
  const MaxTimestampYear: int := 2262

  // ---------------------------------------------------------------------------
  // Cutover split, concatenation and sort

  /** `Year < 2000`; a NaN Year compares false. */
  predicate BeforeCutover(r: Row)
  {
    r.year.Some? && r.year.value < CutoverYear
  }

  /** `Year >= 2000`; a NaN Year compares false. */
  predicate FromCutover(r: Row)
  {
    r.year.Some? && r.year.value >= CutoverYear
  }

  /** `before_2000`: the supplementary rows dated before the cutover, in file order. */
  function SupplementaryBeforeCutover(supp: seq<SupplementaryRecord>): (f: seq<Row>)
    ensures IsSubseq(f, SupplementaryFrame(supp))
    ensures SelectsExactly(f, SupplementaryFrame(supp), BeforeCutover)
  {
    var all := SupplementaryFrame(supp);
    FilterIsSubseq(all, BeforeCutover);
    FilterMultiset(all, BeforeCutover);
    Filter(all, BeforeCutover)
  }

  /** `from_2000_onwards`: the competition rows dated at or after the cutover, in file order. */
  function CompetitionFromCutover(comp: seq<CompetitionRecord>): (f: seq<Row>)
    ensures IsSubseq(f, CompetitionFrame(comp))
    ensures SelectsExactly(f, CompetitionFrame(comp), FromCutover)
  {
    var all := CompetitionFrame(comp);
    FilterIsSubseq(all, FromCutover);
    FilterMultiset(all, FromCutover);
    Filter(all, FromCutover)
  }

  /** How often a row should occur in the combined table: as often as the supplementary
      source holds it if it is dated before the cutover, as often as the competition source
      holds it if it is dated at or after it. */
  function CutoverCount(comp: seq<CompetitionRecord>, supp: seq<SupplementaryRecord>, x: Row): nat
  {
    (if BeforeCutover(x) then multiset(SupplementaryFrame(supp))[x] else 0) +
    (if FromCutover(x) then multiset(CompetitionFrame(comp))[x] else 0)
  }

  /** `pd.concat([before_2000, from_2000_onwards]).sort_values(by=['Country', 'Year'])`:
      sorted by (Country, Year), and holding each supplementary row dated before the cutover
      and each competition row dated at or after it, as often as the source holds it, and
      nothing else. */
  function CombineAndSort(comp: seq<CompetitionRecord>, supp: seq<SupplementaryRecord>): (r: seq<Row>)
    ensures SortedByKey(r)
    ensures multiset(r) ==
      multiset(SupplementaryBeforeCutover(supp)) + multiset(CompetitionFromCutover(comp))
    ensures forall x :: multiset(r)[x] == CutoverCount(comp, supp, x)
  {
    var before := SupplementaryBeforeCutover(supp);
    var after := CompetitionFromCutover(comp);
    assert multiset(before + after) == multiset(before) + multiset(after);
    SortByCountryYear(before + after)
  }

  /** Provenance: every combined row is dated, a row dated before the cutover is a
      supplementary row and a row dated at or after it is a competition row. */
  lemma CutoverProvenance(comp: seq<CompetitionRecord>, supp: seq<SupplementaryRecord>, x: Row)
    requires x in CombineAndSort(comp, supp)
    ensures x.year.Some?
    ensures x.year.value < CutoverYear ==> x in SupplementaryFrame(supp)
    ensures x.year.value >= CutoverYear ==> x in CompetitionFrame(comp)
  {
    var r := CombineAndSort(comp, supp);
    assert multiset(r)[x] > 0;
  }

  /** Rows of the two sources that share a Country and Year keep their concatenation order:
      the supplementary ones first, each source's in file order. */
  lemma CombineStable(comp: seq<CompetitionRecord>, supp: seq<SupplementaryRecord>, k: Row)
    ensures Filter(CombineAndSort(comp, supp), WithKeyOf(k)) ==
      Filter(SupplementaryBeforeCutover(supp), WithKeyOf(k)) +
      Filter(CompetitionFromCutover(comp), WithKeyOf(k))
  {
    var before := SupplementaryBeforeCutover(supp);
    var after := CompetitionFromCutover(comp);
    SortStable(before + after, k);
    FilterConcat(before, after, WithKeyOf(k));
  }

  // ---------------------------------------------------------------------------
  // Zero-as-missing and null drop

  /** `replace(0, np.nan)` on one row: a zero Year or a zero metric becomes NaN; the string
      columns hold no integer 0 and are left alone. */
  function MaskZero(r: Row): Row
  {
    Row(r.country, r.code,
        if r.year == Some(0) then None else r.year,
        if r.value == Some(0.0) then None else r.value)
  }

  /** `combined_data.replace(0, np.nan)`: every zero Year or metric becomes NaN, and every
      other cell is as before. */
  function ReplaceZeros(rows: seq<Row>): (m: seq<Row>)
    ensures |m| == |rows|
    ensures forall i :: 0 <= i < |m| ==>
      m[i].country == rows[i].country && m[i].code == rows[i].code
    ensures forall i :: 0 <= i < |m| ==>
      m[i].year != Some(0) && m[i].value != Some(0.0)
    ensures forall i :: 0 <= i < |m| ==>
      (rows[i].year == Some(0) ==> m[i].year.None?) &&
      (rows[i].value == Some(0.0) ==> m[i].value.None?)
    ensures forall i :: 0 <= i < |m| ==>
      (rows[i].year != Some(0) ==> m[i].year == rows[i].year) &&
      (rows[i].value != Some(0.0) ==> m[i].value == rows[i].value)
  {
    seq(|rows|, i requires 0 <= i < |rows| => MaskZero(rows[i]))
  }

  /** Survives `dropna(subset=[metric, 'Code'])`. */
  predicate HasMetricAndCode(r: Row)
  {
    r.value.Some? && r.code.Some?
  }

  /** `dropna(subset=[metric, 'Code'])`: exactly the rows with both cells present, in order. */
  function DropMissing(rows: seq<Row>): (d: seq<Row>)
    ensures IsSubseq(d, rows)
    ensures forall i :: 0 <= i < |d| ==> d[i].value.Some? && d[i].code.Some?
    ensures SelectsExactly(d, rows, HasMetricAndCode)
  {
    FilterIsSubseq(rows, HasMetricAndCode);
    FilterMultiset(rows, HasMetricAndCode);
    Filter(rows, HasMetricAndCode)
  }

  /** A row with a Code and a non-zero metric. */
  predicate IsValid(r: Row)
  {
    r.code.Some? && r.value.Some? && r.value.value != 0.0
  }

  /** The zero-as-missing rule and the drop together: no surviving row has a zero, missing
      metric or a missing Code, and every row with a non-zero metric and a Code survives. */
  lemma ZeroAsMissingDrop(rows: seq<Row>)
    ensures forall x :: x in DropMissing(ReplaceZeros(rows)) ==> IsValid(x)
    ensures forall i :: 0 <= i < |rows| && IsValid(rows[i]) ==>
                          MaskZero(rows[i]) in DropMissing(ReplaceZeros(rows))
  {
    var m := ReplaceZeros(rows);
    var d := DropMissing(m);
    forall x | x in d ensures IsValid(x) {
      var i :| 0 <= i < |d| && d[i] == x;
      SubseqMembers(d, m);
      assert x in m;
    }
    forall i | 0 <= i < |rows| && IsValid(rows[i])
      ensures MaskZero(rows[i]) in d
    {
      assert m[i] == MaskZero(rows[i]);
      assert multiset(m)[m[i]] > 0;
    }
  }

  // ---------------------------------------------------------------------------
  // Global k-sigma outlier filter

  /** `Series.mean()` and `Series.std()` of a column; None stands for NaN (pandas returns
      NaN for an empty column, and a NaN std for a single value). */
  datatype Moments = Moments(mean: Option<real>, std: Option<real>)

  /** The closed interval `[lower, upper]` of `remove_outliers_std`. */
  datatype Bounds = Bounds(lower: real, upper: real)

  /** The metric column of a table. */
  function MetricColumn(rows: seq<Row>): (col: seq<Option<real>>)
    ensures |col| == |rows|
    ensures forall i :: 0 <= i < |rows| ==> col[i] == rows[i].value
  {
    seq(|rows|, i requires 0 <= i < |rows| => rows[i].value)
  }

  /** `cutoff = std * num_std; lower, upper = mean - cutoff, mean + cutoff`: the interval
      centred on the mean with half-width num_std standard deviations; NaN when either
      moment is NaN. */
  function OutlierBounds(m: Moments, numStd: real): (b: Option<Bounds>)
    ensures b.Some? <==> m.mean.Some? && m.std.Some?
    ensures b.Some? ==>
      b.value.upper - m.mean.value == m.std.value * numStd &&
      m.mean.value - b.value.lower == m.std.value * numStd
  {
    if m.mean.Some? && m.std.Some? then
      var cutoff := m.std.value * numStd;
      Some(Bounds(m.mean.value - cutoff, m.mean.value + cutoff))
    else None
  }

  /** `(df[column] >= lower) & (df[column] <= upper)`; any comparison with NaN is false. */
  predicate WithinBounds(r: Row, b: Option<Bounds>)
  {
    b.Some? && r.value.Some? && b.value.lower <= r.value.value <= b.value.upper
  }

  /** The mask of `remove_outliers_std` for bounds `b`. */
  function Inside(b: Option<Bounds>): Row -> bool
  {
    r => WithinBounds(r, b)
  }

  /** `remove_outliers_std(df, column, num_std)`. `stats` stands for pandas' mean and
      sample standard deviation and is applied to the metric column of the INPUT table, so
      every kept row lies within bounds computed before anything was removed. The output
      is an order-preserving subsequence of the input that keeps each in-bounds row
      exactly as often as the input holds it, and nothing else. */
  function RemoveOutliersStd(rows: seq<Row>, stats: seq<Option<real>> -> Moments, numStd: real)
    : (kept: seq<Row>)
    ensures |kept| <= |rows|
    ensures IsSubseq(kept, rows)
    ensures forall i :: 0 <= i < |kept| ==>
      WithinBounds(kept[i], OutlierBounds(stats(MetricColumn(rows)), numStd))
    ensures SelectsExactly(kept, rows, Inside(OutlierBounds(stats(MetricColumn(rows)), numStd)))
  {
    var inside := Inside(OutlierBounds(stats(MetricColumn(rows)), numStd));
    FilterIsSubseq(rows, inside);
    FilterMultiset(rows, inside);
    Filter(rows, inside)
  }

  /** With a non-negative spread and multiplier the interval is not empty, and its centre
      (the mean) is in it. */
  lemma BoundsOrdered(mean: real, std: real, numStd: real)
    requires std >= 0.0 && numStd >= 0.0
    ensures OutlierBounds(Moments(Some(mean), Some(std)), numStd).Some?
    ensures OutlierBounds(Moments(Some(mean), Some(std)), numStd).value.lower <= mean
    ensures mean <= OutlierBounds(Moments(Some(mean), Some(std)), numStd).value.upper
  {
    assert std * numStd >= 0.0;
  }

  /** A NaN mean or standard deviation (an empty or single-row table) makes every
      comparison false, so the filter removes every row. */
  lemma UndefinedMomentsDropAll(rows: seq<Row>, stats: seq<Option<real>> -> Moments, numStd: real)
    requires stats(MetricColumn(rows)).mean.None? || stats(MetricColumn(rows)).std.None?
    ensures RemoveOutliersStd(rows, stats, numStd) == []
  {
  }

  /** Rows inside the bounds are never dropped: when every row is inside, nothing is. */
  lemma AllWithinBoundsKept(rows: seq<Row>, stats: seq<Option<real>> -> Moments, numStd: real)
    requires forall i :: 0 <= i < |rows| ==>
      WithinBounds(rows[i], OutlierBounds(stats(MetricColumn(rows)), numStd))
    ensures RemoveOutliersStd(rows, stats, numStd) == rows
  {
    FilterKeepsAll(rows, Inside(OutlierBounds(stats(MetricColumn(rows)), numStd)));
  }

  // ---------------------------------------------------------------------------
  // Year -> ds

  /** `pd.to_datetime(Year, format='%Y')` can represent this Year (NaN becomes NaT). */
  predicate Representable(year: Option<int>)
  {
    year.None? || MinTimestampYear <= year.value <= MaxTimestampYear
  }

  /** The error `pd.to_datetime` raises for the first Year it cannot represent. */
  datatype DateError = OutOfBoundsDatetime(year: int)

  /** `o` is `r` with `ds` added as January 1 of its Year (NaT for a NaN Year) and the metric
      renamed to `y`; no other field differs. */
  predicate Converted(r: Row, o: ProphetRow)
  {
    && o.country == r.country && o.code == r.code && o.year == r.year && o.y == r.value
    && (r.year.None? ==> o.ds.None?)
    && (r.year.Some? ==> o.ds.Some? && o.ds.value.year == r.year.value
                         && o.ds.value.month == 1 && o.ds.value.day == 1)
  }

  function ToProphetRow(r: Row): ProphetRow
  {
    ProphetRow(r.country, r.code, r.year, r.value,
               if r.year.Some? then Some(Date(r.year.value, 1, 1)) else None)
  }

  /** Lines 67-68: succeeds exactly when every Year is representable, and then converts
      each row in place; otherwise fails naming a Year that is not. */
  function ToProphetFrame(rows: seq<Row>): (res: Result<seq<ProphetRow>, DateError>)
    ensures res.Success? <==> forall i :: 0 <= i < |rows| ==> Representable(rows[i].year)
    ensures res.Success? ==>
      |res.value| == |rows| && forall i :: 0 <= i < |rows| ==> Converted(rows[i], res.value[i])
    ensures res.Failure? ==>
              exists i :: 0 <= i < |rows| && rows[i].year == Some(res.error.year) &&
                          !Representable(rows[i].year)
    decreases |rows|
  {
    if |rows| == 0 then Success([])
    else if !Representable(rows[0].year) then Failure(OutOfBoundsDatetime(rows[0].year.value))
    else
      match ToProphetFrame(rows[1..])
      case Success(t) => Success([ToProphetRow(rows[0])] + t)
      case Failure(e) => Failure(e)
  }

  /** Renaming `y` back and dropping `ds` undoes the conversion. */
  lemma ToProphetFrameRoundTrip(rows: seq<Row>)
    requires ToProphetFrame(rows).Success?
    ensures RowsOf(ToProphetFrame(rows).value) == rows
  {
    var out := ToProphetFrame(rows).value;
    assert forall i :: 0 <= i < |rows| ==> RowOf(out[i]) == rows[i];
  }

  // ---------------------------------------------------------------------------
  // PrepareData

  /** The combined table after the zero mask and the null drop: the table whose moments
      the outlier filter uses. */
  function Dropped(comp: seq<CompetitionRecord>, supp: seq<SupplementaryRecord>): seq<Row>
  {
    DropMissing(ReplaceZeros(CombineAndSort(comp, supp)))
  }

  /** The outlier bounds PrepareData applies. */
  function PipelineBounds(comp: seq<CompetitionRecord>, supp: seq<SupplementaryRecord>,
                          stats: seq<Option<real>> -> Moments): Option<Bounds>
  {
    OutlierBounds(stats(MetricColumn(Dropped(comp, supp))), DefaultNumStd)
  }

  /** The cleaned table, before the date conversion. */
  function Cleaned(comp: seq<CompetitionRecord>, supp: seq<SupplementaryRecord>,
                   stats: seq<Option<real>> -> Moments): seq<Row>
  {
    RemoveOutliersStd(Dropped(comp, supp), stats, DefaultNumStd)
  }

  /** Every cleaned row has a Code and a non-zero metric inside the bounds computed on the
      dropped table. */
  lemma CleanedRowsValid(comp: seq<CompetitionRecord>, supp: seq<SupplementaryRecord>,
                         stats: seq<Option<real>> -> Moments)
    ensures forall x :: x in Cleaned(comp, supp, stats) ==>
                          IsValid(x) && WithinBounds(x, PipelineBounds(comp, supp, stats))
  {
    var d := Dropped(comp, supp);
    var c := Cleaned(comp, supp, stats);
    ZeroAsMissingDrop(CombineAndSort(comp, supp));
    SubseqMembers(c, d);
    forall x | x in c ensures WithinBounds(x, PipelineBounds(comp, supp, stats)) {
      var i :| 0 <= i < |c| && c[i] == x;
    }
  }

  /** `PrepareData` with the two loaded tables as arguments. On success every row has a
      Code and a non-zero metric inside the 3-sigma bounds of the dropped table, and `ds`
      is January 1 of its Year; it fails exactly when a cleaned Year is not representable. */
  function PrepareData(comp: seq<CompetitionRecord>, supp: seq<SupplementaryRecord>,
                       stats: seq<Option<real>> -> Moments): (res: Result<seq<ProphetRow>, DateError>)
    ensures res.Success? <==>
              forall x :: x in Cleaned(comp, supp, stats) ==> Representable(x.year)
    ensures res.Success? ==> forall i :: 0 <= i < |res.value| ==>
              && IsValid(RowOf(res.value[i]))
              && WithinBounds(RowOf(res.value[i]), PipelineBounds(comp, supp, stats))
              && Converted(RowOf(res.value[i]), res.value[i])
  {
    var c := Cleaned(comp, supp, stats);
    CleanedRowsValid(comp, supp, stats);
    ConvertedFrame(c);
    ToProphetFrame(c)
  }

  /** Restates the conversion's contract per member and per row of the output. */
  lemma ConvertedFrame(rows: seq<Row>)
    ensures ToProphetFrame(rows).Success? <==> forall x :: x in rows ==> Representable(x.year)
    ensures ToProphetFrame(rows).Success? ==>
              forall i :: 0 <= i < |rows| ==>
                (RowOf(ToProphetFrame(rows).value[i]) in rows &&
                 Converted(RowOf(ToProphetFrame(rows).value[i]), ToProphetFrame(rows).value[i]))
  {
    if ToProphetFrame(rows).Success? {
      var out := ToProphetFrame(rows).value;
      forall i | 0 <= i < |rows| ensures RowOf(out[i]) == rows[i] {
        assert Converted(rows[i], out[i]);
      }
    }
  }

  // ---------------------------------------------------------------------------
  // Properties of the whole reconciliation

  /** The mask the two cleaning filters amount to: a Code and a metric inside `b`. */
  function Survives(b: Option<Bounds>): Row -> bool
  {
    r => HasMetricAndCode(r) && WithinBounds(r, b)
  }

  /** The prepared frame, with `ds` dropped and `y` renamed back, is an order-preserving
      subsequence of the zero-masked combined table that keeps exactly the rows with a Code
      and an in-bounds metric, each as often as that table holds it. */
  lemma PrepareDataSubsequence(comp: seq<CompetitionRecord>, supp: seq<SupplementaryRecord>,
                               stats: seq<Option<real>> -> Moments)
    ensures PrepareData(comp, supp, stats).Success? ==>
              IsSubseq(RowsOf(PrepareData(comp, supp, stats).value),
                       ReplaceZeros(CombineAndSort(comp, supp)))
    ensures PrepareData(comp, supp, stats).Success? ==>
              SelectsExactly(RowsOf(PrepareData(comp, supp, stats).value),
                             ReplaceZeros(CombineAndSort(comp, supp)),
                             Survives(PipelineBounds(comp, supp, stats)))
  {
    var c := Cleaned(comp, supp, stats);
    if ToProphetFrame(c).Success? {
      ToProphetFrameRoundTrip(c);
    }
    CleanedSelects(comp, supp, stats);
  }

  /** The two cleaning filters compose into one selection from the zero-masked table. */
  lemma CleanedSelects(comp: seq<CompetitionRecord>, supp: seq<SupplementaryRecord>,
                       stats: seq<Option<real>> -> Moments)
    ensures IsSubseq(Cleaned(comp, supp, stats), ReplaceZeros(CombineAndSort(comp, supp)))
    ensures SelectsExactly(Cleaned(comp, supp, stats), ReplaceZeros(CombineAndSort(comp, supp)),
                           Survives(PipelineBounds(comp, supp, stats)))
  {
    var m := ReplaceZeros(CombineAndSort(comp, supp));
    var d := Dropped(comp, supp);
    var c := Cleaned(comp, supp, stats);
    var b := PipelineBounds(comp, supp, stats);
    assert SelectsExactly(d, m, HasMetricAndCode);
    assert SelectsExactly(c, d, Inside(b));
    SubseqTrans(c, d, m);
    forall x ensures multiset(c)[x] == if Survives(b)(x) then multiset(m)[x] else 0 {
      assert multiset(c)[x] == if Inside(b)(x) then multiset(d)[x] else 0;
      assert multiset(d)[x] == if HasMetricAndCode(x) then multiset(m)[x] else 0;
    }
  }

  /** The supplementary or competition row a prepared row was cleaned from: a NaN Year in
      the prepared frame can only be a Year 0 that the zero mask replaced. */
  function Origin(o: ProphetRow): Row
  {
    Row(o.country, o.code, if o.year.None? then Some(0) else o.year, o.y)
  }

  /** `o` was a supplementary row if it is dated before the cutover and a competition row
      otherwise. */
  predicate FromItsSource(comp: seq<CompetitionRecord>, supp: seq<SupplementaryRecord>, o: ProphetRow)
  {
    && Origin(o).year.Some?
    && (Origin(o).year.value < CutoverYear ==> Origin(o) in SupplementaryFrame(supp))
    && (Origin(o).year.value >= CutoverYear ==> Origin(o) in CompetitionFrame(comp))
  }

  /** Provenance of the prepared frame: every row was a supplementary row if it is dated
      before the cutover and a competition row otherwise. */
  lemma PrepareDataProvenance(comp: seq<CompetitionRecord>, supp: seq<SupplementaryRecord>,
                              stats: seq<Option<real>> -> Moments)
    ensures PrepareData(comp, supp, stats).Success? ==>
              forall o :: o in PrepareData(comp, supp, stats).value ==> FromItsSource(comp, supp, o)
  {
    var combined := CombineAndSort(comp, supp);
    var m := ReplaceZeros(combined);
    var res := PrepareData(comp, supp, stats);
    if res.Success? {
      PrepareDataSubsequence(comp, supp, stats);
      var rows := RowsOf(res.value);
      SubseqMembers(rows, m);
      forall o | o in res.value ensures FromItsSource(comp, supp, o) {
        var i :| 0 <= i < |res.value| && res.value[i] == o;
        assert rows[i] == RowOf(o) && RowOf(o) in rows;
        var j :| 0 <= j < |m| && m[j] == RowOf(o);
        CutoverProvenance(comp, supp, combined[j]);
        assert IsValid(RowOf(o));
        assert Origin(o) == combined[j];
      }
    }
  }

  /** Ordered by Country, and by Year within a Country wherever both Years are present. */
  predicate CountryYearLe(x: Row, y: Row)
  {
    && StrLe(x.country, y.country)
    && (x.country == y.country && x.year.Some? && y.year.Some? ==> x.year.value <= y.year.value)
  }

  /** `CountryYearLe` on prepared rows. */
  predicate PreparedLe(o: ProphetRow, p: ProphetRow)
  {
    CountryYearLe(RowOf(o), RowOf(p))
  }

  /** The zero mask keeps the sort order, except that a masked Year no longer takes part. */
  lemma MaskKeepsOrder(rows: seq<Row>)
    requires SortedByKey(rows)
    ensures Pairwise(ReplaceZeros(rows), CountryYearLe)
  {
    var m := ReplaceZeros(rows);
    forall i, j | 0 <= i < j < |m| ensures CountryYearLe(m[i], m[j]) {
      assert KeyLe(rows[i], rows[j]);
      if rows[i].country == rows[j].country {
        StrLeRefl(rows[i].country);
      }
    }
  }

  /** The prepared frame is still ordered by Country, and by Year within a Country. */
  lemma PrepareDataOrdered(comp: seq<CompetitionRecord>, supp: seq<SupplementaryRecord>,
                           stats: seq<Option<real>> -> Moments)
    ensures PrepareData(comp, supp, stats).Success? ==>
              Pairwise(PrepareData(comp, supp, stats).value, PreparedLe)
  {
    var res := PrepareData(comp, supp, stats);
    if res.Success? {
      var out := res.value;
      var rows := RowsOf(out);
      MaskKeepsOrder(CombineAndSort(comp, supp));
      PrepareDataSubsequence(comp, supp, stats);
      SubseqPairwise(rows, ReplaceZeros(CombineAndSort(comp, supp)), CountryYearLe);
      forall i, j | 0 <= i < j < |out| ensures PreparedLe(out[i], out[j]) {
        assert CountryYearLe(rows[i], rows[j]);
      }
    }
  }
}
