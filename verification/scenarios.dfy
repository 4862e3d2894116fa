/** Concrete end-to-end cases of the reconciliation, and two behaviours the code does NOT
    have: it does not deduplicate, and its outlier filter is not idempotent. */
module Scenarios {
  import opened Wrappers
  import opened Seqs
  import opened Frames
  import opened Reconcile

  /** One country observed in 1995 by the supplementary source and in 2005 by the
      competition source: the combined table holds both observations, 1995 first. */
  lemma TwoSourcesCombined()
    ensures CombineAndSort([CompetitionRecord("Alpha", Some("ALP"), Some(2005), Some(0.7))],
                           [SupplementaryRecord("Alpha", Some(1995), Some("ALP"), Some(0.5))])
            == [Row("Alpha", Some("ALP"), Some(1995), Some(0.5)),
                Row("Alpha", Some("ALP"), Some(2005), Some(0.7))]
  {
    var comp := [CompetitionRecord("Alpha", Some("ALP"), Some(2005), Some(0.7))];
    var supp := [SupplementaryRecord("Alpha", Some(1995), Some("ALP"), Some(0.5))];
    var r1 := Row("Alpha", Some("ALP"), Some(1995), Some(0.5));
    var r2 := Row("Alpha", Some("ALP"), Some(2005), Some(0.7));
    assert SupplementaryFrame(supp) == [r1];
    assert CompetitionFrame(comp) == [r2];
    FilterCons(r1, [], BeforeCutover);
    FilterCons(r2, [], FromCutover);
    assert SupplementaryBeforeCutover(supp) == [r1];
    assert CompetitionFromCutover(comp) == [r2];
    assert KeyLe(r1, r2);
    assert [r1] + [r2] == [r1, r2];
    assert SortByCountryYear([r2]) == Insert(r2, SortByCountryYear([r2][1..])) == [r2];
    assert SortByCountryYear([r1, r2]) == Insert(r1, SortByCountryYear([r1, r2][1..]));
    assert Insert(r1, [r2]) == [r1, r2];
  }

  /** Neither observation is zero or lacks a Code. */
  lemma TwoSourcesDropped()
    ensures Dropped([CompetitionRecord("Alpha", Some("ALP"), Some(2005), Some(0.7))],
                    [SupplementaryRecord("Alpha", Some(1995), Some("ALP"), Some(0.5))])
            == [Row("Alpha", Some("ALP"), Some(1995), Some(0.5)),
                Row("Alpha", Some("ALP"), Some(2005), Some(0.7))]
  {
    var r1 := Row("Alpha", Some("ALP"), Some(1995), Some(0.5));
    var r2 := Row("Alpha", Some("ALP"), Some(2005), Some(0.7));
    var comp := [CompetitionRecord("Alpha", Some("ALP"), Some(2005), Some(0.7))];
    var supp := [SupplementaryRecord("Alpha", Some(1995), Some("ALP"), Some(0.5))];
    TwoSourcesCombined();
    assert CombineAndSort(comp, supp) == [r1, r2];
    assert ReplaceZeros([r1, r2]) == [r1, r2];
    FilterCons(r2, [], HasMetricAndCode);
    FilterCons(r1, [r2], HasMetricAndCode);
    assert [r1] + [r2] == [r1, r2];
    assert DropMissing([r1, r2]) == [r1, r2];
  }

  /** The 3-sigma interval of 0.5 and 0.7 holds both. */
  lemma TwoRowsKept(stats: seq<Option<real>> -> Moments, s: real)
    requires 0.1414 <= s <= 0.1415
    requires stats([Some(0.5), Some(0.7)]) == Moments(Some(0.6), Some(s))
    ensures RemoveOutliersStd([Row("Alpha", Some("ALP"), Some(1995), Some(0.5)),
                               Row("Alpha", Some("ALP"), Some(2005), Some(0.7))], stats, DefaultNumStd)
            == [Row("Alpha", Some("ALP"), Some(1995), Some(0.5)),
                Row("Alpha", Some("ALP"), Some(2005), Some(0.7))]
  {
    var r1 := Row("Alpha", Some("ALP"), Some(1995), Some(0.5));
    var r2 := Row("Alpha", Some("ALP"), Some(2005), Some(0.7));
    assert MetricColumn([r1, r2]) == [Some(0.5), Some(0.7)];
    var b := OutlierBounds(stats(MetricColumn([r1, r2])), DefaultNumStd);
    assert b == Some(Bounds(0.6 - s * 3.0, 0.6 + s * 3.0));
    assert WithinBounds(r1, b) && WithinBounds(r2, b);
    AllWithinBoundsKept([r1, r2], stats, DefaultNumStd);
  }

  /** Both observations survive the cleaning when the 3-sigma interval holds both. */
  lemma TwoSourcesCleaned(stats: seq<Option<real>> -> Moments, s: real)
    requires 0.1414 <= s <= 0.1415
    requires stats([Some(0.5), Some(0.7)]) == Moments(Some(0.6), Some(s))
    ensures Cleaned([CompetitionRecord("Alpha", Some("ALP"), Some(2005), Some(0.7))],
                    [SupplementaryRecord("Alpha", Some(1995), Some("ALP"), Some(0.5))], stats)
            == [Row("Alpha", Some("ALP"), Some(1995), Some(0.5)),
                Row("Alpha", Some("ALP"), Some(2005), Some(0.7))]
  {
    var r1 := Row("Alpha", Some("ALP"), Some(1995), Some(0.5));
    var r2 := Row("Alpha", Some("ALP"), Some(2005), Some(0.7));
    TwoSourcesDropped();
    TwoRowsKept(stats, s);
  }

  /** Each observation is dated January 1 of its Year. */
  lemma TwoSourcesConverted()
    ensures ToProphetFrame([Row("Alpha", Some("ALP"), Some(1995), Some(0.5)),
                            Row("Alpha", Some("ALP"), Some(2005), Some(0.7))])
            == Success([ProphetRow("Alpha", Some("ALP"), Some(1995), Some(0.5), Some(Date(1995, 1, 1))),
                        ProphetRow("Alpha", Some("ALP"), Some(2005), Some(0.7), Some(Date(2005, 1, 1)))])
  {
    var r1 := Row("Alpha", Some("ALP"), Some(1995), Some(0.5));
    var r2 := Row("Alpha", Some("ALP"), Some(2005), Some(0.7));
    var o := ToProphetFrame([r1, r2]);
    assert o.Success?;
    assert Converted(r1, o.value[0]) && Converted(r2, o.value[1]);
    assert o.value[0] == ProphetRow("Alpha", Some("ALP"), Some(1995), Some(0.5), Some(Date(1995, 1, 1)));
    assert o.value[1] == ProphetRow("Alpha", Some("ALP"), Some(2005), Some(0.7), Some(Date(2005, 1, 1)));
    assert |o.value| == 2;
    assert o.value == [o.value[0], o.value[1]];
  }

  /** The same two observations run through the whole of PrepareData. The moments required
      are pandas' mean and sample standard deviation of 0.5 and 0.7: 0.6, and the square
      root of 0.02 (0.14142...), whose 3-sigma interval holds both values. */
  lemma TwoSourcesOneCountry(stats: seq<Option<real>> -> Moments, s: real)
    requires 0.1414 <= s <= 0.1415
    requires stats([Some(0.5), Some(0.7)]) == Moments(Some(0.6), Some(s))
    ensures PrepareData([CompetitionRecord("Alpha", Some("ALP"), Some(2005), Some(0.7))],
                        [SupplementaryRecord("Alpha", Some(1995), Some("ALP"), Some(0.5))], stats)
            == Success([ProphetRow("Alpha", Some("ALP"), Some(1995), Some(0.5), Some(Date(1995, 1, 1))),
                        ProphetRow("Alpha", Some("ALP"), Some(2005), Some(0.7), Some(Date(2005, 1, 1)))])
  {
    TwoSourcesCleaned(stats, s);
    TwoSourcesConverted();
  }

  /** A competition row whose metric is 0 is treated as missing and never reaches the
      prepared frame, whatever its Year and Code. */
  lemma ZeroMetricExcluded(stats: seq<Option<real>> -> Moments)
    ensures PrepareData([CompetitionRecord("Beta", Some("BET"), Some(2010), Some(0.0))], [], stats)
            == Success([])
  {
    var comp := [CompetitionRecord("Beta", Some("BET"), Some(2010), Some(0.0))];
    var r := Row("Beta", Some("BET"), Some(2010), Some(0.0));
    assert CompetitionFrame(comp) == [r];
    assert CompetitionFromCutover(comp) == [r];
    assert SupplementaryBeforeCutover([]) == [];
    assert [] + [r] == [r];
    assert SortByCountryYear([r]) == Insert(r, SortByCountryYear([r][1..]));
    assert CombineAndSort(comp, []) == [r];
    assert ReplaceZeros([r]) == [MaskZero(r)];
    assert Dropped(comp, []) == [];
  }

  /** No deduplication: the same competition row listed twice is in the combined table
      twice. */
  lemma DuplicatesKept()
    ensures CombineAndSort([CompetitionRecord("Gamma", Some("GAM"), Some(2001), Some(1.5)),
                            CompetitionRecord("Gamma", Some("GAM"), Some(2001), Some(1.5))], [])
            == [Row("Gamma", Some("GAM"), Some(2001), Some(1.5)),
                Row("Gamma", Some("GAM"), Some(2001), Some(1.5))]
  {
    var c := CompetitionRecord("Gamma", Some("GAM"), Some(2001), Some(1.5));
    var r := Row("Gamma", Some("GAM"), Some(2001), Some(1.5));
    assert CompetitionFrame([c, c]) == [r, r];
    assert CompetitionFromCutover([c, c]) == [r, r];
    assert SupplementaryBeforeCutover([]) == [];
    KeyLeTotalPreorder(r, r, r);
    assert [] + [r, r] == [r, r];
    assert SortByCountryYear([r]) == Insert(r, SortByCountryYear([r][1..])) == [r];
    assert SortByCountryYear([r, r]) == Insert(r, SortByCountryYear([r, r][1..]));
    assert Insert(r, [r]) == [r, r];
  }

  function D(year: int, v: real): Row
  {
    Row("D", Some("DDD"), Some(year), Some(v))
  }

  /** A one-country table with metric values 1, 2, 7, 7, 7, 12 in years 2001..2006. */
  function Values(): seq<Row>
  {
    [D(2001, 1.0), D(2002, 2.0), D(2003, 7.0), D(2004, 7.0), D(2005, 7.0), D(2006, 12.0)]
  }

  /** With mean 6 and standard deviation 4, a one-sigma filter keeps [2, 10]. */
  lemma FirstPass(stats: seq<Option<real>> -> Moments)
    requires stats([Some(1.0), Some(2.0), Some(7.0), Some(7.0), Some(7.0), Some(12.0)])
             == Moments(Some(6.0), Some(4.0))
    ensures RemoveOutliersStd(Values(), stats, 1.0)
            == [D(2002, 2.0), D(2003, 7.0), D(2004, 7.0), D(2005, 7.0)]
  {
    var rows := Values();
    var a, b, c, d, e, f := rows[0], rows[1], rows[2], rows[3], rows[4], rows[5];
    assert rows == [a] + ([b] + ([c] + ([d] + ([e] + ([f] + []))))) ;
    assert MetricColumn(rows) == [Some(1.0), Some(2.0), Some(7.0), Some(7.0), Some(7.0), Some(12.0)];
    var p := Inside(Some(Bounds(2.0, 10.0)));
    assert OutlierBounds(stats(MetricColumn(rows)), 1.0) == Some(Bounds(2.0, 10.0));
    FilterCons(f, [], p);
    FilterCons(e, [f], p);
    FilterCons(d, [e, f], p);
    FilterCons(c, [d, e, f], p);
    FilterCons(b, [c, d, e, f], p);
    FilterCons(a, [b, c, d, e, f], p);
    assert !p(a) && p(b) && p(c) && p(d) && p(e) && !p(f);
    assert Filter(rows, p) == [b, c, d, e];
  }

  /** With mean 23/4 and standard deviation 5/2, a one-sigma filter keeps [13/4, 33/4]. */
  lemma SecondPass(stats: seq<Option<real>> -> Moments)
    requires stats([Some(2.0), Some(7.0), Some(7.0), Some(7.0)]) == Moments(Some(5.75), Some(2.5))
    ensures RemoveOutliersStd([D(2002, 2.0), D(2003, 7.0), D(2004, 7.0), D(2005, 7.0)], stats, 1.0)
            == [D(2003, 7.0), D(2004, 7.0), D(2005, 7.0)]
  {
    var b, c, d, e := D(2002, 2.0), D(2003, 7.0), D(2004, 7.0), D(2005, 7.0);
    var rows := [b, c, d, e];
    assert rows == [b] + ([c] + ([d] + ([e] + [])));
    assert MetricColumn(rows) == [Some(2.0), Some(7.0), Some(7.0), Some(7.0)];
    var q := Inside(Some(Bounds(3.25, 8.25)));
    assert OutlierBounds(stats(MetricColumn(rows)), 1.0) == Some(Bounds(3.25, 8.25));
    FilterCons(e, [], q);
    FilterCons(d, [e], q);
    FilterCons(c, [d, e], q);
    FilterCons(b, [c, d, e], q);
    assert !q(b) && q(c) && q(d) && q(e);
    assert Filter(rows, q) == [c, d, e];
  }

  /** Reapplying the filter recomputes the bounds on the filtered rows, so it can remove
      more. With one standard deviation: 1, 2, 7, 7, 7, 12 has mean 6 and sample standard
      deviation 4, keeping [2, 10]; 2, 7, 7, 7 has mean 23/4 and sample standard deviation
      5/2, keeping [13/4, 33/4], which drops the 2. */
  lemma OutlierFilterNotIdempotent(stats: seq<Option<real>> -> Moments)
    requires stats([Some(1.0), Some(2.0), Some(7.0), Some(7.0), Some(7.0), Some(12.0)])
             == Moments(Some(6.0), Some(4.0))
    requires stats([Some(2.0), Some(7.0), Some(7.0), Some(7.0)]) == Moments(Some(5.75), Some(2.5))
    ensures RemoveOutliersStd(RemoveOutliersStd(Values(), stats, 1.0), stats, 1.0)
            != RemoveOutliersStd(Values(), stats, 1.0)
  {
    FirstPass(stats);
    SecondPass(stats);
    assert |RemoveOutliersStd(RemoveOutliersStd(Values(), stats, 1.0), stats, 1.0)| == 3;
  }
}
