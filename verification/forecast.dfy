/** The iteration and tagging structure of `forcaster`: one Prophet fit per distinct Code,
    in first-appearance order, each on that Code's (ds, y) rows, the predictions tagged
    with the Code and concatenated; a failed fit or an empty frame aborts the run. The
    fit and prediction are a parameter. */
module Forecast {
  import opened Wrappers
  import opened Seqs
  import opened Frames

  /** A row of `code_data = df[df['Code'] == code][['ds', 'y']]`. */
  datatype Observation = Observation(ds: Option<Date>, y: Option<real>)

  /** A row of `m.predict(future)`: the date, the trend component and the uncertainty bounds. */
  datatype Prediction = Prediction(ds: Date, trend: real, yhatLower: real, yhatUpper: real)

  /** A prediction with the column `assign(country=code)` adds; it holds the Code. */
  datatype TaggedPrediction = TaggedPrediction(country: Option<string>, prediction: Prediction)

  /** The Code column of the prepared frame. */
  function CodeColumn(df: seq<ProphetRow>): (col: seq<Option<string>>)
    ensures |col| == |df|
    ensures forall i :: 0 <= i < |df| ==> col[i] == df[i].code
  {
    seq(|df|, i requires 0 <= i < |df| => df[i].code)
  }

  /** `df['Code'].unique()`: every Code of the frame (NaN counted once), each once, in the
      order in which it first appears. */
  function UniqueCodes(df: seq<ProphetRow>): (codes: seq<Option<string>>)
    ensures forall i :: 0 <= i < |df| ==> df[i].code in codes
    ensures forall i :: 0 <= i < |codes| ==> codes[i] in CodeColumn(df)
    ensures forall i, j :: 0 <= i < j < |codes| ==> codes[i] != codes[j]
    ensures forall i, j :: 0 <= i < j < |codes| ==>
              FirstIndex(CodeColumn(df), codes[i]) < FirstIndex(CodeColumn(df), codes[j])
  {
    var col := CodeColumn(df);
    DistinctFirstAppearance(col);
    assert forall i :: 0 <= i < |df| ==> df[i].code == col[i];
    Distinct(col)
  }

  /** `df['Code'] == code`; comparing with NaN is false, so a NaN code matches no row. */
  function HasCode(c: Option<string>): ProphetRow -> bool
  {
    (r: ProphetRow) => c.Some? && r.code == c
  }

  /** `df[df['Code'] == code]`: exactly the rows carrying Code `c`, in their original order. */
  function CodeSlice(df: seq<ProphetRow>, c: Option<string>): (slice: seq<ProphetRow>)
    ensures IsSubseq(slice, df)
    ensures SelectsExactly(slice, df, HasCode(c))
    ensures forall i :: 0 <= i < |slice| ==> slice[i].code == c
    ensures c.None? ==> slice == []
  {
    FilterIsSubseq(df, HasCode(c));
    FilterMultiset(df, HasCode(c));
    Filter(df, HasCode(c))
  }

  /** The `[['ds', 'y']]` projection of one Code's rows, the series the model is fitted on. */
  function CodeSeries(df: seq<ProphetRow>, c: Option<string>): (series: seq<Observation>)
    ensures |series| == |CodeSlice(df, c)|
    ensures forall i :: 0 <= i < |series| ==>
              series[i].ds == CodeSlice(df, c)[i].ds && series[i].y == CodeSlice(df, c)[i].y
  {
    var slice := CodeSlice(df, c);
    seq(|slice|, i requires 0 <= i < |slice| => Observation(slice[i].ds, slice[i].y))
  }

  /** `forecast.assign(country=code)`. */
  function Tag(c: Option<string>, preds: seq<Prediction>): (tagged: seq<TaggedPrediction>)
    ensures |tagged| == |preds|
    ensures forall i :: 0 <= i < |preds| ==> tagged[i].country == c && tagged[i].prediction == preds[i]
  {
    seq(|preds|, i requires 0 <= i < |preds| => TaggedPrediction(c, preds[i]))
  }

  /** Why `forcaster` raises. Prophet's `fit` refuses a series with fewer than two
      non-NaN y values; the library can fail on a series for other reasons; and
      `pd.concat` refuses an empty list of forecasts. */
  datatype ForecastError =
    | TooFewObservations(code: Option<string>)
    | FitFailed(code: Option<string>)
    | NothingToConcatenate

  /** `Prophet(yearly_seasonality=False)` fitted on a series and asked for the history plus
      40 year-start periods; `None` when the library raises. */
  type Predictor = seq<Observation> -> Option<seq<Prediction>>

  /** The observations with a y value: the history Prophet fits on. */
  function Observed(series: seq<Observation>): (history: seq<Observation>)
    ensures |history| <= |series|
    ensures forall i :: 0 <= i < |history| ==> history[i].y.Some?
  {
    Filter(series, (o: Observation) => o.y.Some?)
  }

  /** Code `c`'s series can be fitted and forecast. */
  predicate Fits(df: seq<ProphetRow>, c: Option<string>, predict: Predictor)
  {
    |Observed(CodeSeries(df, c))| >= 2 && predict(CodeSeries(df, c)).Some?
  }

  /** One iteration of the loop: fit a model on Code `c`'s series and forecast. */
  function FitCode(df: seq<ProphetRow>, c: Option<string>, predict: Predictor)
    : (r: Result<seq<Prediction>, ForecastError>)
    ensures r.Success? <==> Fits(df, c, predict)
    ensures r.Success? ==> predict(CodeSeries(df, c)) == Some(r.value)
    ensures |Observed(CodeSeries(df, c))| < 2 ==> r == Failure(TooFewObservations(c))
    ensures r.Failure? && |Observed(CodeSeries(df, c))| >= 2 ==> r == Failure(FitFailed(c))
  {
    var series := CodeSeries(df, c);
    if |Observed(series)| < 2 then Failure(TooFewObservations(c))
    else match predict(series)
      case None => Failure(FitFailed(c))
      case Some(preds) => Success(preds)
  }

  /** A NaN code selects no row, so its empty series makes the fit raise. */
  lemma NaNCodeCannotFit(df: seq<ProphetRow>, predict: Predictor)
    ensures FitCode(df, None, predict) == Failure(TooFewObservations(None))
  {
    assert CodeSlice(df, None) == [];
  }

  /** Each code's fit, in iteration order. */
  function FitAll(df: seq<ProphetRow>, codes: seq<Option<string>>, predict: Predictor)
    : (fits: seq<Result<seq<Prediction>, ForecastError>>)
    ensures |fits| == |codes|
    ensures forall k :: 0 <= k < |codes| ==> fits[k] == FitCode(df, codes[k], predict)
  {
    seq(|codes|, k requires 0 <= k < |codes| => FitCode(df, codes[k], predict))
  }

  /** `fits[k]` is the first fit, in iteration order, that raised. */
  predicate FirstFailure<T, E>(fits: seq<Result<T, E>>, k: int)
  {
    && 0 <= k < |fits|
    && fits[k].Failure?
    && forall j :: 0 <= j < k ==> fits[j].Success?
  }

  /** The body of the loop over `codes` given each code's fit: the tagged forecasts are
      collected in iteration order, and the first fit that raised ends the run. */
  function Collect(codes: seq<Option<string>>, fits: seq<Result<seq<Prediction>, ForecastError>>)
    : (r: Result<seq<TaggedPrediction>, ForecastError>)
    requires |fits| == |codes|
    ensures r.Success? <==> forall k :: 0 <= k < |fits| ==> fits[k].Success?
    ensures r.Failure? ==> exists k :: FirstFailure(fits, k) && r.error == fits[k].error
    ensures r.Success? ==> forall i :: 0 <= i < |r.value| ==> r.value[i].country in codes
    decreases |codes|
  {
    if |codes| == 0 then Success([])
    else
      match fits[0]
      case Failure(e) =>
        assert FirstFailure(fits, 0);
        Failure(e)
      case Success(preds) =>
        assert forall k :: FirstFailure(fits[1..], k) ==> FirstFailure(fits, k + 1);
        match Collect(codes[1..], fits[1..])
        case Failure(e) => Failure(e)
        case Success(out) => Success(Tag(codes[0], preds) + out)
  }

  /** The loop over `codes`: succeeds exactly when every code can be fitted, and otherwise
      raises the error of the first code, in iteration order, that cannot. */
  function ForecastCodes(df: seq<ProphetRow>, codes: seq<Option<string>>, predict: Predictor)
    : (r: Result<seq<TaggedPrediction>, ForecastError>)
    ensures r.Success? <==> forall k :: 0 <= k < |codes| ==> Fits(df, codes[k], predict)
    ensures r.Failure? ==>
              exists k :: && 0 <= k < |codes|
                          && !Fits(df, codes[k], predict)
                          && (forall j :: 0 <= j < k ==> Fits(df, codes[j], predict))
                          && r.error == FitCode(df, codes[k], predict).error
    ensures r.Success? ==> forall i :: 0 <= i < |r.value| ==> r.value[i].country in codes
  {
    var fits := FitAll(df, codes, predict);
    var r := Collect(codes, fits);
    if r.Failure? then
      var k :| FirstFailure(fits, k) && r.error == fits[k].error;
      r
    else r
  }

  /** The rows of `out` come in blocks ordered as their tags are in `order`: no row
      follows one whose tag comes later in `order`. */
  predicate InTagOrder(out: seq<TaggedPrediction>, order: seq<Option<string>>)
  {
    forall p, q :: 0 <= p < q < |out| && out[p].country in order && out[q].country in order ==>
      FirstIndex(order, out[p].country) <= FirstIndex(order, out[q].country)
  }

  /** Over distinct codes, the forecasts are concatenated in iteration order. */
  lemma {:induction false} CollectInOrder(codes: seq<Option<string>>,
                                          fits: seq<Result<seq<Prediction>, ForecastError>>)
    requires |fits| == |codes|
    requires forall i, j :: 0 <= i < j < |codes| ==> codes[i] != codes[j]
    ensures Collect(codes, fits).Success? ==> InTagOrder(Collect(codes, fits).value, codes)
    decreases |codes|
  {
    var r := Collect(codes, fits);
    if |codes| > 0 && r.Success? {
      var head := Tag(codes[0], fits[0].value);
      var rest := Collect(codes[1..], fits[1..]).value;
      assert r.value == head + rest;
      CollectInOrder(codes[1..], fits[1..]);
      forall x | x in codes[1..] ensures x != codes[0] && FirstIndex(codes, x) == 1 + FirstIndex(codes[1..], x) {
        var k :| 0 <= k < |codes[1..]| && codes[1..][k] == x;
        assert codes[k + 1] == x;
      }
      forall p, q | 0 <= p < q < |r.value| && r.value[p].country in codes && r.value[q].country in codes
        ensures FirstIndex(codes, r.value[p].country) <= FirstIndex(codes, r.value[q].country)
      {
        if q < |head| {
          assert r.value[p].country == codes[0] == r.value[q].country;
        } else if p < |head| {
          assert r.value[p].country == codes[0];
        } else {
          assert r.value[p] == rest[p - |head|] && r.value[q] == rest[q - |head|];
        }
      }
    }
  }

  /** Block order over the iterated codes is block order over the frame's Code column,
      because `UniqueCodes` lists the codes in order of first appearance. */
  lemma UniqueCodesOrder(df: seq<ProphetRow>, out: seq<TaggedPrediction>)
    requires forall i :: 0 <= i < |out| ==> out[i].country in UniqueCodes(df)
    requires InTagOrder(out, UniqueCodes(df))
    ensures InTagOrder(out, CodeColumn(df))
  {
    var codes := UniqueCodes(df);
    var col := CodeColumn(df);
    forall p, q | 0 <= p < q < |out| && out[p].country in col && out[q].country in col
      ensures FirstIndex(col, out[p].country) <= FirstIndex(col, out[q].country)
    {
      var i := FirstIndex(codes, out[p].country);
      var j := FirstIndex(codes, out[q].country);
      if i < j {
        assert FirstIndex(col, codes[i]) < FirstIndex(col, codes[j]);
      }
    }
  }

  /** Every Code of the frame (NaN included) can be fitted and forecast. */
  lemma AllCodesFit(df: seq<ProphetRow>, predict: Predictor)
    ensures (forall k :: 0 <= k < |UniqueCodes(df)| ==> Fits(df, UniqueCodes(df)[k], predict)) <==>
            (forall i :: 0 <= i < |df| ==> Fits(df, df[i].code, predict))
  {
    var codes := UniqueCodes(df);
    if forall k :: 0 <= k < |codes| ==> Fits(df, codes[k], predict) {
      forall i | 0 <= i < |df| ensures Fits(df, df[i].code, predict) {
        var k :| 0 <= k < |codes| && codes[k] == df[i].code;
      }
    }
    if forall i :: 0 <= i < |df| ==> Fits(df, df[i].code, predict) {
      forall k | 0 <= k < |codes| ensures Fits(df, codes[k], predict) {
        var col := CodeColumn(df);
        var i :| 0 <= i < |col| && col[i] == codes[k];
        assert df[i].code == codes[k];
      }
    }
  }

  /** `forcaster(df)` without the CSV export: the loop over `df['Code'].unique()`, then
      `pd.concat`, which raises when the loop produced no forecast. */
  function Forecaster(df: seq<ProphetRow>, predict: Predictor)
    : (r: Result<seq<TaggedPrediction>, ForecastError>)
    ensures |df| == 0 ==> r == Failure(NothingToConcatenate)
    ensures r.Success? <==> |df| > 0 && forall i :: 0 <= i < |df| ==> Fits(df, df[i].code, predict)
    ensures r.Failure? && |df| > 0 ==>
              exists k :: && 0 <= k < |UniqueCodes(df)|
                          && !Fits(df, UniqueCodes(df)[k], predict)
                          && (forall j :: 0 <= j < k ==> Fits(df, UniqueCodes(df)[j], predict))
                          && r.error == FitCode(df, UniqueCodes(df)[k], predict).error
    ensures r.Success? ==> forall i :: 0 <= i < |r.value| ==> r.value[i].country in CodeColumn(df)
    ensures r.Success? ==> InTagOrder(r.value, CodeColumn(df))
  {
    var codes := UniqueCodes(df);
    AllCodesFit(df, predict);
    CollectInOrder(codes, FitAll(df, codes, predict));
    assert |df| > 0 ==> df[0].code in codes;
    match ForecastCodes(df, codes, predict)
    case Failure(e) => Failure(e)
    case Success(out) =>
      UniqueCodesOrder(df, out);
      if |codes| == 0 then Failure(NothingToConcatenate) else Success(out)
  }

  /** The output rows carrying tag `c`. */
  function TaggedWith(c: Option<string>): TaggedPrediction -> bool
  {
    (t: TaggedPrediction) => t.country == c
  }

  lemma TagFiltered(c: Option<string>, c': Option<string>, preds: seq<Prediction>)
    ensures Filter(Tag(c', preds), TaggedWith(c)) == if c == c' then Tag(c', preds) else []
  {
    if c == c' {
      FilterKeepsAll(Tag(c', preds), TaggedWith(c));
    } else {
      FilterKeepsNone(Tag(c', preds), TaggedWith(c));
    }
  }

  /** Over distinct codes, when the loop completes, the rows tagged `c` are exactly the
      forecast of `c`'s fit, whole and in order, and a value that is not a code tags none. */
  lemma {:induction false} CollectByTag(codes: seq<Option<string>>,
                                        fits: seq<Result<seq<Prediction>, ForecastError>>,
                                        c: Option<string>)
    requires |fits| == |codes|
    requires forall i, j :: 0 <= i < j < |codes| ==> codes[i] != codes[j]
    ensures Collect(codes, fits).Success? ==>
              && (forall k :: 0 <= k < |codes| && codes[k] == c ==>
                    Filter(Collect(codes, fits).value, TaggedWith(c)) == Tag(c, fits[k].value))
              && (c !in codes ==> Filter(Collect(codes, fits).value, TaggedWith(c)) == [])
    decreases |codes|
  {
    var r := Collect(codes, fits);
    if |codes| > 0 && r.Success? {
      var head := Tag(codes[0], fits[0].value);
      var rest := Collect(codes[1..], fits[1..]).value;
      assert r.value == head + rest;
      CollectByTag(codes[1..], fits[1..], c);
      FilterConcat(head, rest, TaggedWith(c));
      TagFiltered(c, codes[0], fits[0].value);
      if c == codes[0] {
        assert c !in codes[1..] by {
          forall k | 0 <= k < |codes[1..]| ensures codes[1..][k] != c {
            assert codes[1..][k] == codes[k + 1];
          }
        }
      } else {
        assert c in codes <==> c in codes[1..] by {
          assert codes == [codes[0]] + codes[1..];
        }
        forall k | 0 <= k < |codes| && codes[k] == c
          ensures Filter(r.value, TaggedWith(c)) == Tag(c, fits[k].value)
        {
          assert codes[1..][k - 1] == c && fits[1..][k - 1] == fits[k];
        }
      }
    }
  }

  /** Over distinct codes, when the loop completes, the rows tagged `c` are exactly `c`'s
      own forecast, whole and in order, if `c` is among the codes, and there are none
      otherwise. */
  lemma ForecastCodesByTag(df: seq<ProphetRow>, codes: seq<Option<string>>,
                           predict: Predictor, c: Option<string>)
    requires forall i, j :: 0 <= i < j < |codes| ==> codes[i] != codes[j]
    ensures ForecastCodes(df, codes, predict).Success? ==>
              if c in codes then
                && FitCode(df, c, predict).Success?
                && Filter(ForecastCodes(df, codes, predict).value, TaggedWith(c))
                   == Tag(c, FitCode(df, c, predict).value)
              else Filter(ForecastCodes(df, codes, predict).value, TaggedWith(c)) == []
  {
    var fits := FitAll(df, codes, predict);
    CollectByTag(codes, fits, c);
    if c in codes {
      var k :| 0 <= k < |codes| && codes[k] == c;
      assert fits[k] == FitCode(df, c, predict);
    }
  }

  /** A value is iterated exactly when it occurs in the Code column. */
  lemma CodeIterated(df: seq<ProphetRow>, c: Option<string>)
    ensures c in UniqueCodes(df) <==> c in CodeColumn(df)
  {
    var col := CodeColumn(df);
    if c in col {
      var i :| 0 <= i < |col| && col[i] == c;
      assert df[i].code == c;
    }
  }

  /** A run that completes returns what the loop collected. */
  lemma CompletedRunIsLoop(df: seq<ProphetRow>, predict: Predictor)
    ensures Forecaster(df, predict).Success? ==>
              Forecaster(df, predict) == ForecastCodes(df, UniqueCodes(df), predict)
  {
  }

  /** When the run completes, each Code of the frame contributes exactly its own forecast,
      once, and a value that is not a Code of the frame tags nothing. */
  lemma ForecasterByCode(df: seq<ProphetRow>, predict: Predictor, c: Option<string>)
    ensures Forecaster(df, predict).Success? ==>
              if c in CodeColumn(df) then
                && FitCode(df, c, predict).Success?
                && Filter(Forecaster(df, predict).value, TaggedWith(c)) == Tag(c, FitCode(df, c, predict).value)
              else Filter(Forecaster(df, predict).value, TaggedWith(c)) == []
  {
    var r := Forecaster(df, predict);
    if r.Success? {
      var codes := UniqueCodes(df);
      CompletedRunIsLoop(df, predict);
      ForecastCodesByTag(df, codes, predict, c);
      CodeIterated(df, c);
    }
  }

  /** A frame with a missing Code can never be forecast: its NaN slice is empty. */
  lemma MissingCodeAborts(df: seq<ProphetRow>, predict: Predictor, i: nat)
    requires i < |df| && df[i].code.None?
    ensures Forecaster(df, predict).Failure?
  {
    NaNCodeCannotFit(df, predict);
  }

  /** Every row with a Code is fitted in exactly one slice, the slice of its own Code. */
  lemma SlicesPartitionRows(df: seq<ProphetRow>, i: nat, c: Option<string>)
    requires i < |df| && df[i].code.Some?
    ensures df[i].code in UniqueCodes(df)
    ensures df[i] in CodeSlice(df, c) <==> c == df[i].code
  {
    var slice := CodeSlice(df, c);
    assert multiset(df)[df[i]] > 0;
    if c == df[i].code {
      assert multiset(slice)[df[i]] > 0;
    }
  }
}
