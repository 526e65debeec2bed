/** Growth-curve analysis (`analyse_growthcurve` in pyphe/growthcurves.py):
    lag detection, the choice of the steepest (or shallowest) regression window,
    area under the curve, maximum, and the two quality-control flags.

    Curves are sequences of finite sizes sharing one list of timepoints. The
    checks `scipy.stats.linregress` makes are modelled: an empty window, or
    one whose timepoints are all equal, raises ValueError, and a one-point
    window gives NaN for slope and intercept. The least-squares fit of any
    other window is an input: a function from the window's timepoints and
    sizes to slope, intercept and correlation coefficient. */
module GrowthCurves {
  import opened Results
  import opened Floats

  // ---------------------------------------------------------------------------
  // Lag detection
  // ---------------------------------------------------------------------------

  /** The stop index numpy uses for the slice `a[0:k]` of an array of length n. */
  function SliceStop(n: nat, k: int): (stop: nat)
    ensures stop <= n
    ensures 0 <= k <= n ==> stop == k
    ensures k > n ==> stop == n
    ensures k < 0 ==> stop == if n + k < 0 then 0 else n + k
  {
    if k < 0 then (if n + k < 0 then 0 else n + k)
    else if k > n then n
    else k
  }

  /** The first index whose value is strictly above `bound`, if any. A NaN
      bound is never exceeded. */
  function FirstAbove(x: seq<real>, bound: Value): (r: Option<nat>)
    ensures r.Some? ==> r.value < |x| && Less(bound, x[r.value])
    ensures r.Some? ==> forall j :: 0 <= j < r.value ==> !Less(bound, x[j])
    ensures r.None? ==> forall j :: 0 <= j < |x| ==> !Less(bound, x[j])
    decreases |x|
  {
    if |x| == 0 then None
    else if Less(bound, x[0]) then Some(0)
    else
      match FirstAbove(x[1..], bound)
      case None =>
        assert forall j :: 1 <= j < |x| ==> x[j] == x[1..][j - 1];
        None
      case Some(i) =>
        assert forall j :: 1 <= j <= i ==> x[j] == x[1..][j - 1];
        Some(i + 1)
  }

  datatype LagMethod = Rel | Abs | Other(name: string)

  /** The method argument as passed on the command line. */
  function ParseLagMethod(s: string): (m: LagMethod)
    ensures m == Rel <==> s == "rel"
    ensures m == Abs <==> s == "abs"
  {
    if s == "rel" then Rel else if s == "abs" then Abs else Other(s)
  }

  /** 'initial biomass' and 'lag' of one curve. */
  datatype Lag = Lag(initialBiomass: Value, lag: real)

  /** The initial biomass: the mean of the first `t0Fitrange` sizes (NaN when
      that slice is empty). */
  function InitialBiomass(x: seq<real>, t0Fitrange: int): (t0: Value)
    ensures t0.IsNull() <==> SliceStop(|x|, t0Fitrange) == 0
    ensures t0.Num? ==> t0.v * (SliceStop(|x|, t0Fitrange) as real) == Sum(x[..SliceStop(|x|, t0Fitrange)])
  {
    Mean(x[..SliceStop(|x|, t0Fitrange)])
  }

  /** `find_lag`: the first timepoint whose size exceeds the threshold
      (relative to the initial biomass for 'rel'), nothing when no size does,
      and NameError for any other lagMethod, since the error message refers to an
      undefined name. */
  function FindLag(t: seq<real>, x: seq<real>, t0Fitrange: int, lagMethod: LagMethod, threshold: real): (r: Result<Option<Lag>>)
    requires |t| == |x|
    ensures r.Err? <==> lagMethod.Other?
    ensures r.Err? ==> r.error.NameError?
    ensures r.Ok? && r.value.Some? ==> r.value.value.initialBiomass == InitialBiomass(x, t0Fitrange)
    ensures lagMethod == Abs ==> r.Ok? && (r.value.Some? <==> exists i :: 0 <= i < |x| && x[i] > threshold)
    ensures lagMethod == Abs && r.Ok? && r.value.Some? ==>
      exists i :: 0 <= i < |x| && r.value.value.lag == t[i] && x[i] > threshold &&
        forall j :: 0 <= j < i ==> x[j] <= threshold
    ensures lagMethod == Rel ==> r.Ok? && (r.value.Some? <==>
      exists i :: 0 <= i < |x| && Less(Scale(threshold, InitialBiomass(x, t0Fitrange)), x[i]))
    ensures lagMethod == Rel && r.Ok? && r.value.Some? ==>
      var bound := Scale(threshold, InitialBiomass(x, t0Fitrange));
      exists i :: 0 <= i < |x| && r.value.value.lag == t[i] && Less(bound, x[i]) &&
        forall j :: 0 <= j < i ==> !Less(bound, x[j])
  {
    var t0 := InitialBiomass(x, t0Fitrange);
    var bound :=
      match lagMethod
      case Rel => Scale(threshold, t0)
      case Abs => Num(threshold)
      case Other(_) => NaN;
    if lagMethod.Other? then
      Err(NameError("name 'method' is not defined"))
    else
      match FirstAbove(x, bound)
      case None => Ok(None)
      case Some(i) => Ok(Some(Lag(t0, t[i])))
  }

  /** With an empty baseline slice the initial biomass is NaN, and the
      relative method then finds no lag at all. */
  lemma RelativeLagNeedsBaseline(t: seq<real>, x: seq<real>, t0Fitrange: int, threshold: real)
    requires |t| == |x| && (t0Fitrange <= -|x| || t0Fitrange == 0)
    ensures FindLag(t, x, t0Fitrange, Rel, threshold) == Ok(None)
  {
    assert SliceStop(|x|, t0Fitrange) == 0;
    assert Scale(threshold, InitialBiomass(x, t0Fitrange)).IsNull();
  }

  /** The two methods agree when the threshold of 'abs' is the threshold of
      'rel' times the initial biomass. */
  lemma RelativeIsScaledAbsolute(t: seq<real>, x: seq<real>, t0Fitrange: int, threshold: real)
    requires |t| == |x| && InitialBiomass(x, t0Fitrange).Num?
    ensures var t0 := InitialBiomass(x, t0Fitrange).v;
      match (FindLag(t, x, t0Fitrange, Rel, threshold), FindLag(t, x, t0Fitrange, Abs, threshold * t0))
      case (Ok(a), Ok(b)) => a == b
      case _ => false
  {
    var t0 := InitialBiomass(x, t0Fitrange);
    var bound := Num(threshold * t0.v);
    assert Scale(threshold, t0) == bound;
    var rel := FindLag(t, x, t0Fitrange, Rel, threshold);
    var abs := FindLag(t, x, t0Fitrange, Abs, threshold * t0.v);
    match FirstAbove(x, bound)
    case None =>
      assert rel == Ok(None) && abs == Ok(None);
    case Some(i) =>
      assert rel == Ok(Some(Lag(t0, t[i]))) && abs == Ok(Some(Lag(t0, t[i])));
  }

  // ---------------------------------------------------------------------------
  // Regression windows
  // ---------------------------------------------------------------------------

  /** What `linregress` reports for a window of at least two points whose
      timepoints are not all equal: slope, intercept and correlation
      coefficient, all finite. */
  datatype Fit = Fit(slope: real, intercept: real, r: real)

  /** A slope or intercept as the analysis sees it: a finite number, or the
      NaN of a one-point window. Finite sizes never give an infinity. */
  type Slope = v: Value | !v.IsInf() witness NaN

  /** What `linregress` returns for a window it accepts. */
  datatype Regression = Regression(slope: Slope, intercept: Slope, r: real)

  /** The window results `find_max_slope` keeps. */
  datatype Window = Window(tMax: Value, slope: Slope, r2: real, yIntercept: Slope, xIntercept: Value)

  /** The number of windows `range(len(x) - fitrange)` yields. */
  function WindowCount(n: nat, fitrange: nat): nat {
    if n > fitrange then n - fitrange else 0
  }

  /** All values equal, so that `np.amax(s) == np.amin(s)`. */
  predicate AllSame(s: seq<real>) {
    forall j :: 0 <= j < |s| ==> s[j] == s[0]
  }

  /** `linregress` raises on the window of `fitrange` points starting at `i`:
      the window is empty, or it has two or more timepoints, all equal. */
  predicate WindowFails(t: seq<real>, fitrange: nat, i: nat)
    requires i + fitrange <= |t|
  {
    fitrange == 0 || (fitrange > 1 && AllSame(t[i..i + fitrange]))
  }

  /** There is a candidate window and `linregress` accepts every one. */
  predicate Fittable(t: seq<real>, fitrange: nat) {
    && |t| > fitrange
    && forall i :: 0 <= i < |t| - fitrange ==> !WindowFails(t, fitrange, i)
  }

  /** `scipy.stats.linregress` on one window. An empty window and a window of
      two or more equal timepoints raise ValueError. A single point passes
      both checks; its variances are zero, so r is 0 and the slope 0/0 and the
      intercept are NaN. Every other window is fitted by `regress`. */
  function LinRegress(tw: seq<real>, xw: seq<real>, regress: (seq<real>, seq<real>) -> Fit): (r: Result<Regression>)
    ensures r.Err? <==> |tw| == 0 || (|tw| > 1 && AllSame(tw))
    ensures r.Err? ==> r.error.ValueError?
    ensures |tw| == 1 ==> r == Ok(Regression(NaN, NaN, 0.0))
  {
    if |tw| == 0 then Err(ValueError("Inputs must not be empty."))
    else if |tw| > 1 && AllSame(tw) then Err(ValueError("Cannot calculate a linear regression if all x values are identical"))
    else if |tw| == 1 then Ok(Regression(NaN, NaN, 0.0))
    else
      var f := regress(tw, xw);
      Ok(Regression(Num(f.slope), Num(f.intercept), f.r))
  }

  /** `k` is the first position holding the greatest value of `s` (the least,
      with `findMin`). */
  predicate FirstOptimal(s: seq<real>, k: nat, findMin: bool) {
    && k < |s|
    && (forall j :: 0 <= j < |s| ==> if findMin then s[k] <= s[j] else s[j] <= s[k])
    && (forall j :: 0 <= j < k ==> if findMin then s[k] < s[j] else s[j] < s[k])
  }

  function FirstBest(s: seq<real>, findMin: bool): (k: nat)
    requires |s| > 0
    ensures FirstOptimal(s, k, findMin)
    decreases |s|
  {
    if |s| == 1 then 0
    else
      var init := s[..|s| - 1];
      var b := FirstBest(init, findMin);
      assert forall j :: 0 <= j < |s| - 1 ==> init[j] == s[j];
      var last := s[|s| - 1];
      if (if findMin then last < s[b] else last > s[b]) then |s| - 1 else b
  }

  /** The key comparison inside Python's `max` (`min` with `findMin`): a
      comparison with NaN is false. */
  predicate Better(a: Slope, b: Slope, findMin: bool) {
    a.Num? && b.Num? && (if findMin then a.v < b.v else a.v > b.v)
  }

  /** Python's `max` (or `min`) with a key: keep the first element and move
      on only to a strictly better one. */
  function MaxBy(keys: seq<Slope>, findMin: bool): (k: nat)
    requires |keys| > 0
    ensures k < |keys|
    decreases |keys|
  {
    if |keys| == 1 then 0
    else
      var b := MaxBy(keys[..|keys| - 1], findMin);
      if Better(keys[|keys| - 1], keys[b], findMin) then |keys| - 1 else b
  }

  /** On numbers, Python's `max` with a key picks the first optimum. */
  lemma {:induction false} MaxByOfNumbers(keys: seq<Slope>, s: seq<real>, findMin: bool)
    requires |keys| == |s| > 0
    requires forall j :: 0 <= j < |s| ==> keys[j] == Num(s[j])
    ensures MaxBy(keys, findMin) == FirstBest(s, findMin)
    decreases |s|
  {
    if |s| > 1 {
      var n := |s| - 1;
      assert forall j :: 0 <= j < n ==> keys[..n][j] == Num(s[..n][j]);
      MaxByOfNumbers(keys[..n], s[..n], findMin);
    }
  }

  /** When every key is NaN no comparison succeeds and the first element is
      kept. */
  lemma {:induction false} MaxByOfNaNs(keys: seq<Slope>, findMin: bool)
    requires |keys| > 0
    requires forall j :: 0 <= j < |keys| ==> keys[j].NaN?
    ensures MaxBy(keys, findMin) == 0
    decreases |keys|
  {
    if |keys| > 1 {
      var n := |keys| - 1;
      assert forall j :: 0 <= j < n ==> keys[..n][j] == keys[j];
      MaxByOfNaNs(keys[..n], findMin);
    }
  }

  /** The fit `regress` gives the window of `fitrange` points starting at `i`. */
  function WindowFit(t: seq<real>, x: seq<real>, fitrange: nat, regress: (seq<real>, seq<real>) -> Fit, i: nat): Fit
    requires |t| == |x| && i + fitrange <= |x|
  {
    regress(t[i..i + fitrange], x[i..i + fitrange])
  }

  /** The row `find_max_slope` builds for an accepted window `i`: mean time,
      slope, r², y-intercept, and the x-intercept `-intercept / slope` in
      float arithmetic. */
  function MakeWindow(t: seq<real>, x: seq<real>, fitrange: nat, regress: (seq<real>, seq<real>) -> Fit, i: nat): (w: Window)
    requires |t| == |x| && i + fitrange <= |x| && !WindowFails(t, fitrange, i)
    ensures w.tMax == Mean(t[i..i + fitrange]) && w.tMax.Num?
    ensures w.r2 >= 0.0
    ensures fitrange == 1 ==> w.slope.NaN? && w.yIntercept.NaN? && w.xIntercept.NaN? && w.r2 == 0.0
    ensures fitrange > 1 ==>
      var fit := WindowFit(t, x, fitrange, regress, i);
      && w.slope == Num(fit.slope)
      && w.yIntercept == Num(fit.intercept)
      && w.r2 == fit.r * fit.r
      && (w.xIntercept.Num? <==> fit.slope != 0.0)
      && (w.xIntercept.Num? ==> w.xIntercept.v * fit.slope == -fit.intercept)
      && (fit.slope == 0.0 ==>
            w.xIntercept == (if fit.intercept > 0.0 then NegInf else if fit.intercept < 0.0 then PosInf else NaN))
  {
    var reg := LinRegress(t[i..i + fitrange], x[i..i + fitrange], regress).value;
    var xIntercept := Div(Neg(reg.intercept), reg.slope);
    if fitrange > 1 then
      XIntercept(reg.intercept.v, reg.slope.v);
      Window(Mean(t[i..i + fitrange]), reg.slope, reg.r * reg.r, reg.intercept, xIntercept)
    else
      Window(Mean(t[i..i + fitrange]), reg.slope, reg.r * reg.r, reg.intercept, xIntercept)
  }

  /** `-intercept / slope` in float arithmetic: the root of the fitted line,
      or ∓inf or NaN for a flat one. */
  lemma XIntercept(b: real, a: real)
    ensures var z := Div(Neg(Num(b)), Num(a));
      && (z.Num? <==> a != 0.0)
      && (z.Num? ==> z.v * a == -b)
      && (a == 0.0 ==> z == (if b > 0.0 then NegInf else if b < 0.0 then PosInf else NaN))
  {
  }

  /** The slopes `regress` gives the candidate windows `i` in
      `range(len(x) - fitrange)`. */
  function CandidateSlopes(t: seq<real>, x: seq<real>, fitrange: nat, regress: (seq<real>, seq<real>) -> Fit): (s: seq<real>)
    requires |t| == |x|
    ensures |s| == WindowCount(|x|, fitrange)
    ensures forall j :: 0 <= j < |s| ==> j + fitrange < |x| && s[j] == WindowFit(t, x, fitrange, regress, j).slope
  {
    var n := WindowCount(|x|, fitrange);
    seq(n, j requires 0 <= j < n => WindowFit(t, x, fitrange, regress, j).slope)
  }

  /** `find_max_slope`: fit every candidate window and keep the first one with
      the greatest slope (least with `findMin`). A window `linregress` rejects
      raises ValueError, and so does `max` without any candidate. The window
      starting at `len(x) - fitrange`, the last full one, is not a candidate.
      With one-point windows every slope is NaN and the first window is kept. */
  function FindMaxSlope(t: seq<real>, x: seq<real>, fitrange: nat, regress: (seq<real>, seq<real>) -> Fit, findMin: bool): (r: Result<(nat, Window)>)
    requires |t| == |x|
    ensures r.Ok? <==> Fittable(t, fitrange)
    ensures r.Err? ==> r.error.ValueError?
    ensures r.Ok? ==> r.value.0 + fitrange < |x| && !WindowFails(t, fitrange, r.value.0)
    ensures r.Ok? && fitrange == 1 ==> r.value.0 == 0
    ensures r.Ok? && fitrange > 1 ==> FirstOptimal(CandidateSlopes(t, x, fitrange, regress), r.value.0, findMin)
    ensures r.Ok? ==> r.value.1 == MakeWindow(t, x, fitrange, regress, r.value.0)
  {
    if exists i :: 0 <= i < |x| - fitrange && WindowFails(t, fitrange, i) then
      Err(ValueError("linregress rejects a window"))
    else if |x| <= fitrange then
      Err(ValueError("max() arg is an empty sequence"))
    else
      var n := |x| - fitrange;
      var keys := seq(n, j requires 0 <= j < n => MakeWindow(t, x, fitrange, regress, j).slope);
      var i := MaxBy(keys, findMin);
      assert fitrange == 1 ==> i == 0 by {
        if fitrange == 1 {
          MaxByOfNaNs(keys, findMin);
        }
      }
      assert fitrange > 1 ==> FirstOptimal(CandidateSlopes(t, x, fitrange, regress), i, findMin) by {
        if fitrange > 1 {
          MaxByOfNumbers(keys, CandidateSlopes(t, x, fitrange, regress), findMin);
        }
      }
      Ok((i, MakeWindow(t, x, fitrange, regress, i)))
  }

  /** With exactly `fitrange` timepoints there is one full window, yet none is
      fitted and the analysis stops. */
  lemma SingleFullWindowIsRejected(t: seq<real>, x: seq<real>, fitrange: nat, regress: (seq<real>, seq<real>) -> Fit, findMin: bool)
    requires |t| == |x| == fitrange
    ensures FindMaxSlope(t, x, fitrange, regress, findMin).Err?
  {
  }

  /** One-point windows: the search succeeds on any curve of two or more
      points, keeps the first window with a NaN slope and r² = 0, and so
      always flags a bad fit. */
  lemma OnePointWindows(t: seq<real>, x: seq<real>, regress: (seq<real>, seq<real>) -> Fit, findMin: bool)
    requires |t| == |x| > 1
    ensures FindMaxSlope(t, x, 1, regress, findMin).Ok?
    ensures var w := FindMaxSlope(t, x, 1, regress, findMin).value;
      && w.0 == 0 && w.1.tMax == Num(t[0]) && w.1.slope.NaN?
      && BadFitFlag(w.1.r2) == WarningFlag
  {
    assert Fittable(t, 1);
    assert t[0..1] == [t[0]];
    assert Sum([t[0]]) == t[0] by {
      assert [t[0]][..0] == [];
    }
  }

  // ---------------------------------------------------------------------------
  // Summary values and quality control
  // ---------------------------------------------------------------------------

  const WarningFlag: string := "WARNING"

  /** pandas' `max` of a column: NaN entries are skipped, and a column with
      nothing else (or nothing at all) has NaN for its maximum. */
  function NanMax(s: seq<Slope>): (m: Slope)
    ensures m.NaN? <==> forall j :: 0 <= j < |s| ==> s[j].NaN?
    ensures m.Num? ==> (exists j :: 0 <= j < |s| && s[j] == m)
    ensures m.Num? ==> forall j :: 0 <= j < |s| && s[j].Num? ==> s[j].v <= m.v
    decreases |s|
  {
    if |s| == 0 then NaN
    else
      var init := s[..|s| - 1];
      var m := NanMax(init);
      var last := s[|s| - 1];
      assert forall j :: 0 <= j < |s| - 1 ==> init[j] == s[j];
      if m.NaN? || (last.Num? && last.v > m.v) then last else m
  }

  /** 'warning_negative_slope': the curve's least window slope is below
      -7.5% of the greatest max_slope over all curves, that is, below -7.5% of
      every curve's numeric max_slope. NaN slopes are skipped by pandas' `max`;
      a comparison with NaN is false, so a NaN least slope, or no numeric
      max_slope at all, never raises the flag. */
  function NegativeSlopeFlag(minSlope: Slope, maxSlopes: seq<Slope>): (flag: string)
    ensures flag == WarningFlag <==>
      && minSlope.Num?
      && (exists d :: 0 <= d < |maxSlopes| && maxSlopes[d].Num?)
      && forall d :: 0 <= d < |maxSlopes| && maxSlopes[d].Num? ==> minSlope.v < -(maxSlopes[d].v * 0.075)
    ensures flag != WarningFlag ==> flag == ""
  {
    var m := NanMax(maxSlopes);
    if m.Num? && Less(minSlope, -(m.v * 0.075)) then
      assert forall d :: 0 <= d < |maxSlopes| && maxSlopes[d].Num? ==> minSlope.v < -(maxSlopes[d].v * 0.075) by {
        forall d | 0 <= d < |maxSlopes| && maxSlopes[d].Num? ensures minSlope.v < -(maxSlopes[d].v * 0.075) {
          assert maxSlopes[d].v * 0.075 <= m.v * 0.075;
        }
      }
      WarningFlag
    else
      ""
  }

  /** 'warning_bad_fit': r² of the chosen window below 0.95. */
  function BadFitFlag(r2: real): (flag: string)
    ensures flag == WarningFlag <==> r2 < 0.95
    ensures flag != WarningFlag ==> flag == ""
  {
    if r2 < 0.95 then WarningFlag else ""
  }

  // ---------------------------------------------------------------------------
  // The whole analysis
  // ---------------------------------------------------------------------------

  datatype CurveResult = CurveResult(
    lag: Option<Lag>,
    best: Window,
    minSlope: Slope,
    auc: real,
    maximum: Value,
    negativeSlopeWarning: string,
    badFitWarning: string)

  /** The result for one curve, given the max_slope of every curve. */
  function AnalyseCurve(t: seq<real>, x: seq<real>, fitrange: nat, t0Fitrange: int,
                        lagMethod: LagMethod, threshold: real,
                        regress: (seq<real>, seq<real>) -> Fit, maxSlopes: seq<Slope>): (r: CurveResult)
    requires |t| == |x| && Fittable(t, fitrange) && !lagMethod.Other?
    ensures Ok(r.lag) == FindLag(t, x, t0Fitrange, lagMethod, threshold)
    ensures Ok(r.best) == MapSecond(FindMaxSlope(t, x, fitrange, regress, false))
    ensures r.minSlope == FindMaxSlope(t, x, fitrange, regress, true).value.1.slope
    ensures r.auc == Sum(x) && r.maximum == MaxValue(x)
    ensures r.badFitWarning == BadFitFlag(r.best.r2)
    ensures r.negativeSlopeWarning == NegativeSlopeFlag(r.minSlope, maxSlopes)
  {
    var best := FindMaxSlope(t, x, fitrange, regress, false).value.1;
    var least := FindMaxSlope(t, x, fitrange, regress, true).value.1.slope;
    CurveResult(FindLag(t, x, t0Fitrange, lagMethod, threshold).value, best, least, Sum(x), MaxValue(x),
                NegativeSlopeFlag(least, maxSlopes), BadFitFlag(best.r2))
  }

  /** `analyse_growthcurve`: every curve's lag first, then every curve's
      steepest window, then every curve's shallowest window, then the summary
      values and the flags. The first failing step raises: NameError for an
      unknown lag method, ValueError when there is no candidate window or
      `linregress` rejects one. */
  function AnalyseGrowthCurves(t: seq<real>, curves: seq<seq<real>>, fitrange: nat, t0Fitrange: int,
                               lagMethod: LagMethod, threshold: real,
                               regress: (seq<real>, seq<real>) -> Fit): (r: Result<seq<CurveResult>>)
    requires forall c :: 0 <= c < |curves| ==> |curves[c]| == |t|
    ensures |curves| > 0 && lagMethod.Other? ==> r.Err? && r.error.NameError?
    ensures |curves| > 0 && !lagMethod.Other? && !Fittable(t, fitrange) ==> r.Err? && r.error.ValueError?
    ensures r.Ok? <==> |curves| == 0 || (!lagMethod.Other? && Fittable(t, fitrange))
    ensures r.Ok? ==> |r.value| == |curves|
    ensures r.Ok? ==> forall c :: 0 <= c < |curves| ==>
      r.value[c] == AnalyseCurve(t, curves[c], fitrange, t0Fitrange, lagMethod, threshold, regress,
                                 BestSlopes(r.value))
  {
    if |curves| == 0 then Ok([])
    else if lagMethod.Other? then Err(NameError("name 'method' is not defined"))
    else if !Fittable(t, fitrange) then FindMaxSlope(t, curves[0], fitrange, regress, false).PropagateFailure()
    else
      var maxSlopes := MaxSlopes(t, curves, fitrange, regress);
      var results := CurveResults(t, curves, fitrange, t0Fitrange, lagMethod, threshold, regress, maxSlopes);
      ResultsCarryMaxSlopes(t, curves, fitrange, t0Fitrange, lagMethod, threshold, regress);
      Ok(results)
  }

  /** The max_slope column of a list of curve results. */
  function BestSlopes(rs: seq<CurveResult>): (m: seq<Slope>)
    ensures |m| == |rs| && forall c :: 0 <= c < |rs| ==> m[c] == rs[c].best.slope
  {
    seq(|rs|, c requires 0 <= c < |rs| => rs[c].best.slope)
  }

  /** The column the flags are computed against is the column of results. */
  lemma ResultsCarryMaxSlopes(t: seq<real>, curves: seq<seq<real>>, fitrange: nat, t0Fitrange: int,
                              lagMethod: LagMethod, threshold: real,
                              regress: (seq<real>, seq<real>) -> Fit)
    requires forall c :: 0 <= c < |curves| ==> |curves[c]| == |t|
    requires Fittable(t, fitrange) && !lagMethod.Other?
    ensures var maxSlopes := MaxSlopes(t, curves, fitrange, regress);
      BestSlopes(CurveResults(t, curves, fitrange, t0Fitrange, lagMethod, threshold, regress, maxSlopes)) == maxSlopes
  {
  }

  /** Every curve's max_slope, the column pandas' `max` is taken over. */
  function MaxSlopes(t: seq<real>, curves: seq<seq<real>>, fitrange: nat,
                     regress: (seq<real>, seq<real>) -> Fit): (m: seq<Slope>)
    requires forall c :: 0 <= c < |curves| ==> |curves[c]| == |t|
    requires Fittable(t, fitrange)
    ensures |m| == |curves|
    ensures forall c :: 0 <= c < |curves| ==> m[c] == FindMaxSlope(t, curves[c], fitrange, regress, false).value.1.slope
  {
    seq(|curves|, c requires 0 <= c < |curves| => FindMaxSlope(t, curves[c], fitrange, regress, false).value.1.slope)
  }

  /** Every curve's result against the same column of max_slopes. */
  function CurveResults(t: seq<real>, curves: seq<seq<real>>, fitrange: nat, t0Fitrange: int,
                        lagMethod: LagMethod, threshold: real,
                        regress: (seq<real>, seq<real>) -> Fit, maxSlopes: seq<Slope>): (rs: seq<CurveResult>)
    requires forall c :: 0 <= c < |curves| ==> |curves[c]| == |t|
    requires Fittable(t, fitrange) && !lagMethod.Other?
    ensures |rs| == |curves|
    ensures forall c :: 0 <= c < |curves| ==>
      rs[c] == AnalyseCurve(t, curves[c], fitrange, t0Fitrange, lagMethod, threshold, regress, maxSlopes)
  {
    seq(|curves|, c requires 0 <= c < |curves| =>
      AnalyseCurve(t, curves[c], fitrange, t0Fitrange, lagMethod, threshold, regress, maxSlopes))
  }

  function MapSecond<A, B>(r: Result<(A, B)>): Result<B> {
    match r
    case Ok((_, b)) => Ok(b)
    case Err(e) => Err(e)
  }
}
