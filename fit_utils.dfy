/** The Gaussian line shapes and the plain logic around the least-squares
    fit: choosing the parameter set from the model name, the default initial
    guesses, the user overrides, the zero lower bounds, the fit window, and
    flattening a fit result into a row. The minimiser itself is an oracle
    `fit`; `exp` is an uninterpreted function. */
module FitUtils {
  import opened Numeric
  import opened Arrays
  import opened Dicts

  // ---------------------------------------------------------------------
  // Line shapes

  /** The exponent -0.5·((x - center)/sigma)² of a Gaussian of non-zero width. */
  function Exponent(x: real, center: real, sigma: real): real
    requires sigma != 0.0
  {
    var z := (x - center) / sigma;
    -0.5 * (z * z)
  }

  /** `gaussian` at one abscissa. A zero width divides by zero: numpy gives
      NaN at the center (0/0) and exp(-inf) = 0 elsewhere. */
  function GaussianAt(exp: real -> real, x: real, amplitude: real, center: real, sigma: real): (r: Float)
    ensures !r.Inf?
    ensures r.NaN? <==> sigma == 0.0 && x == center
    ensures sigma != 0.0 && x == center && exp(0.0) == 1.0 ==> r == Num(amplitude)
  {
    if sigma == 0.0 then
      (if x == center then NaN else Num(0.0))
    else
      assert x == center ==> Exponent(x, center, sigma) == 0.0;
      Num(amplitude * exp(Exponent(x, center, sigma)))
  }

  /** `gaussian` over an array of abscissae. */
  function Gaussian(exp: real -> real, x: seq<real>, amplitude: real, center: real, sigma: real): (r: seq<Float>)
    ensures |r| == |x|
    ensures forall i :: 0 <= i < |x| ==> r[i] == GaussianAt(exp, x[i], amplitude, center, sigma)
  {
    seq(|x|, i requires 0 <= i < |x| => GaussianAt(exp, x[i], amplitude, center, sigma))
  }

  /** Elementwise sum of two arrays of doubles. */
  function AddArrays(a: seq<Float>, b: seq<Float>): (r: seq<Float>)
    requires |a| == |b|
    ensures |r| == |a|
    ensures forall i :: 0 <= i < |a| ==> r[i] == Plus(a[i], b[i])
  {
    seq(|a|, i requires 0 <= i < |a| => Plus(a[i], b[i]))
  }

  /** `double_gaussian`: the sum of two Gaussian components. It is never
      infinite, and it is NaN exactly at the center of a component whose
      width is 0. */
  function DoubleGaussian(exp: real -> real, x: seq<real>,
                          amp1: real, cen1: real, sigma1: real,
                          amp2: real, cen2: real, sigma2: real): (r: seq<Float>)
    ensures |r| == |x|
    ensures forall i :: 0 <= i < |x| ==> !r[i].Inf?
    ensures forall i :: 0 <= i < |x| ==>
      (r[i].NaN? <==> (sigma1 == 0.0 && x[i] == cen1) || (sigma2 == 0.0 && x[i] == cen2))
  {
    AddArrays(Gaussian(exp, x, amp1, cen1, sigma1), Gaussian(exp, x, amp2, cen2, sigma2))
  }

  /** The Gaussian is symmetric about its center. */
  lemma GaussianSymmetric(exp: real -> real, t: real, amplitude: real, center: real, sigma: real)
    ensures GaussianAt(exp, center + t, amplitude, center, sigma)
         == GaussianAt(exp, center - t, amplitude, center, sigma)
  {
    if sigma == 0.0 {
      assert (center + t == center) == (center - t == center);
    } else {
      var z1 := ((center + t) - center) / sigma;
      var z2 := ((center - t) - center) / sigma;
      assert z2 == -z1;
      assert z1 * z1 == z2 * z2;
      assert Exponent(center + t, center, sigma) == Exponent(center - t, center, sigma);
    }
  }

  /** With exp mapping the non-positive reals into (0, 1], a Gaussian with a
      non-negative amplitude and a non-zero width stays within [0, amplitude]. */
  lemma GaussianBounded(exp: real -> real, x: real, amplitude: real, center: real, sigma: real)
    requires forall v :: v <= 0.0 ==> 0.0 < exp(v) <= 1.0
    requires amplitude >= 0.0 && sigma != 0.0
    ensures GaussianAt(exp, x, amplitude, center, sigma).Num?
    ensures 0.0 <= GaussianAt(exp, x, amplitude, center, sigma).value <= amplitude
  {
    var z := (x - center) / sigma;
    assert z * z >= 0.0;
    assert Exponent(x, center, sigma) <= 0.0;
    var e := exp(Exponent(x, center, sigma));
    assert 0.0 < e <= 1.0;
    assert amplitude * (1.0 - e) >= 0.0;
    assert amplitude * (1.0 - e) == amplitude - amplitude * e;
  }

  /** The double Gaussian is, entry by entry, the sum of its two components. */
  lemma DoubleGaussianPointwise(exp: real -> real, x: seq<real>,
                                amp1: real, cen1: real, sigma1: real,
                                amp2: real, cen2: real, sigma2: real, i: nat)
    requires i < |x|
    ensures DoubleGaussian(exp, x, amp1, cen1, sigma1, amp2, cen2, sigma2)[i]
         == Plus(GaussianAt(exp, x[i], amp1, cen1, sigma1), GaussianAt(exp, x[i], amp2, cen2, sigma2))
    ensures GaussianAt(exp, x[i], amp1, cen1, sigma1).Num? && GaussianAt(exp, x[i], amp2, cen2, sigma2).Num? ==>
      DoubleGaussian(exp, x, amp1, cen1, sigma1, amp2, cen2, sigma2)[i]
        == Num(GaussianAt(exp, x[i], amp1, cen1, sigma1).value + GaussianAt(exp, x[i], amp2, cen2, sigma2).value)
  {
  }

  /** The order of the two components does not matter. */
  lemma DoubleGaussianSwap(exp: real -> real, x: seq<real>,
                           amp1: real, cen1: real, sigma1: real,
                           amp2: real, cen2: real, sigma2: real)
    ensures DoubleGaussian(exp, x, amp1, cen1, sigma1, amp2, cen2, sigma2)
         == DoubleGaussian(exp, x, amp2, cen2, sigma2, amp1, cen1, sigma1)
  {
    var a := DoubleGaussian(exp, x, amp1, cen1, sigma1, amp2, cen2, sigma2);
    var b := DoubleGaussian(exp, x, amp2, cen2, sigma2, amp1, cen1, sigma1);
    forall i | 0 <= i < |x| ensures a[i] == b[i] {
      PlusCommutes(GaussianAt(exp, x[i], amp1, cen1, sigma1), GaussianAt(exp, x[i], amp2, cen2, sigma2));
    }
  }

  lemma PlusCommutes(a: Float, b: Float)
    ensures Plus(a, b) == Plus(b, a)
  {
  }

  /** A second component with zero amplitude (and non-zero width) leaves the
      first component unchanged. */
  lemma DoubleGaussianZeroSecond(exp: real -> real, x: seq<real>,
                                 amp1: real, cen1: real, sigma1: real,
                                 cen2: real, sigma2: real)
    requires sigma2 != 0.0
    ensures DoubleGaussian(exp, x, amp1, cen1, sigma1, 0.0, cen2, sigma2) == Gaussian(exp, x, amp1, cen1, sigma1)
  {
    var d := DoubleGaussian(exp, x, amp1, cen1, sigma1, 0.0, cen2, sigma2);
    var g := Gaussian(exp, x, amp1, cen1, sigma1);
    forall i | 0 <= i < |x| ensures d[i] == g[i] {
      var second := GaussianAt(exp, x[i], 0.0, cen2, sigma2);
      assert second == Num(0.0);
    }
  }

  // ---------------------------------------------------------------------
  // Parameter sets

  datatype ModelKind = Single | Double

  /** Only the exact string "single" selects the single Gaussian; every other
      string, "asymmetric" included, selects the double Gaussian. */
  function KindOf(model: string): (k: ModelKind)
    ensures k == Single <==> model == "single"
  {
    if model == "single" then Single else Double
  }

  const SingleNames: seq<string> := ["amplitude", "center", "sigma"]
  const DoubleNames: seq<string> := ["amp1", "cen1", "sigma1", "amp2", "cen2", "sigma2"]

  /** No parameter is called chi_square, so a flattened result row always
      gains that key at the end. */
  lemma ChiSquareIsNoParameter(kind: ModelKind)
    ensures "chi_square" !in ParamNames(kind)
  {
    forall n | n in ParamNames(kind) ensures n != "chi_square" {
      assert |n| < 10;
    }
  }

  function ParamNames(kind: ModelKind): seq<string>
  {
    match kind
    case Single => SingleNames
    case Double => DoubleNames
  }

  /** One fit parameter: its value and its lower bound (None is -inf). */
  datatype Param = Param(value: real, min: Option<real>)

  function Unbounded(v: real): Param
  {
    Param(v, None)
  }

  /** The default starting guesses, taken from the whole,
      unwindowed x and y: the maximum of y, the x at the first arg-max of y,
      and a tenth (single) or a twentieth (double) of the range of x. */
  function DefaultParams(kind: ModelKind, x: seq<real>, y: seq<real>): (p: Dict<Param>)
    requires |x| == |y| > 0
    ensures p.keys == ParamNames(kind)
  {
    var peak := x[ArgMax(y)];
    var range := Max(x) - Min(x);
    match kind
    case Single => SingleGuess(Max(y), peak, range)
    case Double => DoubleGuess(Max(y), peak, range)
  }

  function SingleGuess(top: real, peak: real, range: real): (p: Dict<Param>)
    ensures p.keys == SingleNames
  {
    var p := Entries(SingleNames, map[
      "amplitude" := Unbounded(top),
      "center" := Unbounded(peak),
      "sigma" := Unbounded(range / 10.0)]);
    assert p.Valid() by {
      assert p.at.Keys == {"amplitude", "center", "sigma"};
    }
    p
  }

  function DoubleGuess(top: real, peak: real, range: real): (p: Dict<Param>)
    ensures p.keys == DoubleNames
  {
    var p := Entries(DoubleNames, map[
      "amp1" := Unbounded(top / 2.0),
      "cen1" := Unbounded(peak),
      "sigma1" := Unbounded(range / 20.0),
      "amp2" := Unbounded(top / 2.0),
      "cen2" := Unbounded(peak),
      "sigma2" := Unbounded(range / 20.0)]);
    assert p.Valid() by {
      assert p.at.Keys == {"amp1", "cen1", "sigma1", "amp2", "cen2", "sigma2"};
    }
    p
  }

  /** No default guess carries a lower bound before the bounding step. */
  lemma DefaultParamsUnbounded(kind: ModelKind, x: seq<real>, y: seq<real>)
    requires |x| == |y| > 0
    ensures forall k :: k in DefaultParams(kind, x, y).at ==> DefaultParams(kind, x, y).at[k].min.None?
  {
  }

  /** The single-Gaussian guesses. */
  lemma SingleDefaults(x: seq<real>, y: seq<real>)
    requires |x| == |y| > 0
    ensures var p := DefaultParams(Single, x, y).at;
      && p["amplitude"].value == Max(y)
      && p["center"].value == x[ArgMax(y)]
      && p["sigma"].value == (Max(x) - Min(x)) / 10.0
  {
  }

  /** Each double-Gaussian guess is derived from the single-Gaussian one:
      half the amplitude, the same center, half the width, and both
      components start identical. */
  lemma DoubleDefaultsFromSingle(x: seq<real>, y: seq<real>)
    requires |x| == |y| > 0
    ensures var s := DefaultParams(Single, x, y).at;
      var d := DefaultParams(Double, x, y).at;
      && d["amp1"] == d["amp2"] && d["cen1"] == d["cen2"] && d["sigma1"] == d["sigma2"]
      && d["amp1"].value == s["amplitude"].value / 2.0
      && d["cen1"].value == s["center"].value
      && d["sigma1"].value == s["sigma"].value / 2.0
  {
  }

  /** `if initial_params:` — None and the empty dict are both false. */
  predicate Truthy<V>(d: Option<Dict<V>>)
  {
    d.Some? && |d.value.keys| > 0
  }

  /** Sets the starting value of an existing parameter; its bound is kept. */
  function WithValue(p: Dict<Param>, name: string, v: real): (r: Dict<Param>)
    requires name in p.at
    ensures r.keys == p.keys && r.at == p.at[name := p.at[name].(value := v)]
  {
    Put(p, name, p.at[name].(value := v))
  }

  /** Sets the lower bound of an existing parameter; its value is kept. */
  function WithMin(p: Dict<Param>, name: string, lo: real): (r: Dict<Param>)
    requires name in p.at
    ensures r.keys == p.keys && r.at == p.at[name := p.at[name].(min := Some(lo))]
  {
    Put(p, name, p.at[name].(min := Some(lo)))
  }

  /** The parameters after the first n override entries, in the dict's order;
      an entry whose name is not a parameter is skipped. */
  function Overridden(p: Dict<Param>, d: Dict<real>, n: nat): (r: Dict<Param>)
    requires n <= |d.keys|
    ensures r.keys == p.keys
  {
    if n == 0 then p
    else
      var q := Overridden(p, d, n - 1);
      var name := d.keys[n - 1];
      if name in q.at then WithValue(q, name, d.at[name]) else q
  }

  function ApplyOverrides(p: Dict<Param>, initial: Option<Dict<real>>): (r: Dict<Param>)
  {
    if Truthy(initial) then Overridden(p, initial.value, |initial.value.keys|) else p
  }

  lemma {:induction false} OverriddenValues(p: Dict<Param>, d: Dict<real>, n: nat, name: string)
    requires n <= |d.keys| && name in p.at
    ensures name in Overridden(p, d, n).at
    ensures Overridden(p, d, n).at[name].min == p.at[name].min
    ensures Overridden(p, d, n).at[name].value
         == if name in d.keys[..n] then d.at[name] else p.at[name].value
  {
    if n > 0 {
      OverriddenValues(p, d, n - 1, name);
      TakeSnoc(d.keys, n);
    }
  }

  /** Overrides: a key naming a parameter sets its value, an unknown key is
      ignored, unmentioned parameters keep their defaults, the set of names
      and the bounds do not change, and None or {} changes nothing. */
  lemma OverridesSpec(p: Dict<Param>, initial: Option<Dict<real>>)
    ensures ApplyOverrides(p, initial).keys == p.keys
    ensures forall name :: name in p.at ==>
      && ApplyOverrides(p, initial).at[name].min == p.at[name].min
      && ApplyOverrides(p, initial).at[name].value
         == if initial.Some? && name in initial.value.at then initial.value.at[name] else p.at[name].value
    ensures !Truthy(initial) ==> ApplyOverrides(p, initial) == p
  {
    if Truthy(initial) {
      var d := initial.value;
      forall name | name in p.at
        ensures && ApplyOverrides(p, initial).at[name].min == p.at[name].min
                && ApplyOverrides(p, initial).at[name].value
                   == if name in d.at then d.at[name] else p.at[name].value
      {
        OverriddenValues(p, d, |d.keys|, name);
        assert d.keys[..|d.keys|] == d.keys;
      }
    }
  }

  /** The first n parameters, in order, get the lower bound 0. */
  function LowerBounded(p: Dict<Param>, n: nat): (r: Dict<Param>)
    requires n <= |p.keys|
    ensures r.keys == p.keys
  {
    if n == 0 then p
    else WithMin(LowerBounded(p, n - 1), p.keys[n - 1], 0.0)
  }

  /** Every parameter gets lower bound 0 and keeps its starting value. */
  function LowerAllAtZero(p: Dict<Param>): (r: Dict<Param>)
    ensures r.keys == p.keys
  {
    LowerBounded(p, |p.keys|)
  }

  /** A parameter not among the first n keeps its bound. */
  lemma {:induction false} LowerBoundedKeeps(p: Dict<Param>, n: nat, name: string)
    requires n <= |p.keys| && name in p.at && name !in p.keys[..n]
    ensures name in LowerBounded(p, n).at && LowerBounded(p, n).at[name] == p.at[name]
  {
    if n > 0 {
      TakeSnoc(p.keys, n);
      LowerBoundedKeeps(p, n - 1, name);
    }
  }

  /** A parameter among the first n has lower bound 0 and keeps its value. */
  lemma {:induction false} LowerBoundedSets(p: Dict<Param>, n: nat, name: string)
    requires n <= |p.keys| && name in p.keys[..n]
    ensures name in p.at && name in LowerBounded(p, n).at
    ensures LowerBounded(p, n).at[name] == p.at[name].(min := Some(0.0))
  {
    var last := p.keys[n - 1];
    TakeSnoc(p.keys, n);
    if name == last {
      DistinctNotBefore(p.keys, n - 1);
      LowerBoundedKeeps(p, n - 1, name);
    } else {
      LowerBoundedSets(p, n - 1, name);
    }
  }

  lemma LowerBoundedValues(p: Dict<Param>, n: nat, name: string)
    requires n <= |p.keys| && name in p.at
    ensures name in LowerBounded(p, n).at
    ensures LowerBounded(p, n).at[name]
         == if name in p.keys[..n] then p.at[name].(min := Some(0.0)) else p.at[name]
  {
    if name in p.keys[..n] {
      LowerBoundedSets(p, n, name);
    } else {
      LowerBoundedKeeps(p, n, name);
    }
  }

  /** Afterwards every parameter has lower bound 0 and keeps its value; the
      names are unchanged. */
  lemma LowerAllAtZeroSpec(p: Dict<Param>)
    ensures LowerAllAtZero(p).keys == p.keys
    ensures forall name :: name in p.at ==>
      LowerAllAtZero(p).at[name] == Param(p.at[name].value, Some(0.0))
  {
    forall name | name in p.at
      ensures LowerAllAtZero(p).at[name] == Param(p.at[name].value, Some(0.0))
    {
      LowerBoundedValues(p, |p.keys|, name);
      assert p.keys[..|p.keys|] == p.keys;
    }
  }

  /** lmfit's `Parameters`, updated in place by `set`. */
  class Parameters {
    var table: Dict<Param>

    constructor (initial: Dict<Param>)
      ensures table == initial
    {
      table := initial;
    }

    /** `name in params` */
    predicate Has(name: string)
      reads this
    {
      name in table.at
    }

    method SetValue(name: string, v: real)
      requires Has(name)
      modifies this
      ensures table == WithValue(old(table), name, v)
    {
      table := WithValue(table, name, v);
    }

    method SetMin(name: string, lo: real)
      requires Has(name)
      modifies this
      ensures table == WithMin(old(table), name, lo)
    {
      table := WithMin(table, name, lo);
    }
  }

  // ---------------------------------------------------------------------
  // Fit window

  predicate AboveMin(v: real, xMin: Option<real>)
  {
    xMin.None? || v >= xMin.value
  }

  predicate BelowMax(v: real, xMax: Option<real>)
  {
    xMax.None? || v <= xMax.value
  }

  predicate InWindow(v: real, xMin: Option<real>, xMax: Option<real>)
  {
    AboveMin(v, xMin) && BelowMax(v, xMax)
  }

  /** The fit window: a sample is kept when it respects each bound that is
      given; a missing bound keeps everything. */
  function FitMask(x: seq<real>, xMin: Option<real>, xMax: Option<real>): (m: seq<bool>)
    ensures |m| == |x|
  {
    seq(|x|, i requires 0 <= i < |x| => InWindow(x[i], xMin, xMax))
  }

  /** The window keeps exactly the samples within the given bounds, in their
      original order; x_fit and y_fit have the same length. */
  lemma FitWindowExact(x: seq<real>, y: seq<real>, xMin: Option<real>, xMax: Option<real>)
    requires |x| == |y|
    ensures var m := FitMask(x, xMin, xMax);
      && |Select(x, m)| == |Select(y, m)| == |TrueIndices(m)|
      && (forall i :: 0 <= i < |x| ==> (m[i] <==> AboveMin(x[i], xMin) && BelowMax(x[i], xMax)))
      && (forall k :: 0 <= k < |TrueIndices(m)| ==>
            Select(x, m)[k] == x[TrueIndices(m)[k]] && Select(y, m)[k] == y[TrueIndices(m)[k]])
  {
    var m := FitMask(x, xMin, xMax);
    forall k | 0 <= k < |TrueIndices(m)|
      ensures Select(x, m)[k] == x[TrueIndices(m)[k]] && Select(y, m)[k] == y[TrueIndices(m)[k]]
    {
      SelectAtTrueIndices(x, m, k);
      SelectAtTrueIndices(y, m, k);
    }
  }

  /** Without bounds nothing is cut away. */
  lemma FitWindowUnbounded(x: seq<real>)
    ensures Select(x, FitMask(x, None, None)) == x
  {
    SelectAll(x, FitMask(x, None, None));
  }

  // ---------------------------------------------------------------------
  // The fit

  /** What the minimiser is called with: the model, the prepared parameters
      and the windowed data. */
  datatype FitRequest = FitRequest(kind: ModelKind, params: Dict<Param>, x: seq<real>, y: seq<real>)

  /** A successful fit: the fitted value of every parameter and chi-square. */
  datatype ModelResult = ModelResult(params: Dict<real>, chisqr: real)

  function Request(x: seq<real>, y: seq<real>, model: string, xMin: Option<real>, xMax: Option<real>,
                   initial: Option<Dict<real>>): FitRequest
    requires |x| == |y| > 0
  {
    var kind := KindOf(model);
    var params := LowerAllAtZero(ApplyOverrides(DefaultParams(kind, x, y), initial));
    var m := FitMask(x, xMin, xMax);
    FitRequest(kind, params, Select(x, m), Select(y, m))
  }

  /** `fit_model` without the plotting branch. None stands for a raised
      exception: the maximum of an empty y, mismatched x and y, or a failing
      minimiser. */
  function FitSpec(x: seq<real>, y: seq<real>, model: string, xMin: Option<real>, xMax: Option<real>,
                   initial: Option<Dict<real>>, fit: FitRequest -> Option<ModelResult>): (r: Option<ModelResult>)
    ensures |y| == 0 || |x| != |y| ==> r.None?
    ensures r.Some? ==> |x| == |y| > 0
    ensures |x| == |y| > 0 ==> r == fit(Request(x, y, model, xMin, xMax, initial))
  {
    if |y| == 0 || |x| != |y| then None
    else fit(Request(x, y, model, xMin, xMax, initial))
  }

  /** The request carries the model's own parameter names, each bounded below
      by 0, with the override value when the user gave one for that name and
      the default guess otherwise. */
  lemma RequestParams(x: seq<real>, y: seq<real>, model: string, xMin: Option<real>, xMax: Option<real>,
                      initial: Option<Dict<real>>)
    requires |x| == |y| > 0
    ensures var r := Request(x, y, model, xMin, xMax, initial);
      && r.kind == KindOf(model)
      && r.params.keys == ParamNames(KindOf(model))
      && forall name :: name in r.params.at ==>
           && r.params.at[name].min == Some(0.0)
           && name in DefaultParams(KindOf(model), x, y).at
           && r.params.at[name].value
              == if initial.Some? && name in initial.value.at then initial.value.at[name]
                 else DefaultParams(KindOf(model), x, y).at[name].value
  {
    var p0 := DefaultParams(KindOf(model), x, y);
    DefaultParamsUnbounded(KindOf(model), x, y);
    OverridesSpec(p0, initial);
    LowerAllAtZeroSpec(ApplyOverrides(p0, initial));
  }

  /** The request's data is the fit window of the whole data. */
  lemma RequestWindow(x: seq<real>, y: seq<real>, model: string, xMin: Option<real>, xMax: Option<real>,
                      initial: Option<Dict<real>>)
    requires |x| == |y| > 0
    ensures var r := Request(x, y, model, xMin, xMax, initial);
      var m := FitMask(x, xMin, xMax);
      && |r.x| == |r.y| == |TrueIndices(m)|
      && forall k :: 0 <= k < |r.x| ==> r.x[k] == x[TrueIndices(m)[k]] && r.y[k] == y[TrueIndices(m)[k]]
  {
    FitWindowExact(x, y, xMin, xMax);
  }

  /** The guesses are made before windowing: with x = [1, 2, 3],
      y = [0, 0, 5] and the window [1, 2], the initial center is 3, outside
      the window, and the amplitude guess 5 comes from a sample the fit never
      sees. */
  lemma DefaultsIgnoreWindow(x: seq<real>, y: seq<real>)
    requires x == [1.0, 2.0, 3.0] && y == [0.0, 0.0, 5.0]
    ensures var r := Request(x, y, "single", Some(1.0), Some(2.0), None);
      && r.params.at["center"].value == 3.0
      && r.params.at["amplitude"].value == 5.0
      && r.x == [1.0, 2.0]
      && !InWindow(r.params.at["center"].value, Some(1.0), Some(2.0))
  {
    RequestParams(x, y, "single", Some(1.0), Some(2.0), None);
    SingleDefaults(x, y);
    ExamplePeak(y);
    ExampleWindow(x);
  }

  lemma ExamplePeak(y: seq<real>)
    requires y == [0.0, 0.0, 5.0]
    ensures ArgMax(y) == 2 && Max(y) == 5.0
  {
    assert ArgMax(y) == 2;
  }

  lemma ExampleWindow(x: seq<real>)
    requires x == [1.0, 2.0, 3.0]
    ensures Select(x, FitMask(x, Some(1.0), Some(2.0))) == [1.0, 2.0]
  {
    var m := FitMask(x, Some(1.0), Some(2.0));
    assert m == [true, true, false];
    assert Select(x, m) == [1.0] + Select(x[1..], m[1..]);
    assert Select(x[1..], m[1..]) == [2.0] + Select(x[2..], m[2..]);
  }

  /** Applies each configured value whose name is a parameter, in the dict's
      order, and ignores the other names; does nothing for a missing or
      empty dict. */
  method OverrideValues(params: Parameters, initial: Option<Dict<real>>)
    modifies params
    ensures params.table == ApplyOverrides(old(params.table), initial)
  {
    if Truthy(initial) {
      var start := params.table;
      var d := initial.value;
      for i := 0 to |d.keys|
        invariant params.table == Overridden(start, d, i)
      {
        var name := d.keys[i];
        if params.Has(name) {
          params.SetValue(name, d.at[name]);
        }
      }
    }
  }

  /** Visits the parameters in order and bounds each below at 0. */
  method BoundBelowAtZero(params: Parameters)
    modifies params
    ensures params.table == LowerAllAtZero(old(params.table))
  {
    var start := params.table;
    for i := 0 to |start.keys|
      invariant params.table == LowerBounded(start, i)
    {
      params.SetMin(start.keys[i], 0.0);
    }
  }

  /** `make_params` with the defaults, then the overrides, then the zero
      lower bounds, all on one parameter object. */
  method PrepareParams(kind: ModelKind, x: seq<real>, y: seq<real>, initial: Option<Dict<real>>)
    returns (params: Parameters)
    requires |x| == |y| > 0
    ensures fresh(params)
    ensures params.table == LowerAllAtZero(ApplyOverrides(DefaultParams(kind, x, y), initial))
  {
    params := new Parameters(DefaultParams(kind, x, y));
    OverrideValues(params, initial);
    BoundBelowAtZero(params);
  }

  /** Builds the fit window in place: all samples start selected, then each
      bound that is given clears the samples on its wrong side. */
  method BuildMask(x: seq<real>, xMin: Option<real>, xMax: Option<real>) returns (mask: array<bool>)
    ensures fresh(mask)
    ensures mask[..] == FitMask(x, xMin, xMax)
  {
    mask := new bool[|x|](i => true);
    if xMin.Some? {
      for i := 0 to mask.Length
        invariant forall j :: 0 <= j < i ==> mask[j] == AboveMin(x[j], xMin)
        invariant forall j :: i <= j < mask.Length ==> mask[j]
      {
        mask[i] := mask[i] && x[i] >= xMin.value;
      }
    }
    if xMax.Some? {
      for i := 0 to mask.Length
        invariant forall j :: 0 <= j < i ==> mask[j] == InWindow(x[j], xMin, xMax)
        invariant forall j :: i <= j < mask.Length ==> mask[j] == AboveMin(x[j], xMin)
      {
        mask[i] := mask[i] && x[i] <= xMax.value;
      }
    }
    assert forall j :: 0 <= j < mask.Length ==> mask[j] == InWindow(x[j], xMin, xMax);
  }

  /** `fit_model` without the plotting branch: prepare the parameters, cut
      the window, call the minimiser. */
  method FitModel(x: seq<real>, y: seq<real>, model: string, xMin: Option<real>, xMax: Option<real>,
                  initial: Option<Dict<real>>, fit: FitRequest -> Option<ModelResult>)
    returns (result: Option<ModelResult>)
    ensures result == FitSpec(x, y, model, xMin, xMax, initial, fit)
  {
    if |y| == 0 || |x| != |y| {
      return None;
    }
    var kind := KindOf(model);
    var params := PrepareParams(kind, x, y, initial);
    var mask := BuildMask(x, xMin, xMax);
    var xFit := Select(x, mask[..]);
    var yFit := Select(y, mask[..]);
    result := fit(FitRequest(kind, params.table, xFit, yFit));
  }

  // ---------------------------------------------------------------------
  // Flattening a result

  /** Every fitted value as a double. */
  function AsFloats(d: Dict<real>): (r: Dict<Float>)
    ensures r.keys == d.keys
    ensures forall k :: k in r.at <==> k in d.at
    ensures forall k :: k in d.at ==> r.at[k] == Num(d.at[k])
  {
    Entries(d.keys, map k | k in d.at :: Num(d.at[k]))
  }

  /** The row `extract_fit_results` builds: every fitted name, in the
      result's order, with its value, followed by chi_square unless a
      parameter already had that name. */
  function ExtractSpec(result: ModelResult): (row: Dict<Float>)
    ensures row.keys == result.params.keys + (if "chi_square" in result.params.at then [] else ["chi_square"])
    ensures row.at["chi_square"] == Num(result.chisqr)
    ensures forall k :: k in result.params.at && k != "chi_square" ==> row.at[k] == Num(result.params.at[k])
  {
    Put(AsFloats(result.params), "chi_square", Num(result.chisqr))
  }

  /** `extract_fit_results`: a loop filling a fresh dict. The `model`
      argument has no influence on the row. */
  method ExtractFitResults(result: ModelResult, model: string) returns (row: Dict<Float>)
    ensures row == ExtractSpec(result)
  {
    var res: Dict<Float> := EmptyDict();
    var names := result.params.keys;
    for i := 0 to |names|
      invariant res.keys == names[..i]
      invariant forall k :: k in res.at <==> k in names[..i]
      invariant forall k :: k in res.at ==> k in result.params.at && res.at[k] == Num(result.params.at[k])
    {
      assert names[..i + 1] == names[..i] + [names[i]];
      assert names[i] !in names[..i];
      res := Put(res, names[i], Num(result.params.at[names[i]]));
    }
    assert names[..|names|] == names;
    assert res.at == AsFloats(result.params).at;
    row := Put(res, "chi_square", Num(result.chisqr));
  }
}
