/** Windowed per-pixel spectral metrics, the square reshape of a per-pixel
    vector, and the wavelength-to-energy transform of a spectrum. */
module CalcUtils {
  import opened Numeric
  import opened Arrays

  /** A loaded dataset: a matrix whose rows are the samples. Column 0 holds the
      wavelength, columns 1 .. width-1 the intensity of one pixel each. */
  datatype Dataset = Dataset(rows: seq<seq<real>>, width: nat)
  {
    predicate Valid()
    {
      width >= 1 && forall i :: 0 <= i < |rows| ==> |rows[i]| == width
    }

    function Pixels(): nat
      requires Valid()
    {
      width - 1
    }

    /** The wavelength axis: the first entry of every row. */
    function Wavelengths(): (w: seq<real>)
      requires Valid()
      ensures |w| == |rows|
    {
      seq(|rows|, i requires 0 <= i < |rows| => rows[i][0])
    }

    /** The spectrum of pixel j: entry j + 1 of every row. */
    function Intensity(j: nat): (y: seq<real>)
      requires Valid() && j < Pixels()
      ensures |y| == |rows|
    {
      seq(|rows|, i requires 0 <= i < |rows| => rows[i][j + 1])
    }
  }

  /** The wavelength range is inclusive at both ends. */
  predicate InRange(w: real, lo: real, hi: real)
  {
    lo <= w <= hi
  }

  /** Selects the samples whose wavelength lies in the closed window [lo, hi]. */
  function WindowMask(wl: seq<real>, lo: real, hi: real): (m: seq<bool>)
    ensures |m| == |wl|
    ensures forall i :: 0 <= i < |wl| ==> m[i] == InRange(wl[i], lo, hi)
  {
    seq(|wl|, i requires 0 <= i < |wl| => InRange(wl[i], lo, hi))
  }

  /** The wavelengths inside the window, in order. */
  function WindowWavelengths(d: Dataset, lo: real, hi: real): (wl: seq<real>)
    requires d.Valid()
    ensures |wl| == CountTrue(WindowMask(d.Wavelengths(), lo, hi))
  {
    Select(d.Wavelengths(), WindowMask(d.Wavelengths(), lo, hi))
  }

  /** Pixel j's intensities at the wavelengths inside the window. */
  function WindowIntensity(d: Dataset, lo: real, hi: real, j: nat): (y: seq<real>)
    requires d.Valid() && j < d.Pixels()
    ensures |y| == |WindowWavelengths(d, lo, hi)|
  {
    Select(d.Intensity(j), WindowMask(d.Wavelengths(), lo, hi))
  }

  predicate NoSampleInWindow(d: Dataset, lo: real, hi: real)
    requires d.Valid()
  {
    forall i :: 0 <= i < |d.rows| ==> !InRange(d.rows[i][0], lo, hi)
  }

  lemma EmptyWindowSelectsNothing(d: Dataset, lo: real, hi: real)
    requires d.Valid() && NoSampleInWindow(d, lo, hi)
    ensures |WindowWavelengths(d, lo, hi)| == 0
  {
    CountTrueNone(WindowMask(d.Wavelengths(), lo, hi));
  }

  // ---------------------------------------------------------------------
  // Integrated intensity

  /** `calculate_integrated_intensity`: one windowed sum per pixel column.
      Entry j is the sum of pixel j's intensities over the samples with
      lo <= wavelength <= hi, as the reference walk WindowedTotal adds them. */
  function IntegratedIntensity(d: Dataset, lo: real, hi: real): (r: seq<real>)
    requires d.Valid()
    ensures |r| == d.Pixels()
    ensures forall j :: 0 <= j < d.Pixels() ==>
      r[j] == WindowedTotal(d.Wavelengths(), d.Intensity(j), lo, hi)
  {
    var r := seq(d.Pixels(), j requires 0 <= j < d.Pixels() => Sum(WindowIntensity(d, lo, hi, j)));
    assert forall j :: 0 <= j < d.Pixels() ==> r[j] == WindowedTotal(d.Wavelengths(), d.Intensity(j), lo, hi) by {
      forall j | 0 <= j < d.Pixels()
        ensures r[j] == WindowedTotal(d.Wavelengths(), d.Intensity(j), lo, hi)
      {
        SumSelectIsWindowedTotal(d.Wavelengths(), d.Intensity(j), lo, hi);
      }
    }
    r
  }

  /** Reference definition: walk the samples in order and add every intensity
      whose wavelength lies in [lo, hi]. */
  function WindowedTotal(wl: seq<real>, y: seq<real>, lo: real, hi: real): real
    requires |wl| == |y|
  {
    if |wl| == 0 then 0.0
    else (if InRange(wl[0], lo, hi) then y[0] else 0.0) + WindowedTotal(wl[1..], y[1..], lo, hi)
  }

  lemma {:induction false} SumSelectIsWindowedTotal(wl: seq<real>, y: seq<real>, lo: real, hi: real)
    requires |wl| == |y|
    ensures Sum(Select(y, WindowMask(wl, lo, hi))) == WindowedTotal(wl, y, lo, hi)
  {
    if |wl| > 0 {
      var m := WindowMask(wl, lo, hi);
      assert m[1..] == WindowMask(wl[1..], lo, hi);
      SumSelectIsWindowedTotal(wl[1..], y[1..], lo, hi);
      SumAppend(if m[0] then [y[0]] else [], Select(y[1..], m[1..]));
    }
  }

  /** No wavelength in the range: every integrated intensity is 0, no error. */
  lemma IntegratedIntensityEmptyWindow(d: Dataset, lo: real, hi: real)
    requires d.Valid() && NoSampleInWindow(d, lo, hi)
    ensures forall j :: 0 <= j < d.Pixels() ==> IntegratedIntensity(d, lo, hi)[j] == 0.0
  {
    EmptyWindowSelectsNothing(d, lo, hi);
  }

  /** A range covering every wavelength integrates the whole spectrum. */
  lemma IntegratedIntensityFullWindow(d: Dataset, lo: real, hi: real, j: nat)
    requires d.Valid() && j < d.Pixels()
    requires forall i :: 0 <= i < |d.rows| ==> InRange(d.rows[i][0], lo, hi)
    ensures IntegratedIntensity(d, lo, hi)[j] == Sum(d.Intensity(j))
  {
    SelectAll(d.Intensity(j), WindowMask(d.Wavelengths(), lo, hi));
  }

  // ---------------------------------------------------------------------
  // Weighted mean emission wavelength

  /** Σ(wl·I) / Σ(I) over one pixel's windowed samples: finite exactly when
      the total intensity is not 0, and then the mean times the total is the
      weighted sum; 0/0 is NaN. */
  function PixelWeightedMean(wl: seq<real>, y: seq<real>): (r: Float)
    requires |wl| == |y|
    ensures r.Num? <==> Sum(y) != 0.0
    ensures r.Num? ==> r.value * Sum(y) == Sum(Products(wl, y))
    ensures r.NaN? <==> Sum(y) == 0.0 && Sum(Products(wl, y)) == 0.0
  {
    Divide(Sum(Products(wl, y)), Sum(y))
  }

  /** `calculate_weighted_mean_emission_wavelength`: a zero denominator (an
      empty window among others) gives a non-finite entry, never an error. */
  function WeightedMean(d: Dataset, lo: real, hi: real): (r: seq<Float>)
    requires d.Valid()
    ensures |r| == d.Pixels()
    ensures forall j :: 0 <= j < d.Pixels() ==>
      (r[j].Num? <==> Sum(WindowIntensity(d, lo, hi, j)) != 0.0)
  {
    var wl := WindowWavelengths(d, lo, hi);
    seq(d.Pixels(), j requires 0 <= j < d.Pixels() => PixelWeightedMean(wl, WindowIntensity(d, lo, hi, j)))
  }

  /** An empty window gives 0/0 = NaN for every pixel. */
  lemma WeightedMeanEmptyWindow(d: Dataset, lo: real, hi: real)
    requires d.Valid() && NoSampleInWindow(d, lo, hi)
    ensures forall j :: 0 <= j < d.Pixels() ==> WeightedMean(d, lo, hi)[j] == NaN
  {
    EmptyWindowSelectsNothing(d, lo, hi);
  }

  lemma MulLeMono(a: real, b: real, c: real)
    requires a <= b && c >= 0.0
    ensures a * c <= b * c
  {
  }

  /** Entry by entry, `a*y <= wl*y <= b*y` when `a <= wl <= b` and `y >= 0`. */
  lemma PointwiseBounds(wl: seq<real>, y: seq<real>, a: real, b: real)
    requires |wl| == |y|
    requires forall i :: 0 <= i < |wl| ==> a <= wl[i] <= b
    requires forall i :: 0 <= i < |y| ==> y[i] >= 0.0
    ensures forall i :: 0 <= i < |y| ==>
      Products(Constant(a, |y|), y)[i] <= Products(wl, y)[i] <= Products(Constant(b, |y|), y)[i]
  {
    forall i | 0 <= i < |y|
      ensures Products(Constant(a, |y|), y)[i] <= Products(wl, y)[i] <= Products(Constant(b, |y|), y)[i]
    {
      MulLeMono(a, wl[i], y[i]);
      MulLeMono(wl[i], b, y[i]);
    }
  }

  /** With non-negative weights, the weighted sum lies between the smallest and
      the largest weight bound times the total weight. */
  lemma WeightedSumBounds(wl: seq<real>, y: seq<real>, a: real, b: real)
    requires |wl| == |y|
    requires forall i :: 0 <= i < |wl| ==> a <= wl[i] <= b
    requires forall i :: 0 <= i < |y| ==> y[i] >= 0.0
    ensures a * Sum(y) <= Sum(Products(wl, y)) <= b * Sum(y)
  {
    var n := |y|;
    PointwiseBounds(wl, y, a, b);
    SumMono(Products(Constant(a, n), y), Products(wl, y));
    SumMono(Products(wl, y), Products(Constant(b, n), y));
    SumScaled(a, y);
    SumScaled(b, y);
  }

  /** Non-negative weights with a positive total keep the weighted mean
      within any bounds on the wavelengths. */
  lemma WeightedMeanBounds(wl: seq<real>, y: seq<real>, a: real, b: real)
    requires |wl| == |y|
    requires forall i :: 0 <= i < |wl| ==> a <= wl[i] <= b
    requires forall i :: 0 <= i < |y| ==> y[i] >= 0.0
    requires Sum(y) > 0.0
    ensures PixelWeightedMean(wl, y).Num?
    ensures a <= PixelWeightedMean(wl, y).value <= b
  {
    WeightedSumBounds(wl, y, a, b);
    QuotientBounds(Sum(Products(wl, y)), Sum(y), a, b);
  }

  /** In particular between the smallest and the largest wavelength. */
  lemma PixelWeightedMeanBounds(wl: seq<real>, y: seq<real>)
    requires |wl| == |y| > 0
    requires forall i :: 0 <= i < |y| ==> y[i] >= 0.0
    requires Sum(y) > 0.0
    ensures PixelWeightedMean(wl, y).Num?
    ensures Min(wl) <= PixelWeightedMean(wl, y).value <= Max(wl)
  {
    WeightedMeanBounds(wl, y, Min(wl), Max(wl));
  }

  /** For a pixel whose windowed intensities are non-negative with a positive
      integrated intensity, the weighted mean is finite and lies between the
      smallest and largest windowed wavelength (hence inside [lo, hi]). */
  lemma WeightedMeanWithinWindow(d: Dataset, lo: real, hi: real, j: nat)
    requires d.Valid() && j < d.Pixels()
    requires forall i :: 0 <= i < |d.rows| && InRange(d.rows[i][0], lo, hi) ==> d.rows[i][j + 1] >= 0.0
    requires IntegratedIntensity(d, lo, hi)[j] > 0.0
    ensures |WindowWavelengths(d, lo, hi)| > 0
    ensures WeightedMean(d, lo, hi)[j].Num?
    ensures Min(WindowWavelengths(d, lo, hi)) <= WeightedMean(d, lo, hi)[j].value <= Max(WindowWavelengths(d, lo, hi))
    ensures lo <= WeightedMean(d, lo, hi)[j].value <= hi
  {
    var m := WindowMask(d.Wavelengths(), lo, hi);
    var wl := WindowWavelengths(d, lo, hi);
    var y := WindowIntensity(d, lo, hi, j);
    var idx := TrueIndices(m);
    forall k | 0 <= k < |y| ensures y[k] >= 0.0 && InRange(wl[k], lo, hi) {
      SelectAtTrueIndices(d.Intensity(j), m, k);
      SelectAtTrueIndices(d.Wavelengths(), m, k);
    }
    assert |y| > 0;
    PixelWeightedMeanBounds(wl, y);
  }

  // ---------------------------------------------------------------------
  // FWHM

  /** Marks the samples at or above the threshold t. */
  function AtLeast(y: seq<real>, t: real): (m: seq<bool>)
    ensures |m| == |y|
    ensures forall i :: 0 <= i < |y| ==> m[i] == (y[i] >= t)
  {
    seq(|y|, i requires 0 <= i < |y| => y[i] >= t)
  }

  /** One pixel's FWHM at index resolution: the wavelength distance between the
      first and the last sample at or above half the maximum, 0.0 when no
      sample qualifies. */
  function PixelFwhm(wl: seq<real>, y: seq<real>): (r: real)
    requires |wl| == |y| > 0
    ensures r == 0.0 || exists i, k :: 0 <= i <= k < |y| && y[i] >= Max(y) / 2.0 && y[k] >= Max(y) / 2.0
                                       && r == wl[k] - wl[i]
  {
    var half := Max(y) / 2.0;
    var idx := TrueIndices(AtLeast(y, half));
    if |idx| > 0 then
      var i, k := idx[0], idx[|idx| - 1];
      assert i <= k && y[i] >= half && y[k] >= half;
      wl[k] - wl[i]
    else 0.0
  }

  /** The 0.0 fallback is reached exactly when the maximum is negative. */
  lemma FwhmFallbackIffNegativeMax(wl: seq<real>, y: seq<real>)
    requires |wl| == |y| > 0
    ensures |TrueIndices(AtLeast(y, Max(y) / 2.0))| == 0 <==> Max(y) < 0.0
    ensures Max(y) < 0.0 ==> PixelFwhm(wl, y) == 0.0
  {
    var half := Max(y) / 2.0;
    var m := AtLeast(y, half);
    if Max(y) < 0.0 {
      CountTrueNone(m);
    } else {
      var k := ArgMax(y);
      assert m[k];
      TrueIndicesComplete(m, k);
    }
  }

  /** With a non-negative maximum, FWHM is wl[last] - wl[first] where first
      and last are the first and last samples at or above half the maximum. */
  lemma FwhmSpan(wl: seq<real>, y: seq<real>) returns (first: nat, last: nat)
    requires |wl| == |y| > 0
    requires Max(y) >= 0.0
    ensures first <= last < |y|
    ensures y[first] >= Max(y) / 2.0 && y[last] >= Max(y) / 2.0
    ensures forall i :: 0 <= i < first ==> y[i] < Max(y) / 2.0
    ensures forall i :: last < i < |y| ==> y[i] < Max(y) / 2.0
    ensures PixelFwhm(wl, y) == wl[last] - wl[first]
  {
    FwhmFallbackIffNegativeMax(wl, y);
    var half := Max(y) / 2.0;
    var m := AtLeast(y, half);
    var idx := TrueIndices(m);
    assert |idx| > 0;
    first, last := idx[0], idx[|idx| - 1];
    forall i | 0 <= i < |y| && y[i] >= half ensures first <= i <= last {
      TrueIndicesSpan(m, i);
    }
    assert PixelFwhm(wl, y) == wl[last] - wl[first] by {
      FwhmOfIndices(wl, y);
    }
  }

  /** When some sample reaches half the maximum, the width is taken between the
      first and the last such sample. */
  lemma FwhmOfIndices(wl: seq<real>, y: seq<real>)
    requires |wl| == |y| > 0
    requires |TrueIndices(AtLeast(y, Max(y) / 2.0))| > 0
    ensures var idx := TrueIndices(AtLeast(y, Max(y) / 2.0));
      PixelFwhm(wl, y) == wl[idx[|idx| - 1]] - wl[idx[0]]
  {
  }

  predicate Ascending(s: seq<real>)
  {
    forall i, j :: 0 <= i < j < |s| ==> s[i] <= s[j]
  }

  /** Over an ascending wavelength axis the FWHM is never negative. */
  lemma FwhmNonNegative(wl: seq<real>, y: seq<real>)
    requires |wl| == |y| > 0 && Ascending(wl)
    ensures PixelFwhm(wl, y) >= 0.0
  {
    if Max(y) >= 0.0 {
      var first, last := FwhmSpan(wl, y);
    } else {
      FwhmFallbackIffNegativeMax(wl, y);
    }
  }

  /** A flat non-negative spectrum (all zero, say) gives the full windowed
      wavelength span, not 0. */
  lemma FwhmFlatSpectrum(wl: seq<real>, y: seq<real>, c: real)
    requires |wl| == |y| > 0
    requires forall i :: 0 <= i < |y| ==> y[i] == c
    requires c >= 0.0
    ensures PixelFwhm(wl, y) == wl[|wl| - 1] - wl[0]
  {
    assert Max(y) == c;
    var first, last := FwhmSpan(wl, y);
    assert y[0] >= Max(y) / 2.0 && y[|y| - 1] >= Max(y) / 2.0;
  }

  /** `calculate_fwhm`: a loop over the pixel columns. The maximum of an
      empty window raises, so the whole call fails (None) when there is a pixel and
      no wavelength in range. */
  method Fwhm(d: Dataset, lo: real, hi: real) returns (r: Option<seq<real>>)
    requires d.Valid()
    ensures r.None? <==> d.Pixels() > 0 && |WindowWavelengths(d, lo, hi)| == 0
    ensures r.Some? ==> |r.value| == d.Pixels()
    ensures r.Some? ==> forall j :: 0 <= j < d.Pixels() ==>
      r.value[j] == PixelFwhm(WindowWavelengths(d, lo, hi), WindowIntensity(d, lo, hi, j))
  {
    var m := WindowMask(d.Wavelengths(), lo, hi);
    var wl := Select(d.Wavelengths(), m);
    assert wl == WindowWavelengths(d, lo, hi);
    var fwhmList: seq<real> := [];
    for col := 0 to d.Pixels()
      invariant |fwhmList| == col
      invariant col > 0 ==> |wl| > 0
      invariant forall j :: 0 <= j < col ==> fwhmList[j] == PixelFwhm(wl, WindowIntensity(d, lo, hi, j))
    {
      var y := Select(d.Intensity(col), m);
      assert |y| == |wl|;
      if |y| == 0 {
        return None;
      }
      assert y == WindowIntensity(d, lo, hi, col);
      var fwhmVal := PixelFwhm(wl, y);
      fwhmList := fwhmList + [fwhmVal];
    }
    return Some(fwhmList);
  }

  // ---------------------------------------------------------------------
  // Square reshape

  /** `int(np.sqrt(n))`, taken as the exact integer square root. */
  function ISqrt(n: nat): (s: nat)
    ensures s * s <= n < (s + 1) * (s + 1)
  {
    if n == 0 then 0
    else
      var t := ISqrt(n - 1);
      if (t + 1) * (t + 1) <= n then
        assert n == (t + 1) * (t + 1);
        assert (t + 2) * (t + 2) == (t + 1) * (t + 1) + 2 * t + 3;
        t + 1
      else t
  }

  predicate IsSquareOf(s: nat, n: nat)
  {
    s * s == n
  }

  lemma SquareMonotone(a: nat, b: nat)
    requires a <= b
    ensures a * a <= b * b
  {
    assert a * a <= a * b;
    assert a * b <= b * b;
  }

  /** The integer square root of a perfect square is its root. */
  lemma SquareRootUnique(s: nat, n: nat)
    requires IsSquareOf(s, n)
    ensures ISqrt(n) == s
  {
    var k := ISqrt(n);
    if k < s {
      SquareMonotone(k + 1, s);
    } else if k > s {
      SquareMonotone(s + 1, k);
    }
  }

  lemma RowBounds(i: nat, side: nat)
    requires i < side
    ensures 0 <= i * side && i * side + side <= side * side
  {
    SquareMonotone(0, 0);
    assert (i + 1) * side <= side * side by {
      assert i + 1 <= side;
    }
    assert (i + 1) * side == i * side + side;
  }

  /** Row i of the side x side grid filled row-major from `a`. */
  function Row<T>(a: seq<T>, side: nat, i: nat): (row: seq<T>)
    requires side * side == |a| && i < side
    ensures |row| == side
  {
    RowBounds(i, side);
    var start := i * side;
    a[start .. start + side]
  }

  /** `to_square`: None stands for the ValueError raised when the length is
      not a perfect square; otherwise the side x side grid filled row-major. */
  function ToSquare<T>(a: seq<T>): (r: Option<seq<seq<T>>>)
    ensures r.Some? <==> IsSquareOf(ISqrt(|a|), |a|)
    ensures r.Some? ==> |r.value| == ISqrt(|a|)
    ensures r.Some? ==> forall i :: 0 <= i < |r.value| ==> |r.value[i]| == ISqrt(|a|)
  {
    var side := ISqrt(|a|);
    if side * side != |a| then None
    else
      Some(seq(side, i requires 0 <= i < side => Row(a, side, i)))
  }

  /** The reshape succeeds exactly for perfect-square lengths. */
  lemma ToSquareIffPerfectSquare<T>(a: seq<T>)
    ensures ToSquare(a).Some? <==> exists s: nat :: IsSquareOf(s, |a|)
  {
    if exists s: nat :: IsSquareOf(s, |a|) {
      var s: nat :| IsSquareOf(s, |a|);
      SquareRootUnique(s, |a|);
    }
  }

  /** Row-major fill: cell (i, j) holds a[i * side + j]. */
  lemma ToSquareEntry<T>(a: seq<T>, i: nat, j: nat)
    requires ToSquare(a).Some?
    requires i < ISqrt(|a|) && j < ISqrt(|a|)
    ensures i * ISqrt(|a|) + j < |a|
    ensures ToSquare(a).value[i][j] == a[i * ISqrt(|a|) + j]
  {
    var side := ISqrt(|a|);
    RowBounds(i, side);
    assert ToSquare(a).value[i] == Row(a, side, i);
  }

  /** 25 values give a 5 x 5 grid, 24 values are refused, 0 values give a 0 x 0 grid. */
  lemma ToSquareExamples<T>(a: seq<T>, b: seq<T>, c: seq<T>)
    requires |a| == 25 && |b| == 24 && |c| == 0
    ensures ToSquare(a).Some? && |ToSquare(a).value| == 5
    ensures ToSquare(b).None?
    ensures ToSquare(c) == Some([])
  {
    SquareRootUnique(5, 25);
    var k := ISqrt(24);
    if k <= 4 {
      SquareMonotone(k, 4);
    } else {
      SquareMonotone(5, k);
    }
  }

  // ---------------------------------------------------------------------
  // Wavelength to energy

  /** One spectral sample: abscissa (wavelength or energy) and intensity. */
  datatype Sample = Sample(x: real, y: real)

  function Zip(xs: seq<real>, ys: seq<real>): (r: seq<Sample>)
    requires |xs| == |ys|
    ensures |r| == |xs|
    ensures forall i :: 0 <= i < |xs| ==> r[i] == Sample(xs[i], ys[i])
  {
    seq(|xs|, i requires 0 <= i < |xs| => Sample(xs[i], ys[i]))
  }

  function Xs(s: seq<Sample>): (r: seq<real>)
    ensures |r| == |s|
    ensures forall i :: 0 <= i < |s| ==> r[i] == s[i].x
  {
    seq(|s|, i requires 0 <= i < |s| => s[i].x)
  }

  function Ys(s: seq<Sample>): (r: seq<real>)
    ensures |r| == |s|
    ensures forall i :: 0 <= i < |s| ==> r[i] == s[i].y
  {
    seq(|s|, i requires 0 <= i < |s| => s[i].y)
  }

  /** One sample moved to the energy axis: (λ, I) becomes (hc/λ, I·λ²/hc). */
  function Transform(hc: real, s: Sample): Sample
    requires hc != 0.0 && s.x != 0.0
  {
    Sample(hc / s.x, s.y * ((s.x * s.x) / hc))
  }

  /** The transformed samples, in input order. */
  function EnergySamples(wl: seq<real>, intensity: seq<real>, hc: real): (r: seq<Sample>)
    requires |wl| == |intensity| && hc != 0.0 && 0.0 !in wl
    ensures |r| == |wl|
    ensures forall i :: 0 <= i < |wl| ==> r[i] == Transform(hc, Sample(wl[i], intensity[i]))
  {
    seq(|wl|, i requires 0 <= i < |wl| => Transform(hc, Sample(wl[i], intensity[i])))
  }

  predicate SortedByX(s: seq<Sample>)
  {
    forall i, j :: 0 <= i < j < |s| ==> s[i].x <= s[j].x
  }

  function InsertByX(p: Sample, s: seq<Sample>): (r: seq<Sample>)
    requires SortedByX(s)
    ensures |r| == |s| + 1
    ensures multiset(r) == multiset(s) + multiset{p}
    ensures SortedByX(r)
    ensures r[0] == if |s| == 0 || p.x <= s[0].x then p else s[0]
  {
    if |s| == 0 || p.x <= s[0].x then [p] + s
    else
      var rest := InsertByX(p, s[1..]);
      assert s == [s[0]] + s[1..];
      ConsSorted(s[0], rest);
      [s[0]] + rest
  }

  lemma ConsSorted(a: Sample, rest: seq<Sample>)
    requires SortedByX(rest) && |rest| > 0 && a.x <= rest[0].x
    ensures SortedByX([a] + rest)
  {
    var r := [a] + rest;
    forall i, j | 0 <= i < j < |r| ensures r[i].x <= r[j].x {
      assert r[j].x == rest[j - 1].x;
      if i > 0 {
        assert r[i].x == rest[i - 1].x;
      }
    }
  }

  /** Ascending by abscissa; equal abscissae keep their input order. */
  function SortByX(s: seq<Sample>): (r: seq<Sample>)
    ensures |r| == |s|
    ensures multiset(r) == multiset(s)
    ensures SortedByX(r)
  {
    if |s| == 0 then []
    else
      assert s == [s[0]] + s[1..];
      InsertByX(s[0], SortByX(s[1..]))
  }

  /** `convert_wavelength_to_energy_jacobian`: energies hc/λ with the
      intensities scaled by the Jacobian λ²/hc, re-sorted ascending by energy.
      None stands for the non-finite arrays numpy returns when hc or a
      wavelength is zero. */
  function ConvertWavelengthToEnergy(wavelength: seq<real>, intensity: seq<real>, hc: real := 1240.0)
    : (r: Option<(seq<real>, seq<real>)>)
    requires |wavelength| == |intensity|
    ensures r.None? <==> hc == 0.0 || 0.0 in wavelength
    ensures r.Some? ==> |r.value.0| == |wavelength| && |r.value.1| == |wavelength|
    ensures r.Some? ==> Zip(r.value.0, r.value.1) == SortByX(EnergySamples(wavelength, intensity, hc))
  {
    if hc == 0.0 || 0.0 in wavelength then None
    else
      var sorted := SortByX(EnergySamples(wavelength, intensity, hc));
      assert Zip(Xs(sorted), Ys(sorted)) == sorted;
      Some((Xs(sorted), Ys(sorted)))
  }

  /** The energies come out ascending, each paired with its own scaled
      intensity: the output is a reordering of the transformed samples. */
  lemma EnergySortedPermutation(wavelength: seq<real>, intensity: seq<real>, hc: real)
    requires |wavelength| == |intensity|
    requires ConvertWavelengthToEnergy(wavelength, intensity, hc).Some?
    ensures var r := ConvertWavelengthToEnergy(wavelength, intensity, hc).value;
      && Ascending(r.0)
      && multiset(Zip(r.0, r.1)) == multiset(EnergySamples(wavelength, intensity, hc))
  {
    var r := ConvertWavelengthToEnergy(wavelength, intensity, hc).value;
    var z := Zip(r.0, r.1);
    forall i, j | 0 <= i < j < |r.0| ensures r.0[i] <= r.0[j] {
      assert z[i].x == r.0[i] && z[j].x == r.0[j];
    }
  }

  predicate StrictlyAscending(s: seq<real>)
  {
    forall i, j :: 0 <= i < j < |s| ==> s[i] < s[j]
  }

  function Reverse<T>(s: seq<T>): (r: seq<T>)
    ensures |r| == |s|
    ensures forall k :: 0 <= k < |s| ==> r[k] == s[|s| - 1 - k]
  {
    seq(|s|, k requires 0 <= k < |s| => s[|s| - 1 - k])
  }

  lemma ReciprocalAntitone(hc: real, a: real, b: real)
    requires hc > 0.0 && 0.0 < a < b
    ensures 0.0 < hc / b < hc / a
  {
    var x, y := hc / a, hc / b;
    assert x * a == hc && y * b == hc;
    assert y > 0.0;
  }

  lemma InsertLargest(p: Sample, t: seq<Sample>)
    requires SortedByX(t)
    requires forall k :: 0 <= k < |t| ==> t[k].x < p.x
    ensures InsertByX(p, t) == t + [p]
  {
    if |t| > 0 {
      InsertLargest(p, t[1..]);
    }
  }

  /** Sorting a sequence whose abscissae strictly decrease reverses it. */
  lemma {:induction false} SortReversesDescending(s: seq<Sample>)
    requires forall i, j :: 0 <= i < j < |s| ==> s[i].x > s[j].x
    ensures SortByX(s) == Reverse(s)
  {
    if |s| > 0 {
      var t := s[1..];
      SortReversesDescending(t);
      var rt := Reverse(t);
      forall k | 0 <= k < |rt| ensures rt[k].x < s[0].x {
        var i := |t| - 1 - k;
        assert rt[k] == t[i];
        assert t[i] == s[i + 1];
      }
      InsertLargest(s[0], rt);
      assert SortByX(s) == InsertByX(s[0], rt);
      ReverseCons(s);
    }
  }

  lemma ReverseCons<T>(s: seq<T>)
    requires |s| > 0
    ensures Reverse(s[1..]) + [s[0]] == Reverse(s)
  {
  }

  /** For strictly ascending positive wavelengths the sort is exactly the
      reversed index order: entry k of the result is the transform of sample
      n-1-k. */
  lemma EnergyOrderReversed(wavelength: seq<real>, intensity: seq<real>, hc: real)
    requires |wavelength| == |intensity| && hc > 0.0
    requires forall i :: 0 <= i < |wavelength| ==> wavelength[i] > 0.0
    requires StrictlyAscending(wavelength)
    ensures 0.0 !in wavelength
    ensures ConvertWavelengthToEnergy(wavelength, intensity, hc).Some?
    ensures var r := ConvertWavelengthToEnergy(wavelength, intensity, hc).value;
      Zip(r.0, r.1) == Reverse(EnergySamples(wavelength, intensity, hc))
  {
    var e := EnergySamples(wavelength, intensity, hc);
    forall i, j | 0 <= i < j < |e| ensures e[i].x > e[j].x {
      ReciprocalAntitone(hc, wavelength[i], wavelength[j]);
    }
    SortReversesDescending(e);
    var sorted := SortByX(e);
    assert Zip(Xs(sorted), Ys(sorted)) == sorted;
  }

  lemma SampleRoundTrip(hc: real, w: real, v: real, e: real, u: real)
    requires hc > 0.0 && w > 0.0
    requires e == hc / w && u == v * ((w * w) / hc)
    ensures hc / e == w
    ensures u * ((e * e) / hc) == v
  {
    assert w * e == hc;
    var j := (w * w) / hc;
    var k := (e * e) / hc;
    assert j * hc == w * w;
    assert k * hc == e * e;
    assert (j * k) * (hc * hc) == (w * e) * (w * e);
    assert (w * e) * (w * e) == hc * hc;
    assert j * k == 1.0;
    assert (v * j) * k == v;
  }

  /** The transform is its own inverse on samples with positive wavelength. */
  lemma TransformTwice(hc: real, s: Sample)
    requires hc > 0.0 && s.x > 0.0
    ensures Transform(hc, s).x > 0.0
    ensures Transform(hc, Transform(hc, s)) == s
  {
    var t := Transform(hc, s);
    ReciprocalAntitone(hc, s.x, s.x + 1.0);
    SampleRoundTrip(hc, s.x, s.y, t.x, t.y);
  }

  /** For strictly ascending positive wavelengths the energies are positive
      and strictly ascending as well. */
  lemma EnergiesAscending(wavelength: seq<real>, intensity: seq<real>, hc: real)
    requires |wavelength| == |intensity| && hc > 0.0
    requires forall i :: 0 <= i < |wavelength| ==> wavelength[i] > 0.0
    requires StrictlyAscending(wavelength)
    ensures ConvertWavelengthToEnergy(wavelength, intensity, hc).Some?
    ensures var r := ConvertWavelengthToEnergy(wavelength, intensity, hc).value;
      && (forall k :: 0 <= k < |r.0| ==> r.0[k] > 0.0)
      && StrictlyAscending(r.0)
  {
    EnergyOrderReversed(wavelength, intensity, hc);
    var n := |wavelength|;
    var e := EnergySamples(wavelength, intensity, hc);
    var r := ConvertWavelengthToEnergy(wavelength, intensity, hc).value;
    var z := Zip(r.0, r.1);
    forall k | 0 <= k < n ensures r.0[k] == hc / wavelength[n - 1 - k] {
      assert z[k] == e[n - 1 - k];
    }
    forall k | 0 <= k < n ensures r.0[k] > 0.0 {
      ReciprocalAntitone(hc, wavelength[n - 1 - k], wavelength[n - 1 - k] + 1.0);
    }
    forall i, j | 0 <= i < j < n ensures r.0[i] < r.0[j] {
      ReciprocalAntitone(hc, wavelength[n - 1 - j], wavelength[n - 1 - i]);
    }
  }

  lemma ZipInjective(a: seq<real>, b: seq<real>, c: seq<real>, d: seq<real>)
    requires |a| == |b| && |c| == |d|
    requires Zip(a, b) == Zip(c, d)
    ensures a == c && b == d
  {
    forall k | 0 <= k < |a| ensures a[k] == c[k] && b[k] == d[k] {
      assert Zip(a, b)[k] == Zip(c, d)[k];
    }
  }

  /** Transforming the reversed energy samples once more gives back the
      original samples in reverse order. */
  lemma TransformBack(wl: seq<real>, intensity: seq<real>, hc: real, en: seq<real>, scaled: seq<real>)
    requires |wl| == |intensity| && hc > 0.0
    requires forall i :: 0 <= i < |wl| ==> wl[i] > 0.0
    requires |en| == |scaled| && 0.0 !in en
    requires Zip(en, scaled) == Reverse(EnergySamples(wl, intensity, hc))
    ensures Reverse(EnergySamples(en, scaled, hc)) == Zip(wl, intensity)
  {
    var n := |wl|;
    var e := EnergySamples(wl, intensity, hc);
    var z := Zip(en, scaled);
    var e2 := EnergySamples(en, scaled, hc);
    forall k | 0 <= k < n ensures Reverse(e2)[k] == Zip(wl, intensity)[k] {
      var s := Sample(wl[k], intensity[k]);
      assert z[n - 1 - k] == e[k] == Transform(hc, s);
      assert e2[n - 1 - k] == Transform(hc, z[n - 1 - k]);
      TransformTwice(hc, s);
    }
  }

  /** Converting to energy and applying the same transform again recovers the
      original wavelengths and intensities, for strictly ascending positive
      wavelengths. */
  lemma EnergyRoundTrip(wavelength: seq<real>, intensity: seq<real>, hc: real)
    requires |wavelength| == |intensity| && hc > 0.0
    requires forall i :: 0 <= i < |wavelength| ==> wavelength[i] > 0.0
    requires StrictlyAscending(wavelength)
    ensures ConvertWavelengthToEnergy(wavelength, intensity, hc).Some?
    ensures var r := ConvertWavelengthToEnergy(wavelength, intensity, hc).value;
      ConvertWavelengthToEnergy(r.0, r.1, hc) == Some((wavelength, intensity))
  {
    EnergyOrderReversed(wavelength, intensity, hc);
    EnergiesAscending(wavelength, intensity, hc);
    var r := ConvertWavelengthToEnergy(wavelength, intensity, hc).value;
    EnergyOrderReversed(r.0, r.1, hc);
    TransformBack(wavelength, intensity, hc, r.0, r.1);
    var back := ConvertWavelengthToEnergy(r.0, r.1, hc).value;
    ZipInjective(back.0, back.1, wavelength, intensity);
  }
}
