/** The per-pixel batch of the mass-fit scripts: fit every pixel column with
    failure isolation, assemble the results table with the three intensity
    metrics, and record NaN-ignoring moments for every column whose square
    map can be built and exported. The minimiser, the map export and the
    square root are oracles. */
module Batch {
  import opened Numeric
  import opened Arrays
  import opened Dicts
  import opened CalcUtils
  import opened FitUtils
  import opened Frames

  /** A script's user configuration: the model string, the wavelength window
      (used both for the metrics and as the fit window) and INITIAL_PARAMS. */
  datatype Config = Config(model: string, lo: real, hi: real, initialParams: Option<Dict<real>>)

  // ---------------------------------------------------------------------
  // The rows

  /** The keys of a failed row: the configured names when the initial dict
      is present and non-empty, otherwise none. */
  function FailureKeys(cfg: Config): (keys: seq<string>)
    ensures Distinct(keys)
    ensures |keys| > 0 <==> Truthy(cfg.initialParams)
  {
    if Truthy(cfg.initialParams) then cfg.initialParams.value.keys else []
  }

  /** The row of a pixel whose fit raised: every configured key and
      chi_square, all NaN. */
  function FailureRow(cfg: Config): (row: Dict<Float>)
    ensures forall k :: k in row.at <==> k in FailureKeys(cfg) || k == "chi_square"
    ensures forall k :: k in row.at ==> row.at[k] == NaN
    ensures row.keys == FailureKeys(cfg) + if "chi_square" in FailureKeys(cfg) then [] else ["chi_square"]
  {
    Put(FromKeys(FailureKeys(cfg), NaN), "chi_square", NaN)
  }

  /** The fit of pixel j: its full spectrum against the full wavelength
      column, windowed to the configured range. */
  function PixelFit(d: Dataset, cfg: Config, fit: FitRequest -> Option<ModelResult>, j: nat): Option<ModelResult>
    requires d.Valid() && j < d.Pixels()
  {
    FitSpec(d.Wavelengths(), d.Intensity(j), cfg.model, Some(cfg.lo), Some(cfg.hi), cfg.initialParams, fit)
  }

  /** The row appended for pixel j. */
  function PixelRow(d: Dataset, cfg: Config, fit: FitRequest -> Option<ModelResult>, j: nat): Dict<Float>
    requires d.Valid() && j < d.Pixels()
  {
    match PixelFit(d, cfg, fit, j)
    case None => FailureRow(cfg)
    case Some(res) => ExtractSpec(res)
  }

  function PixelRows(d: Dataset, cfg: Config, fit: FitRequest -> Option<ModelResult>): (rows: seq<Dict<Float>>)
    requires d.Valid()
    ensures |rows| == d.Pixels()
    ensures forall j :: 0 <= j < d.Pixels() ==> rows[j] == PixelRow(d, cfg, fit, j)
  {
    seq(d.Pixels(), j requires 0 <= j < d.Pixels() => PixelRow(d, cfg, fit, j))
  }

  /** A pixel whose fit fails gets the NaN row and no other. */
  lemma FailedPixelRow(d: Dataset, cfg: Config, fit: FitRequest -> Option<ModelResult>, j: nat)
    requires d.Valid() && j < d.Pixels()
    requires PixelFit(d, cfg, fit, j).None?
    ensures forall k :: k in PixelRow(d, cfg, fit, j).at ==> PixelRow(d, cfg, fit, j).at[k] == NaN
    ensures "chi_square" in PixelRow(d, cfg, fit, j).at
    ensures forall k :: k in PixelRow(d, cfg, fit, j).at <==> k in FailureKeys(cfg) || k == "chi_square"
  {
  }

  /** A pixel whose fit succeeds gets every fitted value and chi-square. */
  lemma FittedPixelRow(d: Dataset, cfg: Config, fit: FitRequest -> Option<ModelResult>, j: nat)
    requires d.Valid() && j < d.Pixels()
    requires PixelFit(d, cfg, fit, j).Some?
    ensures var res := PixelFit(d, cfg, fit, j).value;
      var row := PixelRow(d, cfg, fit, j);
      && row.at["chi_square"] == Num(res.chisqr)
      && forall k :: k in res.params.at && k != "chi_square" ==> row.at[k] == Num(res.params.at[k])
  {
  }

  /** One iteration of the fit loop: the fitted row, or the NaN row when
      fitting raised. */
  method FitPixel(d: Dataset, cfg: Config, fit: FitRequest -> Option<ModelResult>, i: nat)
    returns (params: Dict<Float>)
    requires d.Valid() && i < d.Pixels()
    ensures params == PixelRow(d, cfg, fit, i)
  {
    var y := d.Intensity(i);
    var res := FitModel(d.Wavelengths(), y, cfg.model, Some(cfg.lo), Some(cfg.hi), cfg.initialParams, fit);
    if res.Some? {
      params := ExtractFitResults(res.value, cfg.model);
    } else {
      var keys := if Truthy(cfg.initialParams) then cfg.initialParams.value.keys else [];
      params := FromKeys(keys, NaN);
      params := Put(params, "chi_square", NaN);
    }
  }

  /** The fit loop: one row per pixel, in pixel order; a failing fit gives
      that pixel the NaN row and the loop goes on. */
  method FitAllPixels(d: Dataset, cfg: Config, fit: FitRequest -> Option<ModelResult>)
    returns (rows: seq<Dict<Float>>)
    requires d.Valid()
    ensures rows == PixelRows(d, cfg, fit)
  {
    rows := [];
    for i := 0 to d.Pixels()
      invariant rows == PixelRows(d, cfg, fit)[..i]
    {
      var params := FitPixel(d, cfg, fit, i);
      TakeSnoc(PixelRows(d, cfg, fit), i + 1);
      rows := rows + [params];
    }
    assert PixelRows(d, cfg, fit)[..d.Pixels()] == PixelRows(d, cfg, fit);
  }

  // ---------------------------------------------------------------------
  // The table

  const MetricNames: seq<string> := ["Integrated Intensity", "Weighted Mean", "FWHM"]

  lemma ChiSquareIsNoMetric()
    ensures "chi_square" !in MetricNames
  {
    forall k | k in MetricNames ensures k != "chi_square" {
      assert |k| != 10;
    }
  }

  /** No row already has a metric's name as a key. */
  predicate MetricsNew(rows: seq<Dict<Float>>)
  {
    forall k :: k in MetricNames ==> k !in ColumnsOf(rows)
  }

  /** Assigns the three metric columns, in order. */
  function AddMetrics(f: Frame, ii: seq<real>, wm: seq<Float>, fwhm: seq<real>): (t: Frame)
    requires f.Valid() && |ii| == f.height && |wm| == f.height && |fwhm| == f.height
    ensures t.Valid() && t.height == f.height
    ensures (forall k :: k in MetricNames ==> k !in f.cells) ==> t.columns == f.columns + MetricNames
    ensures t.cells == f.cells["Integrated Intensity" := Nums(ii)]["Weighted Mean" := wm]["FWHM" := Nums(fwhm)]
  {
    var f1 := SetColumn(f, "Integrated Intensity", Nums(ii));
    var f2 := SetColumn(f1, "Weighted Mean", wm);
    var f3 := SetColumn(f2, "FWHM", Nums(fwhm));
    assert (forall k :: k in MetricNames ==> k !in f.cells) ==> f3.columns == f.columns + MetricNames by {
      if forall k :: k in MetricNames ==> k !in f.cells {
        assert "Weighted Mean" !in f1.cells;
        assert "FWHM" !in f2.cells;
        AppendThree(f.columns, "Integrated Intensity", "Weighted Mean", "FWHM");
      }
    }
    f3
  }

  lemma AppendThree<T>(s: seq<T>, a: T, b: T, c: T)
    ensures s + [a] + [b] + [c] == s + [a, b, c]
  {
  }

  /** The table built from the pixel rows, followed by the three metric columns. */
  function AssembleTable(rows: seq<Dict<Float>>, ii: seq<real>, wm: seq<Float>, fwhm: seq<real>): (t: Frame)
    requires |ii| == |rows| && |wm| == |rows| && |fwhm| == |rows|
    ensures t.Valid() && t.height == |rows|
    ensures MetricsNew(rows) ==> t.columns == ColumnsOf(rows) + MetricNames
    ensures "Integrated Intensity" in t.cells && t.cells["Integrated Intensity"] == Nums(ii)
    ensures "Weighted Mean" in t.cells && t.cells["Weighted Mean"] == wm
    ensures "FWHM" in t.cells && t.cells["FWHM"] == Nums(fwhm)
  {
    AddMetrics(FromRecords(rows), ii, wm, fwhm)
  }

  /** A fit column other than a metric name holds, for every pixel, that
      pixel's value or NaN when its row lacks the key. */
  lemma AssembledFitColumns(rows: seq<Dict<Float>>, ii: seq<real>, wm: seq<Float>, fwhm: seq<real>, c: string)
    requires |ii| == |rows| && |wm| == |rows| && |fwhm| == |rows|
    requires c in ColumnsOf(rows) && c !in MetricNames
    ensures var t := AssembleTable(rows, ii, wm, fwhm);
      c in t.cells && t.cells[c] == ColumnOf(rows, c)
  {
    var f0 := FromRecords(rows);
    assert c in f0.cells;
    assert AddMetrics(f0, ii, wm, fwhm).cells[c] == f0.cells[c];
  }

  /** The FWHM column `calculate_fwhm` returns when it does not raise. */
  function FwhmColumn(d: Dataset, lo: real, hi: real): (r: seq<real>)
    requires d.Valid() && (d.Pixels() == 0 || |WindowWavelengths(d, lo, hi)| > 0)
    ensures |r| == d.Pixels()
  {
    seq(d.Pixels(), j requires 0 <= j < d.Pixels() =>
      PixelFwhm(WindowWavelengths(d, lo, hi), WindowIntensity(d, lo, hi, j)))
  }

  // ---------------------------------------------------------------------
  // Moments

  /** A column's moments are recorded when its values reshape to a square and
      the export of that map succeeds. */
  predicate Recorded(column: string, values: seq<Float>, exportMap: (string, seq<seq<Float>>) -> bool)
  {
    ToSquare(values).Some? && exportMap(column, ToSquare(values).value)
  }

  /** One turn of the moments loop for column c. */
  function MomentsStep(prev: Dict<Moments>, c: string, values: seq<Float>,
                       exportMap: (string, seq<seq<Float>>) -> bool, sqrt: real -> real): (r: Dict<Moments>)
    ensures r.at == if Recorded(c, values, exportMap) then prev.at[c := NanMoments(values, sqrt)] else prev.at
  {
    if Recorded(c, values, exportMap) then Put(prev, c, NanMoments(values, sqrt)) else prev
  }

  /** The moments dict after the first n columns. */
  function MomentsAfter(t: Frame, exportMap: (string, seq<seq<Float>>) -> bool, sqrt: real -> real, n: nat)
    : Dict<Moments>
    requires t.Valid() && n <= |t.columns|
  {
    if n == 0 then EmptyDict()
    else
      var c := t.columns[n - 1];
      MomentsStep(MomentsAfter(t, exportMap, sqrt, n - 1), c, t.cells[c], exportMap, sqrt)
  }

  function MomentsOf(t: Frame, exportMap: (string, seq<seq<Float>>) -> bool, sqrt: real -> real): Dict<Moments>
    requires t.Valid()
  {
    MomentsAfter(t, exportMap, sqrt, |t.columns|)
  }

  /** A column has an entry exactly when it was reshaped and exported, and the
      entry is the NaN-ignoring mean and standard deviation of the column. */
  lemma {:induction false} MomentsAfterSpec(t: Frame, exportMap: (string, seq<seq<Float>>) -> bool,
                                            sqrt: real -> real, n: nat, c: string)
    requires t.Valid() && n <= |t.columns|
    ensures c in MomentsAfter(t, exportMap, sqrt, n).at <==> c in t.columns[..n] && Recorded(c, t.cells[c], exportMap)
    ensures c in MomentsAfter(t, exportMap, sqrt, n).at ==> MomentsAfter(t, exportMap, sqrt, n).at[c] == NanMoments(t.cells[c], sqrt)
  {
    if n > 0 {
      var last := t.columns[n - 1];
      var prev := MomentsAfter(t, exportMap, sqrt, n - 1);
      MomentsAfterSpec(t, exportMap, sqrt, n - 1, c);
      TakeSnoc(t.columns, n);
      assert MomentsAfter(t, exportMap, sqrt, n).at
          == if Recorded(last, t.cells[last], exportMap) then prev.at[last := NanMoments(t.cells[last], sqrt)] else prev.at;
      if c == last {
        DistinctNotBefore(t.columns, n - 1);
      } else {
        assert c in t.columns[..n] <==> c in t.columns[..n - 1];
      }
    }
  }

  lemma MomentsSpec(t: Frame, exportMap: (string, seq<seq<Float>>) -> bool, sqrt: real -> real)
    requires t.Valid()
    ensures forall c :: c in MomentsOf(t, exportMap, sqrt).at <==> c in t.cells && Recorded(c, t.cells[c], exportMap)
    ensures forall c :: c in MomentsOf(t, exportMap, sqrt).at ==> MomentsOf(t, exportMap, sqrt).at[c] == NanMoments(t.cells[c], sqrt)
  {
    forall c
      ensures c in MomentsOf(t, exportMap, sqrt).at <==> c in t.cells && Recorded(c, t.cells[c], exportMap)
      ensures c in MomentsOf(t, exportMap, sqrt).at ==> MomentsOf(t, exportMap, sqrt).at[c] == NanMoments(t.cells[c], sqrt)
    {
      MomentsAfterSpec(t, exportMap, sqrt, |t.columns|, c);
      assert t.columns[..|t.columns|] == t.columns;
    }
  }

  /** All columns have the table's height, so the square check gives one
      verdict for every column: on a non-square pixel count nothing is
      recorded at all. */
  lemma NonSquareRecordsNothing(t: Frame, exportMap: (string, seq<seq<Float>>) -> bool, sqrt: real -> real)
    requires t.Valid() && !IsSquareOf(ISqrt(t.height), t.height)
    ensures MomentsOf(t, exportMap, sqrt).at == map[]
  {
    MomentsSpec(t, exportMap, sqrt);
    forall c | c in t.cells ensures !Recorded(c, t.cells[c], exportMap) {
      assert |t.cells[c]| == t.height;
    }
  }

  /** The moments loop: a column that cannot be reshaped or exported is
      skipped; every other one gets its moments. */
  method CollectMoments(t: Frame, exportMap: (string, seq<seq<Float>>) -> bool, sqrt: real -> real)
    returns (moments: Dict<Moments>)
    requires t.Valid()
    ensures moments == MomentsOf(t, exportMap, sqrt)
  {
    moments := EmptyDict();
    for n := 0 to |t.columns|
      invariant moments == MomentsAfter(t, exportMap, sqrt, n)
    {
      var column := t.columns[n];
      var values := t.cells[column];
      var paramMap := ToSquare(values);
      if paramMap.None? {
        continue;
      }
      var exported := exportMap(column, paramMap.value);
      if !exported {
        continue;
      }
      var mean := NanMean(values);
      var std := NanStd(values, sqrt);
      moments := Put(moments, column, Moments(mean, std));
    }
    assert t.columns[..|t.columns|] == t.columns;
  }

  // ---------------------------------------------------------------------
  // A whole run

  /** A completed run's table and moments, or an abort: `calculate_fwhm`
      raises before any fit when there is a pixel and no wavelength in the
      window. */
  datatype Outcome = Completed(table: Frame, moments: Dict<Moments>) | Aborted

  function RunSpec(d: Dataset, cfg: Config, fit: FitRequest -> Option<ModelResult>,
                   exportMap: (string, seq<seq<Float>>) -> bool, sqrt: real -> real): Outcome
    requires d.Valid()
  {
    if d.Pixels() > 0 && |WindowWavelengths(d, cfg.lo, cfg.hi)| == 0 then Aborted
    else
      var t := AssembleTable(PixelRows(d, cfg, fit), IntegratedIntensity(d, cfg.lo, cfg.hi),
                             WeightedMean(d, cfg.lo, cfg.hi), FwhmColumn(d, cfg.lo, cfg.hi));
      Completed(t, MomentsOf(t, exportMap, sqrt))
  }

  /** The script body after loading: metrics, fit loop, table, moments. */
  method Run(d: Dataset, cfg: Config, fit: FitRequest -> Option<ModelResult>,
             exportMap: (string, seq<seq<Float>>) -> bool, sqrt: real -> real) returns (out: Outcome)
    requires d.Valid()
    ensures out == RunSpec(d, cfg, fit, exportMap, sqrt)
  {
    var ii := IntegratedIntensity(d, cfg.lo, cfg.hi);
    var wm := WeightedMean(d, cfg.lo, cfg.hi);
    var fwhmArr := Fwhm(d, cfg.lo, cfg.hi);
    if fwhmArr.None? {
      return Aborted;
    }
    assert fwhmArr.value == FwhmColumn(d, cfg.lo, cfg.hi);
    var rows := FitAllPixels(d, cfg, fit);
    var df := AssembleTable(rows, ii, wm, fwhmArr.value);
    var moments := CollectMoments(df, exportMap, sqrt);
    return Completed(df, moments);
  }

  /** A completed run has one row per pixel; when no fit row carries a metric
      name, the columns are the fit columns followed by the three metrics. */
  lemma RunShape(d: Dataset, cfg: Config, fit: FitRequest -> Option<ModelResult>,
                 exportMap: (string, seq<seq<Float>>) -> bool, sqrt: real -> real)
    requires d.Valid()
    ensures var out := RunSpec(d, cfg, fit, exportMap, sqrt);
      out.Completed? ==>
        && out.table.height == d.Pixels()
        && (MetricsNew(PixelRows(d, cfg, fit)) ==> out.table.columns == ColumnsOf(PixelRows(d, cfg, fit)) + MetricNames)
        && forall c :: c in out.table.cells ==> |out.table.cells[c]| == d.Pixels()
  {
  }

  /** When every fit fails, the table's columns are the configured keys, then
      chi_square (unless configured), then the three metrics. */
  lemma AllFailedColumns(d: Dataset, cfg: Config, fit: FitRequest -> Option<ModelResult>)
    requires d.Valid() && d.Pixels() > 0
    requires forall j :: 0 <= j < d.Pixels() ==> PixelFit(d, cfg, fit, j).None?
    ensures ColumnsOf(PixelRows(d, cfg, fit)) == FailureRow(cfg).keys
  {
    ColumnsOfUniform(PixelRows(d, cfg, fit), FailureRow(cfg).keys);
  }
}
