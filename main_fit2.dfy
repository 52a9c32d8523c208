/** The mass-fit script with the single-Gaussian model and no initial
    parameters: its configuration and what it implies for the table. */
module MainFit2 {
  import opened Numeric
  import opened Dicts
  import opened CalcUtils
  import opened FitUtils
  import opened Frames
  import opened Batch

  /** The window 450-650 nm, the model 'single' and INITIAL_PARAMS = None. */
  function Settings(): Config
  {
    Config("single", 450.0, 650.0, None)
  }

  /** With no configured keys a failed pixel's row is chi_square = NaN alone. */
  lemma FailureRowShape()
    ensures FailureRow(Settings()).keys == ["chi_square"]
    ensures FailureRow(Settings()).at["chi_square"] == NaN
  {
  }

  /** The fit always starts from the default guesses, bounded below by 0. */
  lemma DefaultsUsed(x: seq<real>, y: seq<real>)
    requires |x| == |y| > 0
    ensures var r := Request(x, y, Settings().model, Some(Settings().lo), Some(Settings().hi), Settings().initialParams);
      && r.kind == Single
      && r.params == LowerAllAtZero(DefaultParams(Single, x, y))
  {
    OverridesSpec(DefaultParams(Single, x, y), None);
  }

  /** Successful rows carry amplitude, center, sigma and chi_square; the fit
      is assumed to report the parameters it was given. */
  lemma FittedRowKeys(d: Dataset, fit: FitRequest -> Option<ModelResult>, j: nat)
    requires d.Valid() && j < d.Pixels()
    requires var cfg := Settings();
      PixelFit(d, cfg, fit, j).Some? ==>
        PixelFit(d, cfg, fit, j).value.params.keys
        == Request(d.Wavelengths(), d.Intensity(j), cfg.model, Some(cfg.lo), Some(cfg.hi), cfg.initialParams).params.keys
    ensures PixelFit(d, Settings(), fit, j).Some? ==> PixelRow(d, Settings(), fit, j).keys == SingleNames + ["chi_square"]
  {
    var cfg := Settings();
    if PixelFit(d, cfg, fit, j).Some? {
      DefaultsUsed(d.Wavelengths(), d.Intensity(j));
      ChiSquareIsNoParameter(Single);
    }
  }

  /** When every pixel fails, a completed run's table has exactly the columns
      chi_square, Integrated Intensity, Weighted Mean and FWHM. */
  lemma AllFailedTableColumns(d: Dataset, fit: FitRequest -> Option<ModelResult>,
                              exportMap: (string, seq<seq<Float>>) -> bool, sqrt: real -> real)
    requires d.Valid() && d.Pixels() > 0
    requires forall j :: 0 <= j < d.Pixels() ==> PixelFit(d, Settings(), fit, j).None?
    ensures var out := RunSpec(d, Settings(), fit, exportMap, sqrt);
      out.Completed? ==> out.table.columns == ["chi_square"] + MetricNames
  {
    var rows := PixelRows(d, Settings(), fit);
    AllFailedColumns(d, Settings(), fit);
    FailureRowShape();
    assert ColumnsOf(rows) == ["chi_square"];
    ChiSquareIsNoMetric();
    assert MetricsNew(rows);
    RunShape(d, Settings(), fit, exportMap, sqrt);
  }
}
