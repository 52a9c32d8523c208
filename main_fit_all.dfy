/** The mass-fit script with the 'asymmetric' model: its configuration and
    what that configuration implies for the rows of the results table. */
module MainFitAll {
  import opened Numeric
  import opened Dicts
  import opened CalcUtils
  import opened FitUtils
  import opened Frames
  import opened Batch

  const FailureNames: seq<string> := ["amp", "cen", "fwhm_low", "fwhm_high"]

  /** INITIAL_PARAMS, written for an asymmetric model the fit code does not
      have. */
  function InitialParams(): (d: Dict<real>)
    ensures d.keys == FailureNames
  {
    var d := Entries(FailureNames, map["amp" := 100.0, "cen" := 1100.0, "fwhm_low" := 10.0, "fwhm_high" := 20.0]);
    assert d.Valid() by {
      assert d.at.Keys == {"amp", "cen", "fwhm_low", "fwhm_high"};
    }
    d
  }

  /** The window 800-1300 nm, the model string and INITIAL_PARAMS. */
  function Settings(): Config
  {
    Config("asymmetric", 800.0, 1300.0, Some(InitialParams()))
  }

  /** A failed pixel's row holds the four configured keys and chi_square, in
      that order, all NaN. */
  lemma FailureRowShape()
    ensures FailureRow(Settings()).keys == FailureNames + ["chi_square"]
    ensures forall k :: k in FailureRow(Settings()).at ==> FailureRow(Settings()).at[k] == NaN
  {
    assert "chi_square" !in FailureKeys(Settings());
  }

  /** 'asymmetric' is not 'single', so the double-Gaussian parameters are fitted;
      none of the configured names is one of them, so every override is
      ignored and each parameter starts from its default guess, bounded
      below by 0. */
  lemma OverridesIgnored(x: seq<real>, y: seq<real>)
    requires |x| == |y| > 0
    ensures var r := Request(x, y, Settings().model, Some(Settings().lo), Some(Settings().hi), Settings().initialParams);
      && r.kind == Double
      && r.params.keys == DoubleNames
      && forall name :: name in r.params.at ==>
           r.params.at[name] == Param(DefaultParams(Double, x, y).at[name].value, Some(0.0))
  {
    var cfg := Settings();
    RequestParams(x, y, cfg.model, Some(cfg.lo), Some(cfg.hi), cfg.initialParams);
    assert KindOf(cfg.model) == Double;
    var r := Request(x, y, cfg.model, Some(cfg.lo), Some(cfg.hi), cfg.initialParams);
    NoSharedNames();
    assert forall name :: name in r.params.at ==> name in DoubleNames;
  }

  /** None of the configured names is a double-Gaussian parameter. */
  lemma NoSharedNames()
    ensures forall name :: name in InitialParams().at ==> name !in DoubleNames
  {
    var d := InitialParams();
    forall name | name in d.at ensures name !in DoubleNames {
      assert name in FailureNames;
    }
  }

  /** Successful rows carry the double-Gaussian names, failed rows the four
      configured names: the two kinds of rows share only chi_square. The fit
      is assumed to report the parameters it was given. */
  lemma MixedRowKeys(d: Dataset, fit: FitRequest -> Option<ModelResult>, j: nat)
    requires d.Valid() && j < d.Pixels()
    requires var cfg := Settings();
      PixelFit(d, cfg, fit, j).Some? ==>
        PixelFit(d, cfg, fit, j).value.params.keys
        == Request(d.Wavelengths(), d.Intensity(j), cfg.model, Some(cfg.lo), Some(cfg.hi), cfg.initialParams).params.keys
    ensures PixelFit(d, Settings(), fit, j).Some? ==> PixelRow(d, Settings(), fit, j).keys == DoubleNames + ["chi_square"]
    ensures PixelFit(d, Settings(), fit, j).None? ==> PixelRow(d, Settings(), fit, j).keys == FailureNames + ["chi_square"]
  {
    var cfg := Settings();
    if PixelFit(d, cfg, fit, j).Some? {
      OverridesIgnored(d.Wavelengths(), d.Intensity(j));
      ChiSquareIsNoParameter(Double);
    } else {
      FailureRowShape();
    }
  }

  /** When every pixel fails, the fit columns are the four configured names
      and chi_square. */
  lemma AllFailedTableColumns(d: Dataset, fit: FitRequest -> Option<ModelResult>)
    requires d.Valid() && d.Pixels() > 0
    requires forall j :: 0 <= j < d.Pixels() ==> PixelFit(d, Settings(), fit, j).None?
    ensures ColumnsOf(PixelRows(d, Settings(), fit)) == FailureNames + ["chi_square"]
  {
    AllFailedColumns(d, Settings(), fit);
    FailureRowShape();
  }
}
