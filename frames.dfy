/** The pandas side of the batch scripts: a table built from a list of row
    dicts, a column assignment, and the NaN-ignoring mean and standard
    deviation of a column. */
module Frames {
  import opened Numeric
  import opened Arrays
  import opened Dicts

  // ---------------------------------------------------------------------
  // Column order of a table built from records

  /** Appends, in order, every key not yet listed. */
  function AddNew(cols: seq<string>, keys: seq<string>): (r: seq<string>)
    ensures |cols| <= |r| && r[..|cols|] == cols
    ensures Distinct(cols) ==> Distinct(r)
    ensures forall k :: k in r <==> k in cols || k in keys
    decreases |keys|
  {
    if |keys| == 0 then cols
    else
      var next := if keys[0] in cols then cols else cols + [keys[0]];
      assert Distinct(cols) ==> Distinct(next) by {
        if Distinct(cols) && keys[0] !in cols {
          forall i, j | 0 <= i < j < |next| ensures next[i] != next[j] {
            if j == |cols| { assert next[i] in cols; }
          }
        }
      }
      var r := AddNew(next, keys[1..]);
      assert r[..|cols|] == r[..|next|][..|cols|];
      assert forall k :: k in keys <==> k == keys[0] || k in keys[1..];
      r
  }

  /** `pd.DataFrame(records).columns`: the union of the row keys in order of
      first appearance. */
  function ColumnsOf(rows: seq<Dict<Float>>): (r: seq<string>)
    ensures Distinct(r)
    ensures |rows| > 0 ==> |rows[0].keys| <= |r| && r[..|rows[0].keys|] == rows[0].keys
  {
    if |rows| == 0 then []
    else
      var prev := ColumnsOf(rows[..|rows| - 1]);
      if |rows| == 1 then
        AddNewAllPresent(prev, rows[0].keys);
        AddNew(prev, rows[0].keys)
      else
        assert rows[..|rows| - 1][0] == rows[0];
        AddNew(prev, rows[|rows| - 1].keys)
  }

  predicate InSomeRow(rows: seq<Dict<Float>>, k: string)
  {
    exists i :: 0 <= i < |rows| && k in rows[i].at
  }

  /** A name is a column exactly when some row has it as a key. */
  lemma {:induction false} ColumnsOfExactly(rows: seq<Dict<Float>>, k: string)
    ensures k in ColumnsOf(rows) <==> InSomeRow(rows, k)
  {
    if |rows| > 0 {
      var init := rows[..|rows| - 1];
      ColumnsOfExactly(init, k);
      var last := rows[|rows| - 1];
      assert k in last.keys <==> k in last.at;
      if InSomeRow(rows, k) && !(k in last.at) {
        var i :| 0 <= i < |rows| && k in rows[i].at;
        assert init[i] == rows[i];
      }
      if InSomeRow(init, k) {
        var i :| 0 <= i < |init| && k in init[i].at;
        assert rows[i] == init[i];
      }
    }
  }

  /** When every row has the same keys, they are the columns, in order. */
  lemma {:induction false} ColumnsOfUniform(rows: seq<Dict<Float>>, keys: seq<string>)
    requires |rows| > 0
    requires forall i :: 0 <= i < |rows| ==> rows[i].keys == keys
    ensures ColumnsOf(rows) == keys
  {
    assert Distinct(keys) by { assert rows[0].keys == keys; }
    var init := rows[..|rows| - 1];
    if |init| == 0 {
      AddNewAllPresent([], keys);
    } else {
      ColumnsOfUniform(init, keys);
      AddNewAllPresent(keys, keys);
    }
  }

  lemma {:induction false} AddNewAllPresent(cols: seq<string>, keys: seq<string>)
    requires Distinct(keys)
    requires cols == [] || cols == keys
    ensures AddNew(cols, keys) == keys
  {
    AddNewPrefix(keys, 0);
    if cols == keys {
      AddNewSelf(keys, keys);
    }
  }

  /** Adding keys that are already all listed changes nothing. */
  lemma {:induction false} AddNewSelf(cols: seq<string>, keys: seq<string>)
    requires forall k :: k in keys ==> k in cols
    ensures AddNew(cols, keys) == cols
    decreases |keys|
  {
    if |keys| > 0 {
      AddNewSelf(cols, keys[1..]);
    }
  }

  /** Starting from the first n distinct keys, the rest are appended in order. */
  lemma {:induction false} AddNewPrefix(keys: seq<string>, n: nat)
    requires Distinct(keys) && n <= |keys|
    ensures AddNew(keys[..n], keys[n..]) == keys
    decreases |keys| - n
  {
    if n == |keys| {
      assert keys[..n] == keys;
    } else {
      assert keys[n..][0] == keys[n];
      assert keys[n..][1..] == keys[n + 1..];
      assert keys[n] !in keys[..n];
      assert keys[..n] + [keys[n]] == keys[..n + 1];
      AddNewPrefix(keys, n + 1);
    }
  }

  // ---------------------------------------------------------------------
  // Tables

  /** A table of doubles: the column names in order and one column of
      `height` values per name. */
  datatype Frame = Frame(columns: seq<string>, cells: map<string, seq<Float>>, height: nat)
  {
    predicate Valid()
    {
      && Distinct(columns)
      && cells.Keys == (set c | c in columns)
      && forall c :: c in cells ==> |cells[c]| == height
    }
  }

  /** A row's value for a column; a key the row lacks reads as NaN. */
  function Cell(row: Dict<Float>, c: string): Float
  {
    if c in row.at then row.at[c] else NaN
  }

  /** A table built from a list of records, as pandas builds it from a list
      of dicts. */
  function FromRecords(rows: seq<Dict<Float>>): (f: Frame)
    ensures f.Valid()
    ensures f.columns == ColumnsOf(rows) && f.height == |rows|
    ensures forall c :: c in f.cells ==> f.cells[c] == ColumnOf(rows, c)
  {
    var cols := ColumnsOf(rows);
    Frame(cols, map c | c in cols :: ColumnOf(rows, c), |rows|)
  }

  /** Column c of the records: each row's value, NaN where the row lacks c. */
  function ColumnOf(rows: seq<Dict<Float>>, c: string): (col: seq<Float>)
    ensures |col| == |rows|
    ensures forall i :: 0 <= i < |rows| ==> col[i] == Cell(rows[i], c)
  {
    seq(|rows|, i requires 0 <= i < |rows| => Cell(rows[i], c))
  }

  /** Column assignment: an existing column is replaced in place, a new one
      goes to the end. */
  function SetColumn(f: Frame, name: string, values: seq<Float>): (r: Frame)
    requires f.Valid() && |values| == f.height
    ensures r.Valid() && r.height == f.height
    ensures r.cells == f.cells[name := values]
    ensures r.columns == if name in f.cells then f.columns else f.columns + [name]
  {
    if name in f.cells then
      Frame(f.columns, f.cells[name := values], f.height)
    else
      var cols := f.columns + [name];
      assert Distinct(cols) by {
        forall i, j | 0 <= i < j < |cols| ensures cols[i] != cols[j] {
          if j == |f.columns| { assert cols[i] in f.cells; }
        }
      }
      Frame(cols, f.cells[name := values], f.height)
  }

  // ---------------------------------------------------------------------
  // NaN-ignoring moments

  datatype Moments = Moments(mean: Float, std: Float)

  /** The entries that are not NaN, in order. */
  function NonNaN(s: seq<Float>): (r: seq<Float>)
    ensures |r| <= |s|
    ensures forall i :: 0 <= i < |r| ==> !r[i].NaN?
  {
    if |s| == 0 then []
    else (if s[0].NaN? then [] else [s[0]]) + NonNaN(s[1..])
  }

  lemma {:induction false} NonNaNAppend(a: seq<Float>, b: seq<Float>)
    ensures NonNaN(a + b) == NonNaN(a) + NonNaN(b)
  {
    if |a| > 0 {
      assert (a + b)[1..] == a[1..] + b;
      NonNaNAppend(a[1..], b);
    } else {
      assert a + b == b;
    }
  }

  predicate AllFinite(s: seq<Float>)
  {
    forall i :: 0 <= i < |s| ==> s[i].Num?
  }

  function Reals(s: seq<Float>): (r: seq<real>)
    requires AllFinite(s)
    ensures |r| == |s| && forall i :: 0 <= i < |s| ==> r[i] == s[i].value
  {
    seq(|s|, i requires 0 <= i < |s| => s[i].value)
  }

  /** Left-to-right double sum. */
  function SumFloats(s: seq<Float>): (r: Float)
    ensures r.Num? <==> AllFinite(s)
  {
    if |s| == 0 then Num(0.0) else Plus(SumFloats(s[..|s| - 1]), s[|s| - 1])
  }

  function Mean(r: seq<real>): real
    requires |r| > 0
  {
    Sum(r) / |r| as real
  }

  function SquaredDeviations(r: seq<real>, m: real): (d: seq<real>)
    ensures |d| == |r|
    ensures forall i :: 0 <= i < |r| ==> d[i] == (r[i] - m) * (r[i] - m)
  {
    seq(|r|, i requires 0 <= i < |r| => (r[i] - m) * (r[i] - m))
  }

  /** Population variance (numpy's default ddof = 0). */
  function Variance(r: seq<real>): real
    requires |r| > 0
  {
    Sum(SquaredDeviations(r, Mean(r))) / |r| as real
  }

  /** `np.nanmean`: NaN when nothing is left; with an infinity among the
      values the sum is infinite (or NaN for opposite infinities). */
  function NanMean(values: seq<Float>): (r: Float)
    ensures |NonNaN(values)| == 0 ==> r.NaN?
    ensures r.Num? <==> |NonNaN(values)| > 0 && AllFinite(NonNaN(values))
    ensures r.Num? ==> r.value == Mean(Reals(NonNaN(values)))
    ensures r.Num? ==> Min(Reals(NonNaN(values))) <= r.value <= Max(Reals(NonNaN(values)))
  {
    var v := NonNaN(values);
    if |v| == 0 then NaN
    else if AllFinite(v) then
      MeanWithinRange(Reals(v));
      Num(Mean(Reals(v)))
    else SumFloats(v)
  }

  /** `np.nanstd`; an infinity makes the deviations undefined. */
  function NanStd(values: seq<Float>, sqrt: real -> real): (r: Float)
    ensures r.Num? <==> |NonNaN(values)| > 0 && AllFinite(NonNaN(values))
    ensures r.Num? ==> Variance(Reals(NonNaN(values))) >= 0.0 && r.value == sqrt(Variance(Reals(NonNaN(values))))
  {
    var v := NonNaN(values);
    if |v| == 0 || !AllFinite(v) then NaN
    else
      VarianceNonNegative(Reals(v));
      Num(sqrt(Variance(Reals(v))))
  }

  function NanMoments(values: seq<Float>, sqrt: real -> real): Moments
  {
    Moments(NanMean(values), NanStd(values, sqrt))
  }

  /** A NaN anywhere among the values changes neither moment. */
  lemma NanMomentsIgnoreNaN(a: seq<Float>, b: seq<Float>, sqrt: real -> real)
    ensures NanMoments(a + [NaN] + b, sqrt) == NanMoments(a + b, sqrt)
  {
    NonNaNAppend(a + [NaN], b);
    NonNaNAppend(a, [NaN]);
    assert [NaN][1..] == [];
    assert NonNaN([NaN]) == [];
    NonNaNAppend(a, b);
    assert NonNaN(a + [NaN] + b) == NonNaN(a + b);
  }

  lemma {:induction false} SumConstant(c: real, n: nat)
    ensures Sum(Constant(c, n)) == c * n as real
  {
    if n > 0 {
      assert Constant(c, n)[1..] == Constant(c, n - 1);
      SumConstant(c, n - 1);
    }
  }

  /** The mean of values between lo and hi lies between lo and hi. */
  lemma MeanBetween(r: seq<real>, lo: real, hi: real)
    requires |r| > 0
    requires forall i :: 0 <= i < |r| ==> lo <= r[i] <= hi
    ensures lo <= Mean(r) <= hi
  {
    var n := |r|;
    SumMono(Constant(lo, n), r);
    SumMono(r, Constant(hi, n));
    SumConstant(lo, n);
    SumConstant(hi, n);
    assert lo * n as real <= Sum(r) <= hi * n as real;
    QuotientBounds(Sum(r), n as real, lo, hi);
  }

  /** The mean of finite values lies between their minimum and maximum. */
  lemma MeanWithinRange(r: seq<real>)
    requires |r| > 0
    ensures Min(r) <= Mean(r) <= Max(r)
  {
    MeanBetween(r, Min(r), Max(r));
  }

  lemma {:induction false} SumNonNegative(r: seq<real>)
    requires forall i :: 0 <= i < |r| ==> r[i] >= 0.0
    ensures Sum(r) >= 0.0
  {
    if |r| > 0 {
      SumNonNegative(r[1..]);
    }
  }

  /** The variance is never negative, so the standard deviation is the square
      root of a non-negative number. */
  lemma VarianceNonNegative(r: seq<real>)
    requires |r| > 0
    ensures Variance(r) >= 0.0
  {
    var d := SquaredDeviations(r, Mean(r));
    forall i | 0 <= i < |d| ensures d[i] >= 0.0 {
      var t := r[i] - Mean(r);
      assert d[i] == t * t;
    }
    SumNonNegative(d);
  }

  /** With at least one finite value and no infinity the moments are finite,
      and the mean lies between the smallest and largest non-NaN value. */
  lemma NanMomentsFinite(values: seq<Float>, sqrt: real -> real)
    requires |NonNaN(values)| > 0 && AllFinite(NonNaN(values))
    ensures var m := NanMoments(values, sqrt);
      var r := Reals(NonNaN(values));
      && m.mean.Num? && m.std.Num?
      && Min(r) <= m.mean.value <= Max(r)
      && m.std.value == sqrt(Variance(r))
      && Variance(r) >= 0.0
  {
    var r := Reals(NonNaN(values));
    MeanWithinRange(r);
    VarianceNonNegative(r);
  }

  /** A column with no value but NaN has NaN moments. */
  lemma NanMomentsAllNaN(values: seq<Float>, sqrt: real -> real)
    requires forall i :: 0 <= i < |values| ==> values[i].NaN?
    ensures NanMoments(values, sqrt) == Moments(NaN, NaN)
  {
    NonNaNEmpty(values);
  }

  lemma {:induction false} NonNaNEmpty(values: seq<Float>)
    requires forall i :: 0 <= i < |values| ==> values[i].NaN?
    ensures NonNaN(values) == []
  {
    if |values| > 0 {
      NonNaNEmpty(values[1..]);
    }
  }
}
