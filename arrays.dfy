/** The numpy array operations the metrics and the fit set-up are written
    with: reductions (sum, max, min, argmax), boolean-mask indexing and
    np.where. Arrays are sequences; a boolean mask is a seq<bool> of the same
    length. */
module Arrays {

  /** `a.sum()`; the sum of an empty array is 0. */
  function Sum(s: seq<real>): real
  {
    if |s| == 0 then 0.0 else s[0] + Sum(s[1..])
  }

  lemma {:induction false} SumAppend(s: seq<real>, t: seq<real>)
    ensures Sum(s + t) == Sum(s) + Sum(t)
  {
    if |s| == 0 {
      assert s + t == t;
    } else {
      assert (s + t)[1..] == s[1..] + t;
      SumAppend(s[1..], t);
    }
  }

  /** `a.max()`, defined only for a non-empty array (numpy raises otherwise). */
  function Max(s: seq<real>): (m: real)
    requires |s| > 0
    ensures m in s
    ensures forall i :: 0 <= i < |s| ==> s[i] <= m
  {
    if |s| == 1 then s[0]
    else
      var rest := Max(s[1..]);
      assert forall i :: 1 <= i < |s| ==> s[i] == s[1..][i - 1];
      if s[0] >= rest then s[0] else rest
  }

  /** `a.min()`, defined only for a non-empty array. */
  function Min(s: seq<real>): (m: real)
    requires |s| > 0
    ensures m in s
    ensures forall i :: 0 <= i < |s| ==> m <= s[i]
  {
    if |s| == 1 then s[0]
    else
      var rest := Min(s[1..]);
      assert forall i :: 1 <= i < |s| ==> s[i] == s[1..][i - 1];
      if s[0] <= rest then s[0] else rest
  }

  /** `np.argmax(a)`: the FIRST index at which the maximum occurs. */
  function ArgMax(s: seq<real>): (k: nat)
    requires |s| > 0
    ensures k < |s| && s[k] == Max(s)
    ensures forall j :: 0 <= j < k ==> s[j] < s[k]
  {
    if |s| == 1 then 0
    else
      var k := ArgMax(s[1..]);
      if s[0] >= s[k + 1] then 0 else k + 1
  }

  /** Number of true entries of a mask. */
  function CountTrue(m: seq<bool>): nat
  {
    if |m| == 0 then 0 else (if m[0] then 1 else 0) + CountTrue(m[1..])
  }

  /** `a[mask]`: the entries whose mask bit is set, in their original order. */
  function Select<T>(s: seq<T>, m: seq<bool>): (r: seq<T>)
    requires |s| == |m|
    ensures |r| == CountTrue(m)
  {
    if |s| == 0 then []
    else (if m[0] then [s[0]] else []) + Select(s[1..], m[1..])
  }

  predicate StrictlyIncreasing(s: seq<nat>)
  {
    forall i, j :: 0 <= i < j < |s| ==> s[i] < s[j]
  }

  /** The indices at or after `from` whose mask bit is set, ascending. */
  function IndicesFrom(m: seq<bool>, from: nat): (r: seq<nat>)
    requires from <= |m|
    ensures |r| == CountTrue(m[from..])
    ensures forall k :: 0 <= k < |r| ==> from <= r[k] < |m| && m[r[k]]
    ensures StrictlyIncreasing(r)
    decreases |m| - from
  {
    if from == |m| then []
    else
      assert m[from..][1..] == m[from + 1..];
      var rest := IndicesFrom(m, from + 1);
      var head := if m[from] then [from] else [];
      var r := head + rest;
      assert |r| == CountTrue(m[from..]);
      assert forall k :: 0 <= k < |r| ==> from <= r[k] < |m| && m[r[k]] by {
        forall k | 0 <= k < |r| ensures from <= r[k] < |m| && m[r[k]] {
          if k >= |head| { assert r[k] == rest[k - |head|]; }
        }
      }
      assert StrictlyIncreasing(r) by {
        forall i, j | 0 <= i < j < |r| ensures r[i] < r[j] {
          assert r[j] == rest[j - |head|];
          if i >= |head| { assert r[i] == rest[i - |head|]; }
        }
      }
      r
  }

  lemma {:induction false} IndicesFromComplete(m: seq<bool>, from: nat, i: nat)
    requires from <= i < |m| && m[i]
    ensures i in IndicesFrom(m, from)
    decreases |m| - from
  {
    if i > from {
      IndicesFromComplete(m, from + 1, i);
    }
  }

  /** `np.where(mask)[0]`: the indices of the set bits, ascending. */
  function TrueIndices(m: seq<bool>): (r: seq<nat>)
    ensures |r| == CountTrue(m)
    ensures forall k :: 0 <= k < |r| ==> r[k] < |m| && m[r[k]]
    ensures StrictlyIncreasing(r)
  {
    assert m[0..] == m;
    IndicesFrom(m, 0)
  }

  /** Every set bit's index is listed. */
  lemma TrueIndicesComplete(m: seq<bool>, i: nat)
    requires i < |m| && m[i]
    ensures i in TrueIndices(m)
  {
    IndicesFromComplete(m, 0, i);
  }

  /** Every set bit lies between the first and the last listed index. */
  lemma TrueIndicesSpan(m: seq<bool>, i: nat)
    requires i < |m| && m[i]
    ensures |TrueIndices(m)| > 0
    ensures TrueIndices(m)[0] <= i <= TrueIndices(m)[|TrueIndices(m)| - 1]
  {
    var r := TrueIndices(m);
    TrueIndicesComplete(m, i);
    var k :| 0 <= k < |r| && r[k] == i;
    assert r[0] <= r[k] && r[k] <= r[|r| - 1];
  }

  lemma {:induction false} SelectAtIndicesFrom<T>(s: seq<T>, m: seq<bool>, from: nat, k: nat)
    requires |s| == |m| && from <= |m| && k < CountTrue(m[from..])
    ensures Select(s[from..], m[from..])[k] == s[IndicesFrom(m, from)[k]]
    decreases |m| - from
  {
    assert s[from..][1..] == s[from + 1..];
    assert m[from..][1..] == m[from + 1..];
    if m[from] {
      if k > 0 {
        SelectAtIndicesFrom(s, m, from + 1, k - 1);
      }
    } else {
      SelectAtIndicesFrom(s, m, from + 1, k);
    }
  }

  /** Boolean indexing picks exactly the entries at the np.where indices. */
  lemma SelectAtTrueIndices<T>(s: seq<T>, m: seq<bool>, k: nat)
    requires |s| == |m| && k < CountTrue(m)
    ensures Select(s, m)[k] == s[TrueIndices(m)[k]]
  {
    assert s[0..] == s && m[0..] == m;
    SelectAtIndicesFrom(s, m, 0, k);
  }

  /** A mask with no set bit selects nothing. */
  lemma {:induction false} CountTrueNone(m: seq<bool>)
    requires forall i :: 0 <= i < |m| ==> !m[i]
    ensures CountTrue(m) == 0
  {
    if |m| > 0 {
      CountTrueNone(m[1..]);
    }
  }

  /** A mask with every bit set selects everything. */
  lemma {:induction false} SelectAll<T>(s: seq<T>, m: seq<bool>)
    requires |s| == |m|
    requires forall i :: 0 <= i < |m| ==> m[i]
    ensures Select(s, m) == s
  {
    if |s| > 0 {
      SelectAll(s[1..], m[1..]);
    }
  }

  /** Elementwise product of two arrays of the same length. */
  function Products(a: seq<real>, b: seq<real>): (r: seq<real>)
    requires |a| == |b|
    ensures |r| == |a|
    ensures forall i :: 0 <= i < |a| ==> r[i] == a[i] * b[i]
  {
    seq(|a|, i requires 0 <= i < |a| => a[i] * b[i])
  }

  /** An array of `n` copies of `c`. */
  function Constant(c: real, n: nat): (r: seq<real>)
    ensures |r| == n && forall i :: 0 <= i < n ==> r[i] == c
  {
    seq(n, i => c)
  }

  /** Summation is monotone in each entry. */
  lemma {:induction false} SumMono(u: seq<real>, v: seq<real>)
    requires |u| == |v|
    requires forall i :: 0 <= i < |u| ==> u[i] <= v[i]
    ensures Sum(u) <= Sum(v)
  {
    if |u| > 0 {
      SumMono(u[1..], v[1..]);
    }
  }

  /** A constant factor comes out of a sum. */
  lemma {:induction false} SumScaled(c: real, y: seq<real>)
    ensures Sum(Products(Constant(c, |y|), y)) == c * Sum(y)
  {
    if |y| > 0 {
      var p := Products(Constant(c, |y|), y);
      var q := Products(Constant(c, |y| - 1), y[1..]);
      assert |p[1..]| == |q|;
      forall i | 0 <= i < |q| ensures p[1..][i] == q[i] {
        assert p[1..][i] == p[i + 1] == c * y[i + 1];
      }
      assert p[1..] == q;
      SumScaled(c, y[1..]);
      assert p[0] == c * y[0];
      assert Sum(p) == c * y[0] + Sum(p[1..]);
    }
  }

  /** A prefix one longer is the shorter prefix and the next element. */
  lemma TakeSnoc<T>(s: seq<T>, n: nat)
    requires 0 < n <= |s|
    ensures s[..n] == s[..n - 1] + [s[n - 1]]
  {
  }
}
