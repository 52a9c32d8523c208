/** Numbers as the analysis scripts see them: an IEEE-754 double is either a
    finite value (modelled as an exact real), NaN, or a signed infinity. */
module Numeric {

  datatype Option<T> = None | Some(value: T)

  /** A double produced by numpy arithmetic. */
  datatype Float = Num(value: real) | NaN | Inf(negative: bool)

  /** Division of two finite doubles: a zero denominator does not raise but
      gives NaN for 0/0 and an infinity carrying the numerator's sign otherwise. */
  function Divide(num: real, den: real): (r: Float)
    ensures r.Num? <==> den != 0.0
    ensures r.Num? ==> r.value * den == num
    ensures r.NaN? <==> den == 0.0 && num == 0.0
    ensures r.Inf? ==> r.negative == (num < 0.0)
  {
    if den != 0.0 then Num(num / den)
    else if num == 0.0 then NaN
    else Inf(num < 0.0)
  }

  /** Addition of two doubles: NaN absorbs, opposite infinities give NaN. */
  function Plus(a: Float, b: Float): (r: Float)
    ensures a.Num? && b.Num? ==> r == Num(a.value + b.value)
    ensures a.NaN? || b.NaN? ==> r.NaN?
    ensures r.Num? ==> a.Num? && b.Num?
  {
    match (a, b)
    case (Num(x), Num(y)) => Num(x + y)
    case (NaN, _) => NaN
    case (_, NaN) => NaN
    case (Inf(s), Num(_)) => Inf(s)
    case (Num(_), Inf(t)) => Inf(t)
    case (Inf(s), Inf(t)) => if s == t then Inf(s) else NaN
  }

  /** Wraps every real of `s` as a finite double. */
  function Nums(s: seq<real>): (r: seq<Float>)
    ensures |r| == |s|
    ensures forall i :: 0 <= i < |s| ==> r[i] == Num(s[i])
  {
    seq(|s|, i requires 0 <= i < |s| => Num(s[i]))
  }

  /** A quotient with a positive denominator inherits bounds on the numerator. */
  lemma QuotientBounds(num: real, den: real, lo: real, hi: real)
    requires den > 0.0 && lo * den <= num <= hi * den
    ensures lo <= num / den <= hi
  {
  }
}
