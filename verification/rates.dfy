/** JavaScript division of two integers and comparison of the quotient with
    a threshold, computed exactly. A zero denominator gives `NaN` (0/0) or an
    infinity (k/0), and every comparison with `NaN` is false. */
module Rates {

  datatype Rate = Finite(num: int, den: nat) | NaN | PosInf | NegInf

  /** `num / den` as a JavaScript number, kept as an exact fraction. */
  function Divide(num: int, den: nat): (r: Rate)
    ensures r.Finite? ==> r.den > 0
  {
    if den > 0 then Finite(num, den)
    else if num == 0 then NaN
    else if num > 0 then PosInf
    else NegInf
  }

  /** `r > p / q`. */
  predicate Exceeds(r: Rate, p: int, q: nat)
    requires q > 0
  {
    match r
    case Finite(n, d) => n * q > p * d
    case NaN => false
    case PosInf => true
    case NegInf => false
  }

  /** `r < p / q`. */
  predicate Below(r: Rate, p: int, q: nat)
    requires q > 0
  {
    match r
    case Finite(n, d) => n * q < p * d
    case NaN => false
    case PosInf => false
    case NegInf => true
  }

  /** For a non-negative numerator the JavaScript comparisons, including the
      `NaN` and `Infinity` cases of a zero denominator, agree with plain
      cross-multiplication. */
  lemma CrossMultiplication(num: nat, den: nat, p: int, q: nat)
    requires q > 0
    ensures Exceeds(Divide(num, den), p, q) <==> num * q > p * den
    ensures Below(Divide(num, den), p, q) <==> num * q < p * den
  {
  }
}
