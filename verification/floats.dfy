/** IEEE-754 double values as the modelled numpy/pandas code sees them: a finite
    number, NaN, or one of the two infinities. Finite values are exact reals:
    rounding and the sign of zero are not modelled. */
module Floats {

  datatype Value = Num(v: real) | NaN | PosInf | NegInf {

    /** pandas `isnull` on a float cell. */
    predicate IsNull() { NaN? }

    predicate IsInf() { PosInf? || NegInf? }

    predicate IsFinite() { Num? }
  }

  /** Unary minus. */
  function Neg(x: Value): (r: Value)
    ensures r.IsNull() <==> x.IsNull()
    ensures r.IsInf() <==> x.IsInf()
  {
    match x
    case Num(a) => Num(-a)
    case NaN => NaN
    case PosInf => NegInf
    case NegInf => PosInf
  }

  /** Floating-point addition: opposite infinities give NaN. */
  function Add(x: Value, y: Value): (r: Value)
    ensures (x.IsNull() || y.IsNull()) ==> r.IsNull()
    ensures x.Num? && y.Num? ==> r == Num(x.v + y.v)
    ensures x.Num? && y.IsInf() ==> r == y
    ensures x.IsInf() && y.Num? ==> r == x
    ensures r.Num? ==> x.Num? && y.Num?
  {
    match (x, y)
    case (NaN, _) => NaN
    case (_, NaN) => NaN
    case (Num(a), Num(b)) => Num(a + b)
    case (Num(_), _) => y
    case (_, Num(_)) => x
    case (_, _) => if x == y then x else NaN
  }

  function Sub(x: Value, y: Value): (r: Value)
    ensures (x.IsNull() || y.IsNull()) ==> r.IsNull()
    ensures x.Num? && y.Num? ==> r == Num(x.v - y.v)
  {
    Add(x, Neg(y))
  }

  /** Absolute value: infinities become +inf, NaN stays NaN. */
  function Abs(x: Value): (r: Value)
    ensures r.IsNull() <==> x.IsNull()
    ensures r.IsInf() <==> x.IsInf()
    ensures r.Num? ==> r.v >= 0.0 && (r.v == x.v || r.v == -x.v)
    ensures r != NegInf
  {
    match x
    case Num(a) => if a < 0.0 then Num(-a) else Num(a)
    case NaN => NaN
    case _ => PosInf
  }

  /** Python truthiness of a float: everything except zero is true, NaN included. */
  predicate Truthy(x: Value) {
    x != Num(0.0)
  }

  /** The comparison `x > b` against a finite bound: false for NaN. */
  predicate Greater(x: Value, b: real) {
    match x
    case Num(a) => a > b
    case NaN => false
    case PosInf => true
    case NegInf => false
  }

  /** The comparison `x < b` against a finite bound: false for NaN. */
  predicate Less(x: Value, b: real) {
    match x
    case Num(a) => a < b
    case NaN => false
    case PosInf => false
    case NegInf => true
  }

  /** Floating-point division as numpy performs it: division by zero gives an
      infinity (or NaN for 0/0) with a runtime warning, never an exception. */
  function Div(x: Value, y: Value): (r: Value)
    ensures (x.IsNull() || y.IsNull()) ==> r.IsNull()
    ensures x.Num? && y.Num? && y.v != 0.0 ==> r == Num(x.v / y.v)
    ensures x.IsInf() && y.IsInf() ==> r.IsNull()
    ensures x.Num? && y.IsInf() ==> r == Num(0.0)
    ensures r.Num? ==> x.Num? && (y.IsInf() || y.v != 0.0)
  {
    match (x, y)
    case (NaN, _) => NaN
    case (_, NaN) => NaN
    case (Num(a), Num(b)) =>
      if b != 0.0 then Num(a / b)
      else if a == 0.0 then NaN
      else if a > 0.0 then PosInf
      else NegInf
    case (Num(_), _) => Num(0.0)
    case (PosInf, Num(b)) => if b < 0.0 then NegInf else PosInf
    case (NegInf, Num(b)) => if b < 0.0 then PosInf else NegInf
    case (_, _) => NaN
  }

  /** Multiplication of a finite factor with a value. */
  function Scale(a: real, x: Value): (r: Value)
    ensures x.IsNull() ==> r.IsNull()
    ensures x.Num? ==> r == Num(a * x.v)
  {
    if x.Num? then Num(a * x.v)
    else if x.NaN? || a == 0.0 then NaN
    else if (a > 0.0) == x.PosInf? then PosInf
    else NegInf
  }

  /** A finite non-zero value divided by itself is one; an infinity divided by
      itself is NaN. */
  lemma DivSelf(x: Value)
    ensures x.Num? && x.v != 0.0 ==> Div(x, x) == Num(1.0)
    ensures x.IsInf() ==> Div(x, x).IsNull()
  {
  }

  function Sum(s: seq<real>): real
  {
    if |s| == 0 then 0.0 else Sum(s[..|s| - 1]) + s[|s| - 1]
  }

  /** Sums split over concatenation. */
  lemma {:induction false} SumAppend(a: seq<real>, b: seq<real>)
    ensures Sum(a + b) == Sum(a) + Sum(b)
    decreases |b|
  {
    if |b| == 0 {
      assert a + b == a;
    } else {
      var b' := b[..|b| - 1];
      assert (a + b)[..|a + b| - 1] == a + b';
      SumAppend(a, b');
    }
  }

  /** The sum of non-negative numbers is non-negative and at least each term. */
  lemma {:induction false} SumBounds(s: seq<real>, i: nat)
    requires forall j :: 0 <= j < |s| ==> s[j] >= 0.0
    requires i < |s|
    ensures Sum(s) >= s[i] >= 0.0
    decreases |s|
  {
    if i < |s| - 1 {
      SumBounds(s[..|s| - 1], i);
      SumNonNegative(s[..|s| - 1]);
    } else {
      SumNonNegative(s[..|s| - 1]);
    }
  }

  lemma {:induction false} SumNonNegative(s: seq<real>)
    requires forall j :: 0 <= j < |s| ==> s[j] >= 0.0
    ensures Sum(s) >= 0.0
    decreases |s|
  {
    if |s| > 0 {
      SumNonNegative(s[..|s| - 1]);
    }
  }

  /** numpy/pandas `mean`: NaN for an empty slice. */
  function Mean(s: seq<real>): (r: Value)
    ensures r.IsNull() <==> |s| == 0
    ensures r.Num? ==> r.v * (|s| as real) == Sum(s)
  {
    if |s| == 0 then NaN else Num(Sum(s) / (|s| as real))
  }

  /** The largest element of a non-empty sequence. */
  function MaxReal(s: seq<real>): (m: real)
    requires |s| > 0
    ensures forall j :: 0 <= j < |s| ==> s[j] <= m
    ensures exists j :: 0 <= j < |s| && s[j] == m
  {
    if |s| == 1 then s[0]
    else
      var m' := MaxReal(s[..|s| - 1]);
      assert forall j :: 0 <= j < |s| - 1 ==> s[..|s| - 1][j] == s[j];
      if s[|s| - 1] > m' then s[|s| - 1] else m'
  }

  /** pandas `Series.max()`: NaN for an empty series. */
  function MaxValue(s: seq<real>): (r: Value)
    ensures r.IsNull() <==> |s| == 0
    ensures r.Num? ==> (forall j :: 0 <= j < |s| ==> s[j] <= r.v) && (exists j :: 0 <= j < |s| && s[j] == r.v)
  {
    if |s| == 0 then NaN else Num(MaxReal(s))
  }
}
