/** Real-number stand-ins for the floating-point primitives the machine is
    built from: a positive exponential, the logistic squashing, and the two
    inner products that feed the conditional activations. */
module Numerics {

  /** Any strictly positive function on the reals. `exp` is passed around as a
      value of this type: nothing else about the exponential is relied upon. */
  type PositiveFn = f: real -> real | forall x :: f(x) > 0.0 witness (x: real) => 1.0

  /** The logistic activation in the form the machine computes it,
      exp(x) / (1 + exp(x)). */
  function Logistic(exp: PositiveFn, x: real): (p: real)
    ensures 0.0 < p < 1.0
  {
    exp(x) / (1.0 + exp(x))
  }

  /** The odds of the logistic value recover the exponential: Logistic is
      inverted by p / (1 - p). */
  lemma LogisticOdds(exp: PositiveFn, x: real)
    ensures Logistic(exp, x) / (1.0 - Logistic(exp, x)) == exp(x)
  {
    var e := exp(x);
    var p := Logistic(exp, x);
    assert p == e / (1.0 + e);
    assert p * (1.0 + e) == e;
    assert 1.0 - p == 1.0 / (1.0 + e) by {
      assert (1.0 - p) * (1.0 + e) == 1.0;
    }
    assert p / (1.0 - p) == (e / (1.0 + e)) * (1.0 + e);
  }

  /** A larger exponential gives a larger activation, and an exponential no
      smaller gives an activation no smaller. */
  lemma LogisticMonotone(exp: PositiveFn, x: real, y: real)
    requires exp(x) <= exp(y)
    ensures Logistic(exp, x) <= Logistic(exp, y)
    ensures exp(x) < exp(y) ==> Logistic(exp, x) < Logistic(exp, y)
  {
    var a, b := exp(x), exp(y);
    assert Logistic(exp, x) == 1.0 - 1.0 / (1.0 + a) by {
      assert a / (1.0 + a) + 1.0 / (1.0 + a) == 1.0;
    }
    assert Logistic(exp, y) == 1.0 - 1.0 / (1.0 + b) by {
      assert b / (1.0 + b) + 1.0 / (1.0 + b) == 1.0;
    }
    var qa, qb := 1.0 / (1.0 + a), 1.0 / (1.0 + b);
    var d := (1.0 + a) * (1.0 + b);
    assert d > 0.0;
    assert qa - qb == (b - a) / d;
    assert (b - a) / d >= 0.0;
    if a < b {
      assert (b - a) / d > 0.0;
    }
  }

  /** The column inner product sum_{i < n} w[i][j] * v[i], accumulated in
      increasing i. */
  function ColumnDot(w: seq<seq<real>>, v: seq<int>, j: nat, n: nat): real
    requires n <= |w| && n <= |v|
    requires forall i :: 0 <= i < n ==> j < |w[i]|
  {
    if n == 0 then 0.0 else ColumnDot(w, v, j, n - 1) + w[n - 1][j] * (v[n - 1] as real)
  }

  /** The row inner product sum_{j < n} row[j] * h[j], accumulated in
      increasing j. */
  function RowDot(row: seq<real>, h: seq<int>, n: nat): real
    requires n <= |row| && n <= |h|
  {
    if n == 0 then 0.0 else RowDot(row, h, n - 1) + row[n - 1] * (h[n - 1] as real)
  }

  /** A zero input contributes nothing to a column inner product. */
  lemma {:induction false} ColumnDotOfZero(w: seq<seq<real>>, v: seq<int>, j: nat, n: nat)
    requires n <= |w| && n <= |v|
    requires forall i :: 0 <= i < n ==> j < |w[i]|
    requires forall i :: 0 <= i < n ==> v[i] == 0
    ensures ColumnDot(w, v, j, n) == 0.0
  {
    if n > 0 {
      ColumnDotOfZero(w, v, j, n - 1);
    }
  }

  /** A zero input contributes nothing to a row inner product. */
  lemma {:induction false} RowDotOfZero(row: seq<real>, h: seq<int>, n: nat)
    requires n <= |row| && n <= |h|
    requires forall j :: 0 <= j < n ==> h[j] == 0
    ensures RowDot(row, h, n) == 0.0
  {
    if n > 0 {
      RowDotOfZero(row, h, n - 1);
    }
  }
}
