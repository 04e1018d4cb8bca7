/** Fixed-size float matrices: products, and the law that ties them together. */
module StaticMatrix {
  import opened RealArithmetic
  import opened StaticVector

  predicate IsMatrix(a: seq<seq<real>>, rows: nat, columns: nat) {
    |a| == rows && forall i :: 0 <= i < rows ==> |a[i]| == columns
  }

  function Column(b: seq<seq<real>>, k: nat): seq<real>
    requires forall j :: 0 <= j < |b| ==> k < |b[j]|
  {
    seq(|b|, j requires 0 <= j < |b| => b[j][k])
  }

  /** Entry (i, k) of a product is the inner product of row i and column k. */
  function Product(a: seq<seq<real>>, b: seq<seq<real>>, columns: nat): (p: seq<seq<real>>)
    requires IsMatrix(b, |b|, columns) && IsMatrix(a, |a|, |b|)
    ensures IsMatrix(p, |a|, columns)
  {
    seq(|a|, i requires 0 <= i < |a| => RowProduct(a[i], b, columns))
  }

  function RowProduct(u: seq<real>, b: seq<seq<real>>, columns: nat): seq<real>
    requires IsMatrix(b, |u|, columns)
  {
    seq(columns, k requires 0 <= k < columns => Dot(u, Column(b, k)))
  }

  function TimesVector(a: seq<seq<real>>, v: seq<real>): (w: seq<real>)
    requires IsMatrix(a, |a|, |v|)
    ensures |w| == |a|
  {
    seq(|a|, i requires 0 <= i < |a| => Dot(a[i], v))
  }

  // ---------------------------------------------------------------- the operations

  function Rows(m: array2<real>): (a: seq<seq<real>>)
    reads m
    ensures IsMatrix(a, m.Length0, m.Length1)
  {
    seq(m.Length0, i requires 0 <= i < m.Length0 reads m =>
      seq(m.Length1, j requires 0 <= j < m.Length1 reads m => m[i, j]))
  }

  /** Entry (i, k) after the first n terms of its sum. */
  ghost function Partial(a: seq<seq<real>>, b: seq<seq<real>>, columns: nat, i: nat, k: nat, n: nat): real
    requires IsMatrix(b, |b|, columns) && IsMatrix(a, |a|, |b|)
    requires i < |a| && k < columns && n <= |b|
  {
    Dot(a[i][..n], Column(b, k)[..n])
  }

  lemma PartialNext(a: seq<seq<real>>, b: seq<seq<real>>, columns: nat, i: nat, k: nat, n: nat)
    requires IsMatrix(b, |b|, columns) && IsMatrix(a, |a|, |b|)
    requires i < |a| && k < columns && n < |b|
    ensures Partial(a, b, columns, i, k, n + 1) == Partial(a, b, columns, i, k, n) + Times(a[i][n], b[n][k])
  {
    DotNext(a[i], Column(b, k), n);
  }

  lemma PartialEnds(a: seq<seq<real>>, b: seq<seq<real>>, columns: nat)
    requires IsMatrix(b, |b|, columns) && IsMatrix(a, |a|, |b|)
    ensures forall i, k :: 0 <= i < |a| && 0 <= k < columns ==> Partial(a, b, columns, i, k, 0) == 0.0
    ensures forall i, k :: 0 <= i < |a| && 0 <= k < columns ==>
      Partial(a, b, columns, i, k, |b|) == Product(a, b, columns)[i][k]
  {
    forall i, k | 0 <= i < |a| && 0 <= k < columns
      ensures Partial(a, b, columns, i, k, |b|) == Product(a, b, columns)[i][k]
    {
      assert a[i][..|b|] == a[i] && Column(b, k)[..|b|] == Column(b, k);
    }
  }

  /** The i-j-k triple loop, accumulating into a zero matrix. */
  method Multiply(a: seq<seq<real>>, b: seq<seq<real>>, columns: nat) returns (m: array2<real>)
    requires IsMatrix(b, |b|, columns) && IsMatrix(a, |a|, |b|)
    ensures fresh(m) && m.Length0 == |a| && m.Length1 == columns
    ensures Rows(m) == Product(a, b, columns)
  {
    m := new real[|a|, columns]((_, _) => 0.0);
    hide Times, Partial, Product, Rows;
    PartialEnds(a, b, columns);
    for i := 0 to |a|
      invariant forall r, k :: 0 <= r < i && 0 <= k < columns ==> m[r, k] == Partial(a, b, columns, r, k, |b|)
      invariant forall r, k :: i <= r < |a| && 0 <= k < columns ==> m[r, k] == 0.0
    {
      for j := 0 to |b|
        invariant forall r, k :: 0 <= r < i && 0 <= k < columns ==> m[r, k] == Partial(a, b, columns, r, k, |b|)
        invariant forall r, k :: i < r < |a| && 0 <= k < columns ==> m[r, k] == 0.0
        invariant forall k :: 0 <= k < columns ==> m[i, k] == Partial(a, b, columns, i, k, j)
      {
        for k := 0 to columns
          invariant forall r, l :: 0 <= r < i && 0 <= l < columns ==> m[r, l] == Partial(a, b, columns, r, l, |b|)
          invariant forall r, l :: i < r < |a| && 0 <= l < columns ==> m[r, l] == 0.0
          invariant forall l :: 0 <= l < k ==> m[i, l] == Partial(a, b, columns, i, l, j + 1)
          invariant forall l :: k <= l < columns ==> m[i, l] == Partial(a, b, columns, i, l, j)
        {
          PartialNext(a, b, columns, i, k, j);
          m[i, k] := m[i, k] + Times(a[i][j], b[j][k]);
        }
      }
    }
    RowsAre(m, Product(a, b, columns), columns);
  }

  lemma RowsAre(m: array2<real>, p: seq<seq<real>>, columns: nat)
    requires m.Length0 == |p| && m.Length1 == columns && IsMatrix(p, |p|, columns)
    requires forall i, k :: 0 <= i < |p| && 0 <= k < columns ==> m[i, k] == p[i][k]
    ensures Rows(m) == p
  {
    assert forall i :: 0 <= i < |p| ==> Rows(m)[i] == p[i];
  }

  method MultiplyVector(a: seq<seq<real>>, v: seq<real>) returns (out: array<real>)
    requires IsMatrix(a, |a|, |v|)
    ensures fresh(out) && out[..] == TimesVector(a, v)
  {
    out := new real[|a|](_ => 0.0);
    for i := 0 to |a|
      invariant forall r :: 0 <= r < i ==> out[r] == Dot(a[r], v)
    {
      out[i] := DotProduct(a[i], v);
    }
  }

  // ---------------------------------------------------------------- (A * B) * v == A * (B * v)

  lemma {:induction false} DotZero(u: seq<real>, v: seq<real>)
    requires |u| == |v| && forall k :: 0 <= k < |u| ==> u[k] == 0.0
    ensures Dot(u, v) == 0.0
  {
    if |u| == 0 {
    } else {
      DotZero(u[..|u| - 1], v[..|v| - 1]);
    }
  }

  /** Against a vector along one axis, only that component counts. */
  lemma {:induction false} DotAlong(u: seq<real>, v: seq<real>, j: nat)
    requires |u| == |v| && j < |u| && forall k :: 0 <= k < |v| && k != j ==> v[k] == 0.0
    ensures Dot(u, v) == Times(u[j], v[j])
  {
    var n := |u|;
    if j == n - 1 {
      DotNothing(u[..n - 1], v[..n - 1]);
    } else {
      DotAlong(u[..n - 1], v[..n - 1], j);
      TimesOne(u[n - 1]);
    }
  }

  lemma {:induction false} DotNothing(u: seq<real>, v: seq<real>)
    requires |u| == |v| && forall k :: 0 <= k < |v| ==> v[k] == 0.0
    ensures Dot(u, v) == 0.0
  {
    if |u| == 0 {
    } else {
      DotNothing(u[..|u| - 1], v[..|v| - 1]);
    }
  }

  /** A matrix takes a vector along axis j to its j-th column, as long as that vector. With linearity this determines
      every product. */
  lemma VectorAlong(a: seq<seq<real>>, v: seq<real>, j: nat)
    requires IsMatrix(a, |a|, |v|) && j < |v| && forall k :: 0 <= k < |v| && k != j ==> v[k] == 0.0
    ensures forall i :: 0 <= i < |a| ==> TimesVector(a, v)[i] == Times(a[i][j], v[j])
  {
    forall i | 0 <= i < |a|
      ensures TimesVector(a, v)[i] == Times(a[i][j], v[j])
    {
      DotAlong(a[i], v, j);
    }
  }

  /** The inner product is linear: w == u + x * b. */
  lemma {:induction false} DotLinear(w: seq<real>, u: seq<real>, x: real, b: seq<real>, v: seq<real>)
    requires |w| == |u| == |b| == |v|
    requires forall k :: 0 <= k < |w| ==> w[k] == u[k] + Times(x, b[k])
    ensures Dot(w, v) == Dot(u, v) + Times(x, Dot(b, v))
  {
    var n := |w|;
    if n == 0 {
      assert Times(x, 0.0) == 0.0;
    } else {
      DotLinear(w[..n - 1], u[..n - 1], x, b[..n - 1], v[..n - 1]);
      DotLinearStep(u[n - 1], x, b[n - 1], v[n - 1], Dot(b[..n - 1], v[..n - 1]));
    }
  }

  lemma DotLinearStep(u: real, x: real, b: real, v: real, d: real)
    ensures Times(u + Times(x, b), v) + Times(x, d) == Times(u, v) + Times(x, d + Times(b, v))
  {
  }

  lemma {:induction false} RowThenVector(u: seq<real>, b: seq<seq<real>>, v: seq<real>)
    requires IsMatrix(b, |u|, |v|)
    ensures Dot(RowProduct(u, b, |v|), v) == Dot(u, TimesVector(b, v))
  {
    var n := |u|;
    if n == 0 {
      DotZero(RowProduct(u, b, |v|), v);
    } else {
      var u', b' := u[..n - 1], b[..n - 1];
      RowThenVector(u', b', v);
      assert TimesVector(b, v)[..n - 1] == TimesVector(b', v);
      var w, w' := RowProduct(u, b, |v|), RowProduct(u', b', |v|);
      forall k | 0 <= k < |v|
        ensures w[k] == w'[k] + Times(u[n - 1], b[n - 1][k])
      {
        assert Column(b, k)[..n - 1] == Column(b', k);
      }
      DotLinear(w, w', u[n - 1], b[n - 1], v);
    }
  }

  /** Applying a product of matrices is applying one after the other, for all dimensions. */
  lemma ProductThenVector(a: seq<seq<real>>, b: seq<seq<real>>, v: seq<real>)
    requires IsMatrix(b, |b|, |v|) && IsMatrix(a, |a|, |b|)
    ensures TimesVector(Product(a, b, |v|), v) == TimesVector(a, TimesVector(b, v))
  {
    var l, r := TimesVector(Product(a, b, |v|), v), TimesVector(a, TimesVector(b, v));
    forall i | 0 <= i < |a|
      ensures l[i] == r[i]
    {
      RowThenVector(a[i], b, v);
    }
  }
}
