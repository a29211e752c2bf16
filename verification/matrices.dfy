/** Dense real vectors and matrices as sequences, with the summation facts
    the normal-mode and orientation code needs.  A matrix is a sequence of
    rows; `Rect(m, r, c)` says it is r×c.
 */
module Matrices {

  type Vector = seq<real>
  type Matrix = seq<seq<real>>

  predicate Rect(m: Matrix, r: nat, c: nat) {
    |m| == r && forall i :: 0 <= i < r ==> |m[i]| == c
  }

  predicate Square(m: Matrix, n: nat) {
    Rect(m, n, n)
  }

  predicate Symmetric(m: Matrix) {
    && (forall i :: 0 <= i < |m| ==> |m[i]| == |m|)
    && (forall i, j :: 0 <= i < |m| && 0 <= j < |m| ==> m[i][j] == m[j][i])
  }

  function Abs(x: real): real {
    if x < 0.0 then -x else x
  }

  /** The entry at (i, j), or 0 outside the matrix. */
  function Entry(m: Matrix, i: int, j: int): real {
    if 0 <= i < |m| && 0 <= j < |m[i]| then m[i][j] else 0.0
  }

  // ---------------------------------------------------------------------
  // Sums

  function Sum(xs: seq<real>): real
    decreases |xs|
  {
    if |xs| == 0 then 0.0 else xs[0] + Sum(xs[1..])
  }

  lemma {:induction false} SumAppend(xs: seq<real>, ys: seq<real>)
    ensures Sum(xs + ys) == Sum(xs) + Sum(ys)
    decreases |xs|
  {
    if |xs| == 0 {
      assert xs + ys == ys;
    } else {
      assert (xs + ys)[1..] == xs[1..] + ys;
      SumAppend(xs[1..], ys);
    }
  }

  /** Summing left to right, one element at a time, gives `Sum`. */
  lemma SumLast(xs: seq<real>)
    requires |xs| > 0
    ensures Sum(xs) == Sum(xs[..|xs| - 1]) + xs[|xs| - 1]
  {
    assert xs == xs[..|xs| - 1] + [xs[|xs| - 1]];
    SumAppend(xs[..|xs| - 1], [xs[|xs| - 1]]);
  }

  lemma {:induction false} SumPointwiseAdd(xs: seq<real>, ys: seq<real>, zs: seq<real>)
    requires |xs| == |ys| == |zs|
    requires forall i :: 0 <= i < |zs| ==> zs[i] == xs[i] + ys[i]
    ensures Sum(zs) == Sum(xs) + Sum(ys)
    decreases |xs|
  {
    if |xs| > 0 {
      SumPointwiseAdd(xs[1..], ys[1..], zs[1..]);
    }
  }

  lemma {:induction false} SumScale(xs: seq<real>, ys: seq<real>, c: real)
    requires |xs| == |ys|
    requires forall i :: 0 <= i < |ys| ==> ys[i] == c * xs[i]
    ensures Sum(ys) == c * Sum(xs)
    decreases |xs|
  {
    if |xs| > 0 {
      SumScale(xs[1..], ys[1..], c);
    }
  }

  lemma {:induction false} SumNonNegative(xs: seq<real>)
    requires forall i :: 0 <= i < |xs| ==> xs[i] >= 0.0
    ensures Sum(xs) >= 0.0
    decreases |xs|
  {
    if |xs| > 0 {
      SumNonNegative(xs[1..]);
    }
  }

  lemma {:induction false} SumPositive(xs: seq<real>, k: nat)
    requires k < |xs| && xs[k] > 0.0
    requires forall i :: 0 <= i < |xs| ==> xs[i] >= 0.0
    ensures Sum(xs) > 0.0
    decreases |xs|
  {
    if k == 0 {
      SumNonNegative(xs[1..]);
    } else {
      SumPositive(xs[1..], k - 1);
    }
  }

  lemma {:induction false} SumZero(xs: seq<real>)
    requires forall i :: 0 <= i < |xs| ==> xs[i] == 0.0
    ensures Sum(xs) == 0.0
    decreases |xs|
  {
    if |xs| > 0 {
      SumZero(xs[1..]);
    }
  }

  /** Sum of a sequence that is zero everywhere except at `k`. */
  lemma {:induction false} SumSingle(xs: seq<real>, k: nat)
    requires k < |xs|
    requires forall i :: 0 <= i < |xs| && i != k ==> xs[i] == 0.0
    ensures Sum(xs) == xs[k]
    decreases |xs|
  {
    if k == 0 {
      SumZero(xs[1..]);
    } else {
      SumSingle(xs[1..], k - 1);
    }
  }

  function Column(m: Matrix, j: nat): Vector
    requires forall i :: 0 <= i < |m| ==> j < |m[i]|
  {
    seq(|m|, i requires 0 <= i < |m| => m[i][j])
  }

  function RowSums(m: Matrix): Vector {
    seq(|m|, i requires 0 <= i < |m| => Sum(m[i]))
  }

  function ColumnSums(m: Matrix, c: nat): Vector
    requires Rect(m, |m|, c)
  {
    seq(c, j requires 0 <= j < c => Sum(Column(m, j)))
  }

  /** A double sum may be taken row by row or column by column. */
  lemma {:induction false} SumSwap(m: Matrix, c: nat)
    requires Rect(m, |m|, c)
    ensures Sum(RowSums(m)) == Sum(ColumnSums(m, c))
    decreases |m|
  {
    if |m| == 0 {
      SumZero(ColumnSums(m, c));
    } else {
      var rest := m[1..];
      SumSwap(rest, c);
      assert RowSums(m)[1..] == RowSums(rest);
      forall j | 0 <= j < c
        ensures ColumnSums(m, c)[j] == m[0][j] + ColumnSums(rest, c)[j]
      {
        assert Column(m, j)[1..] == Column(rest, j);
      }
      SumPointwiseAdd(m[0], ColumnSums(rest, c), ColumnSums(m, c));
    }
  }

  // ---------------------------------------------------------------------
  // Vectors

  function Dot(u: Vector, v: Vector): real
    requires |u| == |v|
  {
    Sum(seq(|u|, k requires 0 <= k < |u| => u[k] * v[k]))
  }

  lemma DotSymmetric(u: Vector, v: Vector)
    requires |u| == |v|
    ensures Dot(u, v) == Dot(v, u)
  {
    assert seq(|u|, k requires 0 <= k < |u| => u[k] * v[k]) == seq(|v|, k requires 0 <= k < |v| => v[k] * u[k]);
  }

  /** The squared Euclidean norm. */
  function NormSquared(u: Vector): real {
    Dot(u, u)
  }

  lemma NormSquaredNonNegative(u: Vector)
    ensures NormSquared(u) >= 0.0
  {
    var t := seq(|u|, k requires 0 <= k < |u| => u[k] * u[k]);
    SumNonNegative(t);
  }

  function Scale(c: real, u: Vector): (r: Vector)
    ensures |r| == |u| && forall k :: 0 <= k < |u| ==> r[k] == c * u[k]
  {
    seq(|u|, k requires 0 <= k < |u| => c * u[k])
  }

  /** `ws * xs` elementwise. */
  function Products(ws: Vector, xs: Vector): (r: Vector)
    requires |ws| == |xs|
    ensures |r| == |xs| && forall i :: 0 <= i < |xs| ==> r[i] == ws[i] * xs[i]
  {
    seq(|xs|, i requires 0 <= i < |xs| => ws[i] * xs[i])
  }

  /** Shifting every value down by `c` lowers the weighted sum by c Σ w. */
  lemma {:induction false} SumShift(ws: Vector, xs: Vector, ys: Vector, c: real)
    requires |ws| == |xs| == |ys|
    requires forall i :: 0 <= i < |xs| ==> ys[i] == xs[i] - c
    ensures Sum(Products(ws, ys)) + Sum(Scale(c, ws)) == Sum(Products(ws, xs))
    decreases |ws|
  {
    if |ws| > 0 {
      SumShift(ws[1..], xs[1..], ys[1..], c);
      ProductsTail(ws, ys);
      ProductsTail(ws, xs);
      ScaleTail(c, ws);
      Distribute(ws[0], xs[0], c, ys[0]);
    }
  }

  lemma ProductsTail(ws: Vector, xs: Vector)
    requires |ws| == |xs| > 0
    ensures Products(ws, xs)[1..] == Products(ws[1..], xs[1..])
  {
    var a, b := Products(ws, xs)[1..], Products(ws[1..], xs[1..]);
    forall i | 0 <= i < |a| ensures a[i] == b[i] {
      assert a[i] == ws[i + 1] * xs[i + 1];
    }
  }

  lemma ScaleTail(c: real, ws: Vector)
    requires |ws| > 0
    ensures Scale(c, ws)[1..] == Scale(c, ws[1..])
  {
    var a, b := Scale(c, ws)[1..], Scale(c, ws[1..]);
    forall i | 0 <= i < |a| ensures a[i] == b[i] {
      assert a[i] == c * ws[i + 1];
    }
  }

  lemma Distribute(w: real, x: real, c: real, y: real)
    requires y == x - c
    ensures w * y + c * w == w * x
  {
  }

  // ---------------------------------------------------------------------
  // Matrices

  function Identity(n: nat): (r: Matrix)
    ensures Rect(r, n, n)
  {
    seq(n, i requires 0 <= i < n => seq(n, j requires 0 <= j < n => if i == j then 1.0 else 0.0))
  }

  /** Negating column `x` of every row of an r×c matrix. */
  function NegateColumn(g: Matrix, c: nat, x: nat): (r: Matrix)
    requires Rect(g, |g|, c)
    ensures Rect(r, |g|, c)
    ensures forall i, y :: 0 <= i < |g| && 0 <= y < c ==> r[i][y] == (if y == x then -g[i][y] else g[i][y])
  {
    seq(|g|, i requires 0 <= i < |g| => seq(c, y requires 0 <= y < c => if y == x then -g[i][y] else g[i][y]))
  }

  /** The rows of a coordinate array, one after the other (`ravel`, row-major). */
  function Ravel(g: Matrix): (r: seq<real>)
    decreases |g|
  {
    if |g| == 0 then [] else g[0] + Ravel(g[1..])
  }

  lemma {:induction false} RavelIndex(g: Matrix, n: nat)
    requires Rect(g, n, 3)
    ensures |Ravel(g)| == 3 * n
    ensures forall i, c :: 0 <= i < n && 0 <= c < 3 ==> Ravel(g)[3 * i + c] == g[i][c]
    decreases n
  {
    if n > 0 {
      RavelIndex(g[1..], n - 1);
      var rest := Ravel(g[1..]);
      assert Ravel(g) == g[0] + rest;
      forall i, c | 0 <= i < n && 0 <= c < 3 ensures Ravel(g)[3 * i + c] == g[i][c] {
        if i > 0 {
          assert Ravel(g)[3 * i + c] == rest[3 * (i - 1) + c];
        }
      }
    }
  }

  lemma {:induction false} DotAppend(u: Vector, v: Vector, x: Vector, y: Vector)
    requires |u| == |x| && |v| == |y|
    ensures Dot(u + v, x + y) == Dot(u, x) + Dot(v, y)
  {
    var p := seq(|u| + |v|, k requires 0 <= k < |u| + |v| => (u + v)[k] * (x + y)[k]);
    var p1 := seq(|u|, k requires 0 <= k < |u| => u[k] * x[k]);
    var p2 := seq(|v|, k requires 0 <= k < |v| => v[k] * y[k]);
    forall k | 0 <= k < |p| ensures p[k] == (p1 + p2)[k] {
      if k < |u| {
        assert (u + v)[k] == u[k] && (x + y)[k] == x[k];
      } else {
        assert (u + v)[k] == v[k - |u|] && (x + y)[k] == y[k - |u|];
      }
    }
    assert p == p1 + p2;
    SumAppend(p1, p2);
  }

  /** The dot product of two raveled n×3 arrays, atom by atom. */
  lemma {:induction false} DotRavel(g: Matrix, h: Matrix, n: nat)
    requires Rect(g, n, 3) && Rect(h, n, 3)
    ensures |Ravel(g)| == |Ravel(h)| == 3 * n
    ensures Dot(Ravel(g), Ravel(h)) == Sum(seq(n, a requires 0 <= a < n => Dot(g[a], h[a])))
    decreases n
  {
    RavelIndex(g, n);
    RavelIndex(h, n);
    if n > 0 {
      DotRavel(g[1..], h[1..], n - 1);
      DotAppend(g[0], Ravel(g[1..]), h[0], Ravel(h[1..]));
      var t := seq(n, a requires 0 <= a < n => Dot(g[a], h[a]));
      assert t[1..] == seq(n - 1, a requires 0 <= a < n - 1 => Dot(g[1..][a], h[1..][a]));
    }
  }

  /** A dot product of two triples, written out. */
  lemma Dot3(p: Vector, q: Vector)
    requires |p| == |q| == 3
    ensures Dot(p, q) == p[0] * q[0] + p[1] * q[1] + p[2] * q[2]
  {
    var t := seq(3, k requires 0 <= k < 3 => p[k] * q[k]);
    assert t[1..][1..][1..] == [];
    calc {
      Sum(t);
      t[0] + Sum(t[1..]);
      t[0] + (t[1] + Sum(t[1..][1..]));
      t[0] + (t[1] + (t[2] + Sum(t[1..][1..][1..])));
    }
  }

  /** `np.outer(u, v)`. */
  function Outer(u: Vector, v: Vector): (r: Matrix)
    ensures Rect(r, |u|, |v|)
    ensures forall i, j :: 0 <= i < |u| && 0 <= j < |v| ==> r[i][j] == u[i] * v[j]
  {
    seq(|u|, i requires 0 <= i < |u| => seq(|v|, j requires 0 <= j < |v| => u[i] * v[j]))
  }

  function Subtract(a: Matrix, b: Matrix): (r: Matrix)
    requires Rect(a, |a|, |b|) && Rect(b, |b|, |b|) && |a| == |b|
    ensures Rect(r, |a|, |a|)
    ensures forall i, j :: 0 <= i < |a| && 0 <= j < |a| ==> r[i][j] == a[i][j] - b[i][j]
  {
    seq(|a|, i requires 0 <= i < |a| => seq(|b|, j requires 0 <= j < |b| => a[i][j] - b[i][j]))
  }

  function Transpose(m: Matrix, c: nat): (r: Matrix)
    requires Rect(m, |m|, c)
    ensures Rect(r, c, |m|)
    ensures forall i, j :: 0 <= i < c && 0 <= j < |m| ==> r[i][j] == m[j][i]
  {
    seq(c, i requires 0 <= i < c => Column(m, i))
  }

  /** Entry (i, j) of a·b where a is r×n and b is n×c. */
  function ProductEntry(a: Matrix, b: Matrix, n: nat, i: nat, j: nat): real
    requires i < |a| && |a[i]| == n && |b| == n
    requires forall k :: 0 <= k < n ==> j < |b[k]|
  {
    Sum(seq(n, k requires 0 <= k < n => a[i][k] * b[k][j]))
  }

  /** `np.dot(a, b)` for an r×n matrix a and an n×c matrix b. */
  function MatMul(a: Matrix, b: Matrix, n: nat, c: nat): (r: Matrix)
    requires Rect(a, |a|, n) && Rect(b, n, c)
    ensures Rect(r, |a|, c)
    ensures forall i, j :: 0 <= i < |a| && 0 <= j < c ==> r[i][j] == ProductEntry(a, b, n, i, j)
  {
    seq(|a|, i requires 0 <= i < |a| => seq(c, j requires 0 <= j < c => ProductEntry(a, b, n, i, j)))
  }

  /** Matrix times column vector. */
  function MatVec(m: Matrix, v: Vector): (r: Vector)
    requires Rect(m, |m|, |v|)
    ensures |r| == |m| && forall i :: 0 <= i < |m| ==> r[i] == Dot(m[i], v)
  {
    seq(|m|, i requires 0 <= i < |m| => Dot(m[i], v))
  }
}
