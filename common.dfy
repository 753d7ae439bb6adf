/** Shared vocabulary: Python/numpy integer semantics, 2D grids as nested
    sequences, sums and simple sequence utilities. */
module Common {

  datatype Option<T> = None | Some(value: T)

  /** Python's `int()` applied to a float: truncation toward zero. */
  function Trunc(x: real): (r: int)
    ensures x >= 0.0 ==> r as real <= x < r as real + 1.0
    ensures x < 0.0 ==> r as real - 1.0 < x <= r as real
  {
    if x >= 0.0 then x.Floor else -((-x).Floor)
  }

  /** Smallest integer not below `x` (numpy's `ceil`). */
  function Ceil(x: real): (r: int)
    ensures r as real - 1.0 < x <= r as real
  {
    if x == x.Floor as real then x.Floor else x.Floor + 1
  }

  /** numpy's `round`: nearest integer, ties go to the even neighbour. */
  function RoundHalfEven(x: real): (r: int)
    ensures -0.5 <= x - r as real <= 0.5
    ensures (x - r as real == 0.5 || x - r as real == -0.5) ==> r % 2 == 0
  {
    var f := x.Floor;
    var d := x - f as real;
    if d < 0.5 then f
    else if d > 0.5 then f + 1
    else if f % 2 == 0 then f else f + 1
  }

  function Max(a: int, b: int): int { if a >= b then a else b }
  function Min(a: int, b: int): int { if a <= b then a else b }

  /** Normalisation of one slice bound of a Python slice `[i:]` over a
      dimension of length `n` (negative bounds count from the end). */
  function ClipBound(i: int, n: nat): (r: int)
    ensures 0 <= r <= n
    ensures 0 <= i <= n ==> r == i
    ensures i > n ==> r == n
    ensures -(n as int) <= i < 0 ==> r == i + n
    ensures i < -(n as int) ==> r == 0
  {
    if i < 0 then (if i + n < 0 then 0 else i + n)
    else if i > n then n
    else i
  }

  /** The index range `[lo, hi)` that numpy selects for `a[start:stop]` on an
      axis of length `n`. */
  function SliceRange(start: int, stop: int, n: nat): (r: (int, int))
    ensures 0 <= r.0 <= r.1 <= n
    ensures 0 <= start <= stop <= n ==> r == (start, stop)
  {
    var lo := ClipBound(start, n);
    var hi := ClipBound(stop, n);
    (lo, if hi < lo then lo else hi)
  }

  /** `g` is a `rows` x `cols` grid. */
  predicate IsGrid<T>(g: seq<seq<T>>, rows: int, cols: int)
  {
    |g| == rows && forall i :: 0 <= i < |g| ==> |g[i]| == cols
  }

  /** A `rows` x `cols` grid of zeros (`np.zeros`). */
  function Zeros(rows: nat, cols: nat): (g: seq<seq<real>>)
    ensures IsGrid(g, rows, cols)
    ensures forall i, j :: 0 <= i < rows && 0 <= j < cols ==> g[i][j] == 0.0
  {
    seq(rows, i => seq(cols, j => 0.0))
  }

  /** Elementwise negation of a grid (`-data`). */
  function Negate(g: seq<seq<real>>): (r: seq<seq<real>>)
    ensures |r| == |g|
    ensures forall i :: 0 <= i < |g| ==> |r[i]| == |g[i]|
    ensures forall i, j :: 0 <= i < |g| && 0 <= j < |g[i]| ==> r[i][j] + g[i][j] == 0.0
  {
    seq(|g|, i requires 0 <= i < |g| => seq(|g[i]|, j requires 0 <= j < |g[i]| => -g[i][j]))
  }

  /** Element `k` of a flat buffer, `0.0` past its end. */
  function FlatAt(s: seq<real>, k: int): real
  {
    if 0 <= k < |s| then s[k] else 0.0
  }

  /** Row-major reshape of a flat buffer into `rows` x `cols` (numpy's
      `reshape` view of `modelf` as `model`). */
  function Reshape(s: seq<real>, rows: nat, cols: nat): (g: seq<seq<real>>)
    ensures IsGrid(g, rows, cols)
    ensures forall i, j :: 0 <= i < rows && 0 <= j < cols ==> g[i][j] == FlatAt(s, i * cols + j)
  {
    seq(rows, i => seq(cols, j => FlatAt(s, i * cols + j)))
  }

  /** Bounds of a row-major position: a cell of a `rows` x `cols` grid lies
      inside a buffer of `rows * cols` elements. */
  lemma FlatBound(i: int, j: int, rows: int, cols: int)
    requires 0 <= i < rows && 0 <= j < cols
    ensures 0 <= i * cols + j < rows * cols
  {
    assert 0 <= i * cols by {
      assert i >= 0 && cols > 0;
    }
    calc {
      i * cols + j;
    <  i * cols + cols;
    == (i + 1) * cols;
    <= { assert i + 1 <= rows; assert cols > 0; } rows * cols;
    }
  }

  function Sum(s: seq<real>): real
  {
    if s == [] then 0.0 else Sum(s[..|s| - 1]) + s[|s| - 1]
  }

  /** Number of `true` entries of a boolean mask (numpy `mask.sum()`). */
  function Count(m: seq<bool>): (n: nat)
    ensures n <= |m|
  {
    if m == [] then 0 else Count(m[..|m| - 1]) + (if m[|m| - 1] then 1 else 0)
  }

  lemma {:induction false} CountZeroIff(m: seq<bool>)
    ensures Count(m) == 0 <==> forall k :: 0 <= k < |m| ==> !m[k]
  {
    if m != [] {
      CountZeroIff(m[..|m| - 1]);
      assert forall k :: 0 <= k < |m| - 1 ==> m[..|m| - 1][k] == m[k];
    }
  }

  lemma {:induction false} CountFullIff(m: seq<bool>)
    ensures Count(m) == |m| <==> forall k :: 0 <= k < |m| ==> m[k]
  {
    if m != [] {
      CountFullIff(m[..|m| - 1]);
      assert forall k :: 0 <= k < |m| - 1 ==> m[..|m| - 1][k] == m[k];
    }
  }

  /** `p` lists each of `0 .. n-1` exactly once. */
  ghost predicate IsPermutation(p: seq<int>, n: int)
  {
    |p| == n
    && (forall k :: 0 <= k < |p| ==> 0 <= p[k] < n)
    && (forall k, l :: 0 <= k < l < |p| ==> p[k] != p[l])
  }

  /** Smallest element of a non-empty sequence (numpy `min`). */
  function MinOf(s: seq<real>): (m: real)
    requires |s| > 0
    ensures forall k :: 0 <= k < |s| ==> m <= s[k]
    ensures exists k :: 0 <= k < |s| && m == s[k]
  {
    if |s| == 1 then s[0]
    else
      var rest := MinOf(s[1..]);
      assert forall k :: 1 <= k < |s| ==> s[k] == s[1..][k - 1];
      if s[0] <= rest then s[0] else rest
  }

  /** Largest element of a non-empty sequence (numpy `max`). */
  function MaxOf(s: seq<real>): (m: real)
    requires |s| > 0
    ensures forall k :: 0 <= k < |s| ==> s[k] <= m
    ensures exists k :: 0 <= k < |s| && m == s[k]
  {
    if |s| == 1 then s[0]
    else
      var rest := MaxOf(s[1..]);
      assert forall k :: 1 <= k < |s| ==> s[k] == s[1..][k - 1];
      if s[0] >= rest then s[0] else rest
  }
}
