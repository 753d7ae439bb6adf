/** The bookkeeping around the least-squares fits of `BeamCutout`: the
    design matrix kept column by column, the zero-filled scatter of the
    solver's coefficients, the model `np.dot(A, coeffs)`, chi-squared, the
    first minimum `np.argmin`, and the merged redshift grid. */
module Coefficients {
  import opened Common

  /** `x ** n` for a whole exponent (`0.0 ** 0 == 1.0`, as in numpy). */
  function Pow(x: real, n: nat): real
  {
    if n == 0 then 1.0 else Pow(x, n - 1) * x
  }

  /** `out[ok] = v`: the entries of `v`, in order, on the positions where
      `ok` holds, and zeros everywhere else (the `out_coeffs` of `fit_at_z`;
      lemma `ScatterPlaces` says where each entry goes). */
  function Scatter(ok: seq<bool>, v: seq<real>): (r: seq<real>)
    requires Count(ok) == |v|
    ensures |r| == |ok|
  {
    if ok == [] then []
    else
      var n := |ok| - 1;
      if ok[n] then Scatter(ok[..n], v[..|v| - 1]) + [v[|v| - 1]]
      else Scatter(ok[..n], v) + [0.0]
  }

  /** `xs[ok]`: the entries of `xs` where `ok` holds, in order. */
  function Gather<T>(ok: seq<bool>, xs: seq<T>): (r: seq<T>)
    requires |ok| == |xs|
    ensures |r| == Count(ok)
  {
    if ok == [] then []
    else
      var n := |ok| - 1;
      var init := Gather(ok[..n], xs[..n]);
      if ok[n] then init + [xs[n]] else init
  }

  /** The scatter is zero off `ok`, and the `j`-th kept position holds the
      `j`-th coefficient: position `k` holds `v[Count(ok[..k])]`. */
  lemma {:induction false} ScatterPlaces(ok: seq<bool>, v: seq<real>, k: int)
    requires Count(ok) == |v| && 0 <= k < |ok|
    ensures !ok[k] ==> Scatter(ok, v)[k] == 0.0
    ensures ok[k] ==> Count(ok[..k]) < |v| && Scatter(ok, v)[k] == v[Count(ok[..k])]
  {
    var n := |ok| - 1;
    assert ok[..n][..k] == ok[..k];
    if k < n {
      if ok[n] {
        ScatterPlaces(ok[..n], v[..|v| - 1], k);
      } else {
        ScatterPlaces(ok[..n], v, k);
      }
    } else {
      assert ok[..n] == ok[..k];
    }
  }

  /** The gather keeps entry `k` of `xs` at position `Count(ok[..k])`. */
  lemma {:induction false} GatherPlaces<T>(ok: seq<bool>, xs: seq<T>, k: int)
    requires |ok| == |xs| && 0 <= k < |ok| && ok[k]
    ensures Count(ok[..k]) < Count(ok) && Gather(ok, xs)[Count(ok[..k])] == xs[k]
  {
    var n := |ok| - 1;
    assert ok[..n][..k] == ok[..k];
    if k < n {
      GatherPlaces(ok[..n], xs[..n], k);
    } else {
      assert ok[..n] == ok[..k];
    }
  }

  /** Reading the scattered coefficients back at the kept positions gives
      the solver's coefficients. */
  lemma {:induction false} GatherScatter(ok: seq<bool>, v: seq<real>)
    requires Count(ok) == |v|
    ensures Gather(ok, Scatter(ok, v)) == v
  {
    if ok != [] {
      var n := |ok| - 1;
      var s := Scatter(ok, v);
      if ok[n] {
        var w := v[..|v| - 1];
        assert s[..n] == Scatter(ok[..n], w);
        GatherScatter(ok[..n], w);
        assert v == w + [v[|v| - 1]];
      } else {
        assert s[..n] == Scatter(ok[..n], v);
        GatherScatter(ok[..n], v);
      }
    }
  }

  /** A coefficient vector that is zero off the kept positions is the
      scatter of its kept entries. */
  lemma {:induction false} ScatterGather(ok: seq<bool>, xs: seq<real>)
    requires |ok| == |xs|
    requires forall k :: 0 <= k < |ok| && !ok[k] ==> xs[k] == 0.0
    ensures Scatter(ok, Gather(ok, xs)) == xs
  {
    if ok != [] {
      var n := |ok| - 1;
      var g := Gather(ok[..n], xs[..n]);
      ScatterGather(ok[..n], xs[..n]);
      if ok[n] {
        var full := g + [xs[n]];
        assert full[..|full| - 1] == g;
        assert Scatter(ok, full) == Scatter(ok[..n], g) + [xs[n]];
      } else {
        assert Scatter(ok, g) == Scatter(ok[..n], g) + [0.0];
      }
      assert xs == xs[..n] + [xs[n]];
    }
  }

  /** Every column of `cols` has `n` entries (one per pixel). */
  predicate Columns(cols: seq<seq<real>>, n: nat)
  {
    forall j :: 0 <= j < |cols| ==> |cols[j]| == n
  }

  /** Kept columns are still columns of `n` pixels. */
  lemma {:induction false} GatherColumns(ok: seq<bool>, cols: seq<seq<real>>, n: nat)
    requires |ok| == |cols| && Columns(cols, n)
    ensures Columns(Gather(ok, cols), n)
  {
    if ok != [] {
      GatherColumns(ok[..|ok| - 1], cols[..|ok| - 1], n);
    }
  }

  /** Pixel `p` of `np.dot(A, coeffs)`, with `A` given column by column
      (a column shorter than `p` reads as zero there; `Dot` only asks for
      pixels every column has). */
  function Combine(cols: seq<seq<real>>, coeffs: seq<real>, p: nat): real
    requires |coeffs| == |cols|
  {
    if cols == [] then 0.0
    else
      var n := |cols| - 1;
      Combine(cols[..n], coeffs[..n], p) + coeffs[n] * FlatAt(cols[n], p)
  }

  /** `np.dot(A, coeffs)` over `n` pixels. */
  function Dot(cols: seq<seq<real>>, coeffs: seq<real>, n: nat): (m: seq<real>)
    requires |coeffs| == |cols| && Columns(cols, n)
    ensures |m| == n && forall p :: 0 <= p < n ==> m[p] == Combine(cols, coeffs, p)
  {
    seq(n, p requires 0 <= p < n => Combine(cols, coeffs, p))
  }

  /** One more column adds its share to every pixel. */
  lemma CombineSnoc(cols: seq<seq<real>>, x: seq<real>, coeffs: seq<real>, a: real, p: nat)
    requires |coeffs| == |cols|
    ensures Combine(cols + [x], coeffs + [a], p) == Combine(cols, coeffs, p) + a * FlatAt(x, p)
  {
    assert (cols + [x])[..|cols|] == cols;
    assert (coeffs + [a])[..|coeffs|] == coeffs;
  }

  /** The zero-filled coefficients add nothing: the model over the whole
      design matrix is the model over the columns the solver was given. */
  lemma {:induction false} CombineScatter(ok: seq<bool>, cols: seq<seq<real>>, v: seq<real>, p: nat)
    requires |ok| == |cols| && Count(ok) == |v|
    ensures Combine(cols, Scatter(ok, v), p) == Combine(Gather(ok, cols), v, p)
    decreases |ok|, 1
  {
    if ok != [] {
      var m := |ok| - 1;
      if ok[m] {
        var w := v[..|v| - 1];
        assert ok == ok[..m] + [true] && cols == cols[..m] + [cols[m]] && v == w + [v[|v| - 1]];
        CombineScatterKept(ok[..m], cols[..m], cols[m], w, v[|v| - 1], p);
      } else {
        var s := Scatter(ok, v);
        assert s == Scatter(ok[..m], v) + [0.0];
        assert s[..m] == Scatter(ok[..m], v);
        CombineScatter(ok[..m], cols[..m], v, p);
        assert Gather(ok, cols) == Gather(ok[..m], cols[..m]);
      }
    }
  }

  /** The step of `CombineScatter` where the last pixel is kept. */
  lemma {:induction false} CombineScatterKept(ok: seq<bool>, cols: seq<seq<real>>, col: seq<real>, w: seq<real>, last: real, p: nat)
    requires |ok| == |cols| && Count(ok) == |w|
    ensures Count(ok + [true]) == |w + [last]|
    ensures Combine(cols + [col], Scatter(ok + [true], w + [last]), p)
            == Combine(Gather(ok + [true], cols + [col]), w + [last], p)
    decreases |ok| + 1, 0
  {
    var m := |ok|;
    assert (ok + [true])[..m] == ok && (cols + [col])[..m] == cols && (w + [last])[..|w|] == w;
    var s := Scatter(ok + [true], w + [last]);
    assert s == Scatter(ok, w) + [last];
    CombineScatter(ok, cols, w, p);
    CombineSnoc(Gather(ok, cols), col, w, last, p);
    CombineSnoc(cols, col, Scatter(ok, w), last, p);
  }

  /** `coeffs * mask`: the coefficients with those off the mask set to zero. */
  function Keep(coeffs: seq<real>, mask: seq<bool>): (r: seq<real>)
    requires |mask| == |coeffs|
    ensures |r| == |coeffs|
    ensures forall j :: 0 <= j < |r| ==> r[j] == if mask[j] then coeffs[j] else 0.0
  {
    seq(|coeffs|, j requires 0 <= j < |coeffs| => if mask[j] then coeffs[j] else 0.0)
  }

  /** `~mask`. */
  function Invert(mask: seq<bool>): (r: seq<bool>)
    ensures |r| == |mask| && forall j :: 0 <= j < |r| ==> r[j] == !mask[j]
  {
    seq(|mask|, j requires 0 <= j < |mask| => !mask[j])
  }

  /** Splitting the coefficients by a mask splits the model: the part from
      the masked columns plus the part from the rest is the whole. */
  lemma {:induction false} CombineSplit(cols: seq<seq<real>>, coeffs: seq<real>, mask: seq<bool>, p: nat)
    requires |coeffs| == |cols| == |mask|
    ensures Combine(cols, Keep(coeffs, mask), p) + Combine(cols, Keep(coeffs, Invert(mask)), p) == Combine(cols, coeffs, p)
  {
    if cols != [] {
      var n := |cols| - 1;
      assert Keep(coeffs, mask)[..n] == Keep(coeffs[..n], mask[..n]);
      assert Keep(coeffs, Invert(mask))[..n] == Keep(coeffs[..n], Invert(mask[..n]));
      CombineSplit(cols[..n], coeffs[..n], mask[..n], p);
    }
  }

  /** `np.sum(((sci - model)**2 * ivar)[mask])`. */
  function Chi2(sci: seq<real>, model: seq<real>, ivar: seq<real>, mask: seq<bool>): real
    requires |model| == |sci| && |ivar| == |sci| && |mask| == |sci|
  {
    if sci == [] then 0.0
    else
      var n := |sci| - 1;
      var d := sci[n] - model[n];
      Chi2(sci[..n], model[..n], ivar[..n], mask[..n]) + (if mask[n] then d * d * ivar[n] else 0.0)
  }

  /** With non-negative weights chi-squared is non-negative, and it is zero
      when the model matches the data on every pixel of the mask. */
  lemma {:induction false} Chi2Bounds(sci: seq<real>, model: seq<real>, ivar: seq<real>, mask: seq<bool>)
    requires |model| == |sci| && |ivar| == |sci| && |mask| == |sci|
    requires forall k :: 0 <= k < |ivar| ==> ivar[k] >= 0.0
    ensures Chi2(sci, model, ivar, mask) >= 0.0
    ensures (forall k :: 0 <= k < |sci| && mask[k] ==> model[k] == sci[k]) ==> Chi2(sci, model, ivar, mask) == 0.0
  {
    if sci != [] {
      var n := |sci| - 1;
      var d := sci[n] - model[n];
      assert d * d >= 0.0;
      assert d * d * ivar[n] >= 0.0;
      Chi2Bounds(sci[..n], model[..n], ivar[..n], mask[..n]);
    }
  }

  /** `np.argmin`: the first position of the smallest element. */
  function ArgMin(s: seq<real>): (i: nat)
    requires |s| > 0
    ensures i < |s|
    ensures forall k :: 0 <= k < |s| ==> s[i] <= s[k]
    ensures forall k :: 0 <= k < i ==> s[i] < s[k]
  {
    if |s| == 1 then 0
    else
      var n := |s| - 1;
      var j := ArgMin(s[..n]);
      assert forall k :: 0 <= k < n ==> s[..n][k] == s[k];
      if s[n] < s[j] then n else j
  }

  /** One point of a redshift grid: the redshift, its chi-squared and its
      coefficients (a row of `zgrid`, `chi2` and `coeffs`). */
  datatype ZFit = ZFit(z: real, chi2: real, coeffs: seq<real>)

  function Chis(pts: seq<ZFit>): (r: seq<real>)
    ensures |r| == |pts| && forall k :: 0 <= k < |r| ==> r[k] == pts[k].chi2
  {
    seq(|pts|, k requires 0 <= k < |pts| => pts[k].chi2)
  }

  predicate SortedByZ(pts: seq<ZFit>)
  {
    forall k, l :: 0 <= k < l < |pts| ==> pts[k].z <= pts[l].z
  }

  /** `pt` placed into the sorted `pts` before the first point with a
      larger or equal redshift. */
  function Insert(pt: ZFit, pts: seq<ZFit>): (r: seq<ZFit>)
    requires SortedByZ(pts)
    ensures |r| == |pts| + 1 && SortedByZ(r) && multiset(r) == multiset(pts) + multiset{pt}
    ensures r[0] == if pts == [] || pt.z <= pts[0].z then pt else pts[0]
  {
    if pts == [] || pt.z <= pts[0].z then [pt] + pts
    else
      assert pts == [pts[0]] + pts[1..];
      [pts[0]] + Insert(pt, pts[1..])
  }

  /** The points in order of redshift (`np.argsort(zgrid)` applied to all
      three arrays). */
  function SortByZ(pts: seq<ZFit>): (r: seq<ZFit>)
    ensures |r| == |pts| && SortedByZ(r) && multiset(r) == multiset(pts)
  {
    if pts == [] then []
    else
      assert pts == [pts[0]] + pts[1..];
      Insert(pts[0], SortByZ(pts[1..]))
  }

  /** The coarse and the zoomed grid appended and sorted by redshift. */
  function MergeGrids(coarse: seq<ZFit>, zoom: seq<ZFit>): (r: seq<ZFit>)
    ensures SortedByZ(r) && multiset(r) == multiset(coarse + zoom)
  {
    SortByZ(coarse + zoom)
  }

  /** The point of the merged grid with the smallest chi-squared (the first
      such point in redshift order): `zbest`. */
  function BestPoint(merged: seq<ZFit>): (b: ZFit)
    requires |merged| > 0
    ensures b in merged
    ensures forall k :: 0 <= k < |merged| ==> b.chi2 <= merged[k].chi2
  {
    var c := Chis(merged);
    merged[ArgMin(c)]
  }

  /** Zooming never makes the fit worse: the best chi-squared on the merged
      grid is no larger than that of any coarse (or zoom) point, and it is
      the chi-squared of one of them. */
  lemma MergedNoWorse(coarse: seq<ZFit>, zoom: seq<ZFit>)
    requires |coarse| > 0
    ensures |MergeGrids(coarse, zoom)| > 0
    ensures BestPoint(MergeGrids(coarse, zoom)).chi2 <= MinOf(Chis(coarse))
    ensures forall k :: 0 <= k < |zoom| ==> BestPoint(MergeGrids(coarse, zoom)).chi2 <= zoom[k].chi2
    ensures BestPoint(MergeGrids(coarse, zoom)) in coarse + zoom
  {
    var m := MergeGrids(coarse, zoom);
    assert coarse[0] in multiset(m);
    var b := BestPoint(m);
    var i :| 0 <= i < |coarse| && MinOf(Chis(coarse)) == Chis(coarse)[i];
    assert coarse[i] in multiset(coarse + zoom);
    assert coarse[i] in m;
    forall k | 0 <= k < |zoom| ensures b.chi2 <= zoom[k].chi2 {
      assert zoom[k] == (coarse + zoom)[|coarse| + k];
      assert zoom[k] in multiset(m);
    }
    assert b in multiset(m);
  }

  /** The best chi-squared does not depend on how points of equal redshift
      are ordered: any arrangement of the same points has the same best. */
  lemma BestOfAnyOrder(a: seq<ZFit>, b: seq<ZFit>)
    requires |a| > 0 && multiset(a) == multiset(b)
    ensures |b| > 0 && BestPoint(a).chi2 == BestPoint(b).chi2
  {
    assert a[0] in multiset(b);
    var pa := BestPoint(a);
    var pb := BestPoint(b);
    assert pa in multiset(b) && pb in multiset(a);
  }

  /** The zoom threshold of `fit_redshift`: 0.01 when the coarse chi-squared
      range per degree of freedom exceeds 0.01 and fewer than five peaks were
      found, else 0.001. With no degrees of freedom the float quotient is
      infinite for a non-zero range and `nan` (never greater) for a flat one. */
  function ZoomThreshold(chi2: seq<real>, dof: nat, numPeaks: int): (t: real)
    requires |chi2| > 0
    ensures t == 0.01 || t == 0.001
    ensures t == 0.01 <==> numPeaks < 5 && MaxOf(chi2) - MinOf(chi2) > 0.01 * dof as real
  {
    var spread := MaxOf(chi2) - MinOf(chi2);
    var wide := if dof == 0 then spread > 0.0 else (QuotientAbove(spread, dof as real); spread / dof as real > 0.01);
    if wide && numPeaks < 5 then 0.01 else 0.001
  }

  lemma QuotientAbove(x: real, d: real)
    requires d > 0.0
    ensures x / d > 0.01 <==> x > 0.01 * d
  {
    assert x / d * d == x;
  }

  /** `key.startswith('line')`. */
  predicate IsLine(key: string)
  {
    "line" <= key
  }

  /** The continuum mask of `fit_redshift`: every coefficient (all are
      finite) except those of the templates whose key starts with `line`,
      which follow the `nSimp` polynomial columns. */
  function ContinuumMask(keys: seq<string>, nSimp: nat): (m: seq<bool>)
    ensures |m| == nSimp + |keys|
    ensures forall j :: 0 <= j < nSimp ==> m[j]
    ensures forall i :: 0 <= i < |keys| ==> (m[nSimp + i] <==> !IsLine(keys[i]))
  {
    seq(nSimp + |keys|, j requires 0 <= j < nSimp + |keys| => j < nSimp || !IsLine(keys[j - nSimp]))
  }

  /** `best_coeffs_cont[-1] = 0.`: the coefficients without the line. */
  function ZeroLast(c: seq<real>): (r: seq<real>)
    requires |c| > 0
    ensures |r| == |c| && r[|c| - 1] == 0.0
    ensures forall j :: 0 <= j < |c| - 1 ==> r[j] == c[j]
  {
    c[..|c| - 1] + [0.0]
  }

  /** The continuum model plus the line column times its coefficient is the
      best model. */
  lemma ContinuumPlusLine(cols: seq<seq<real>>, c: seq<real>, p: nat)
    requires |c| == |cols| > 0
    ensures Combine(cols, c, p) == Combine(cols, ZeroLast(c), p) + c[|c| - 1] * FlatAt(cols[|cols| - 1], p)
  {
    var n := |c| - 1;
    assert ZeroLast(c)[..n] == c[..n];
  }

  /** `np.arange(start, stop, step)` on floats: `ceil((stop - start) / step)`
      points (none when that is not positive) spaced by `step`; a zero step
      raises. */
  function RealArange(start: real, stop: real, step: real): (r: Option<seq<real>>)
    ensures r.None? <==> step == 0.0
    ensures r.Some? ==> |r.value| == Max(0, Ceil((stop - start) / step))
    ensures r.Some? ==> forall k :: 0 <= k < |r.value| ==> r.value[k] == start + k as real * step
  {
    if step == 0.0 then None
    else
      var n := Max(0, Ceil((stop - start) / step));
      Some(seq(n, k requires 0 <= k < n => start + k as real * step))
  }

  /** With a positive step every point lies in `[start, stop)`. */
  lemma RealArangeWithin(start: real, stop: real, step: real)
    requires step > 0.0
    ensures forall k :: 0 <= k < |RealArange(start, stop, step).value| ==>
      start <= RealArange(start, stop, step).value[k] < stop
  {
    var r := RealArange(start, stop, step).value;
    forall k | 0 <= k < |r| ensures start <= r[k] < stop {
      var q := (stop - start) / step;
      assert k as real < q;
      assert k as real * step < q * step;
    }
  }

  /** The entries `s[i], s[i + step], ...` while the index stays inside `s`
      (lemma `StepFromAt` gives them by position). */
  function StepFrom<T>(s: seq<T>, i: int, step: int): (r: seq<T>)
    requires step != 0
    ensures r == [] <==> i < 0 || i >= |s|
    decreases if step > 0 then |s| - i else i + 1
  {
    if i < 0 || i >= |s| then []
    else [s[i]] + StepFrom(s, i + step, step)
  }

  lemma StepShift(i: int, step: int, m: int)
    ensures i + step + (m - 1) * step == i + m * step
  {
  }

  /** Position `m` of `s[i::step]` is `s[i + m * step]`. */
  lemma {:induction false} StepFromAt<T>(s: seq<T>, i: int, step: int, m: nat)
    requires step != 0 && m < |StepFrom(s, i, step)|
    ensures 0 <= i + m * step < |s| && StepFrom(s, i, step)[m] == s[i + m * step]
    decreases m
  {
    if m > 0 {
      StepShift(i, step, m);
      StepFromAt(s, i + step, step, m - 1);
    }
  }

  /** Python's `s[start::step]`: the start is normalised as for a slice (from
      the end when negative, clamped to the ends), and a zero step raises. */
  function StepSlice<T>(s: seq<T>, start: int, step: int): (r: Option<seq<T>>)
    ensures r.None? <==> step == 0
    ensures step > 0 && 0 <= start ==> r == Some(StepFrom(s, start, step))
  {
    if step == 0 then None
    else if step > 0 then Some(StepFrom(s, ClipBound(start, |s|), step))
    else
      var n := |s|;
      var i := if start < 0 then (if start + n < 0 then -1 else start + n) else if start >= n then n - 1 else start;
      Some(StepFrom(s, i, step))
  }

  /** `waves[skip/2::skip]` with a positive `skip` keeps exactly the points
      whose position is `skip/2` plus a multiple of `skip` (Python 2 floor
      division). */
  lemma {:induction false} LineCentersSelect(waves: seq<real>, skip: int, k: int)
    requires skip > 0 && skip / 2 <= k < |waves| && (k - skip / 2) % skip == 0
    ensures (k - skip / 2) / skip < |StepSlice(waves, skip / 2, skip).value|
    ensures StepSlice(waves, skip / 2, skip).value[(k - skip / 2) / skip] == waves[k]
  {
    var h := skip / 2;
    var m := (k - h) / skip;
    ExactQuotient(k - h, skip);
    StepFromCovers(waves, h, skip, m);
  }

  /** A non-negative multiple of `b` is `b` times its quotient. */
  lemma ExactQuotient(a: int, b: int)
    requires a >= 0 && b > 0 && a % b == 0
    ensures a / b >= 0 && (a / b) * b == a
  {
  }

  lemma {:induction false} StepFromCovers<T>(s: seq<T>, i: int, step: int, m: nat)
    requires step > 0 && 0 <= i && i + m * step < |s|
    ensures m < |StepFrom(s, i, step)| && StepFrom(s, i, step)[m] == s[i + m * step]
    decreases m
  {
    if m > 0 {
      StepShift(i, step, m);
      assert (m - 1) * step >= 0;
      StepFromCovers(s, i + step, step, m - 1);
    }
  }
}
