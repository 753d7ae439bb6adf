/** The integer bookkeeping that `GrismDisperser.__init__` derives once per
    beam (one spectral order of one object): the 2D beam shape, the integer
    trace rows and their fractions, the flattened row-major lookup into the
    beam buffer, the sorted-wavelength permutation and the parent-frame slices.
    The calibration itself (trace, wavelengths, throughput curve) and the
    flux-conserving interpolator are supplied from outside. */
module BeamGeometry {
  import opened Common

  /** Flux-conserving 1D resampling `interp_conserve_c(x_new, x_old, y_old)`. */
  type Interp = (seq<real>, seq<real>, seq<real>) -> seq<real>

  /** Instrument configuration (aXe format): per-order offsets, throughput
      curves, faint limits, and the trace solver
      `get_beam_trace(beam, x, y, dx) -> (ytrace, wavelength)`. */
  datatype GrismConf = GrismConf(
    beams: seq<string>,
    dxlam: map<string, seq<int>>,
    sens: map<string, (seq<real>, seq<real>)>,
    mmagExtract: map<string, real>,
    trace: (string, real, real, seq<real>) -> (seq<real>, seq<real>))

  datatype Geometry = Geometry(
    sh: (int, int),              // shape of the direct thumbnail
    origin: (int, int),          // lower-left pixel (y, x) in the detector frame
    dx: seq<int>,                // dispersion offsets along the trace
    ytraceBeam: seq<real>,       // trace centre at each offset (times grow)
    lamBeam: seq<real>,          // wavelength at each offset
    lamSort: seq<int>,           // permutation that sorts lamBeam
    sensitivityBeam: seq<real>,
    dyc: seq<int>,               // integer trace row at each offset
    yfracBeam: seq<real>,        // fractional trace row at each offset
    shBeam: (int, int),          // shape of the 2D spectrum
    x0: (int, int),              // thumbnail centre pixel
    flatIndex: seq<int>,         // row-major position of each trace pixel
    dxfull: seq<int>,            // offsets of every column of the 2D spectrum
    ytrace: seq<real>,
    lam: seq<real>,
    sensitivity: seq<real>,
    slyParent: (int, int),       // [start, stop) rows in the detector frame
    slxParent: (int, int))       // [start, stop) columns in the detector frame

  /** The internal consistency every constructed beam has. */
  ghost predicate WellFormed(g: Geometry)
  {
    && g.sh.0 >= 0 && g.sh.1 >= 0
    && |g.dx| >= 1
    && g.shBeam == (g.sh.0, g.sh.1 + |g.dx|)
    && g.x0 == (g.sh.0 / 2, g.sh.1 / 2)
    && |g.ytraceBeam| == |g.dx| && |g.lamBeam| == |g.dx| && |g.sensitivityBeam| == |g.dx|
    && |g.dyc| == |g.dx| && |g.yfracBeam| == |g.dx| && |g.flatIndex| == |g.dx|
    && IsPermutation(g.lamSort, |g.dx|)
    && (forall k :: 0 <= k < |g.flatIndex| ==> 0 <= g.flatIndex[k] < g.shBeam.0 * g.shBeam.1)
    && |g.dxfull| == g.shBeam.1
    && |g.ytrace| == g.shBeam.1 && |g.lam| == g.shBeam.1 && |g.sensitivity| == g.shBeam.1
    && g.slyParent == (g.origin.0, g.origin.0 + g.sh.0)
    && g.slxParent == (g.origin.1 + g.dx[0], g.origin.1 + g.dx[0] + g.shBeam.1)
  }

  /** Integer trace row `int(ytrace + 20) - 20 + 1`. The +20 bias makes
      truncation act as a floor for traces above -20; below that it acts as
      a ceiling, which agrees with floor only on whole numbers. */
  function TraceRow(y: real): (r: int)
    ensures y >= -20.0 ==> r == y.Floor + 1
    ensures r == y.Floor + 1 <==> (y >= -20.0 || y == y.Floor as real)
  {
    Trunc(y + 20.0) - 20 + 1
  }

  /** Sub-pixel part of the trace, `ytrace - floor(ytrace)`. */
  function TraceFraction(y: real): (f: real)
    ensures 0.0 <= f < 1.0
    ensures (y - f).Floor == y.Floor && y - f == y.Floor as real
  {
    y - y.Floor as real
  }

  /** `TraceRow` of every trace value. */
  function TraceRows(ys: seq<real>): (r: seq<int>)
    ensures |r| == |ys|
    ensures forall k {:trigger r[k]} :: 0 <= k < |ys| ==> r[k] == TraceRow(ys[k])
    ensures forall k {:trigger r[k]} :: 0 <= k < |ys| && ys[k] >= -20.0 ==> r[k] == ys[k].Floor + 1
  {
    seq(|ys|, k requires 0 <= k < |ys| => TraceRow(ys[k]))
  }

  /** `TraceFraction` of every trace value. */
  function TraceFractions(ys: seq<real>): (r: seq<real>)
    ensures |r| == |ys|
    ensures forall k {:trigger r[k]} :: 0 <= k < |ys| ==> 0.0 <= r[k] < 1.0 && ys[k] - r[k] == ys[k].Floor as real
  {
    seq(|ys|, k requires 0 <= k < |ys| => TraceFraction(ys[k]))
  }

  /** Just below -20 the biased truncation is one row above floor + 1. */
  lemma TraceRowBelowBias()
    ensures TraceRow(-20.5) == -19 && (-20.5).Floor + 1 == -20
  {
    assert (-20.5).Floor == -21;
  }

  /** A numpy index `i` on an axis of length `n`: negative values count from
      the end; anything else outside the axis raises `IndexError`. */
  function WrapIndex(i: int, n: int): (r: Option<int>)
    ensures r.Some? <==> -n <= i < n
    ensures r.Some? ==> 0 <= r.value < n
    ensures 0 <= i < n ==> r == Some(i)
  {
    if 0 <= i < n then Some(i) else if -n <= i < 0 then Some(i + n) else None
  }

  /** `np.arange(lo, hi)` on integers. */
  function IntArange(lo: int, hi: int): (s: seq<int>)
    ensures |s| == if hi > lo then hi - lo else 0
    ensures forall k :: 0 <= k < |s| ==> s[k] == lo + k
  {
    if hi > lo then seq(hi - lo, k => lo + k) else []
  }

  /** Every entry of `p` is an index below `n`. */
  predicate IndicesBelow(p: seq<int>, n: int)
  {
    forall k :: 0 <= k < |p| ==> 0 <= p[k] < n
  }

  /** The keys `s[p[k]]` do not decrease along `p`. */
  predicate OrderedByKey(s: seq<real>, p: seq<int>)
    requires IndicesBelow(p, |s|)
  {
    forall k, l :: 0 <= k < l < |p| ==> s[p[k]] <= s[p[l]]
  }

  /** No index occurs twice in `p`. */
  predicate DistinctIndices(p: seq<int>)
  {
    forall k, l :: 0 <= k < l < |p| ==> p[k] != p[l]
  }

  /** Inserts index `i` into `p`, which is ordered by key `s`, after every
      index whose key is not larger (one step of a stable argsort). */
  function InsertByKey(s: seq<real>, p: seq<int>, i: int): (r: seq<int>)
    requires 0 <= i < |s| && IndicesBelow(p, |s|) && OrderedByKey(s, p)
    ensures |r| == |p| + 1
    ensures forall x :: x in r <==> x in p || x == i
    ensures IndicesBelow(r, |s|) && OrderedByKey(s, r)
    ensures i !in p && DistinctIndices(p) ==> DistinctIndices(r)
  {
    if p == [] then [i]
    else if s[i] < s[p[0]] then
      ConsByKey(s, i, p);
      [i] + p
    else
      var tail := p[1..];
      assert forall x :: x in p <==> x == p[0] || x in tail;
      assert forall k :: 0 <= k < |tail| ==> tail[k] == p[k + 1];
      var rest := InsertByKey(s, tail, i);
      forall k | 0 <= k < |rest|
        ensures s[p[0]] <= s[rest[k]]
      {
        assert rest[k] in tail || rest[k] == i;
      }
      ConsByKey(s, p[0], rest);
      [p[0]] + rest
  }

  /** Putting an index with the smallest key in front keeps an ordering by
      key, and keeps the indices distinct when it is new. */
  lemma ConsByKey(s: seq<real>, h: int, rest: seq<int>)
    requires 0 <= h < |s| && IndicesBelow(rest, |s|) && OrderedByKey(s, rest)
    requires forall k :: 0 <= k < |rest| ==> s[h] <= s[rest[k]]
    ensures forall x :: x in [h] + rest <==> x == h || x in rest
    ensures IndicesBelow([h] + rest, |s|) && OrderedByKey(s, [h] + rest)
    ensures h !in rest && DistinctIndices(rest) ==> DistinctIndices([h] + rest)
  {
    var r := [h] + rest;
    assert forall k :: 1 <= k < |r| ==> r[k] == rest[k - 1];
    forall k, l | 0 <= k < l < |r| ensures s[r[k]] <= s[r[l]] {
      assert r[l] == rest[l - 1];
    }
    if h !in rest && DistinctIndices(rest) {
      forall k, l | 0 <= k < l < |r| ensures r[k] != r[l] {
        assert r[l] == rest[l - 1] && r[l] in rest;
      }
    }
  }

  /** The first `n` indices of `s`, ordered by key. */
  function ArgSortPrefix(s: seq<real>, n: nat): (p: seq<int>)
    requires n <= |s|
    ensures |p| == n
    ensures forall x :: x in p <==> 0 <= x < n
    ensures IndicesBelow(p, n) && IndicesBelow(p, |s|) && OrderedByKey(s, p) && DistinctIndices(p)
  {
    if n == 0 then []
    else
      var prev := ArgSortPrefix(s, n - 1);
      var p := InsertByKey(s, prev, n - 1);
      assert forall k :: 0 <= k < |p| ==> p[k] in p;
      p
  }

  /** `np.argsort`: a permutation of the indices that orders `s`. */
  function ArgSort(s: seq<real>): (p: seq<int>)
    ensures IsPermutation(p, |s|)
    ensures forall k, l :: 0 <= k < l < |p| ==> s[p[k]] <= s[p[l]]
  {
    ArgSortPrefix(s, |s|)
  }

  /** `s[p]`: the elements of `s` taken in the order `p`. */
  function Permute(s: seq<real>, p: seq<int>): (r: seq<real>)
    requires forall k :: 0 <= k < |p| ==> 0 <= p[k] < |s|
    ensures |r| == |p| && forall k {:trigger r[k]} :: 0 <= k < |p| ==> r[k] == s[p[k]]
  {
    seq(|p|, k requires 0 <= k < |p| => s[p[k]])
  }

  /** numpy's fancy assignment `base[p] = v` for distinct indices `p`. */
  function ScatterInto(base: seq<real>, p: seq<int>, v: seq<real>): (r: seq<real>)
    requires |p| == |v|
    requires forall k :: 0 <= k < |p| ==> 0 <= p[k] < |base|
    requires forall k, l :: 0 <= k < l < |p| ==> p[k] != p[l]
    ensures |r| == |base|
    ensures forall k :: 0 <= k < |p| ==> r[p[k]] == v[k]
    ensures forall j :: 0 <= j < |base| && j !in p ==> r[j] == base[j]
    decreases |p|
  {
    if p == [] then base
    else
      var rest := ScatterInto(base[p[0] := v[0]], p[1..], v[1..]);
      assert forall k :: 1 <= k < |p| ==> p[k] == p[1..][k - 1] && v[k] == v[1..][k - 1];
      assert p[0] !in p[1..];
      rest
  }

  /** `np.abs(np.append(lam[1] - lam[0], np.diff(lam)))`. */
  function BinWidths(lam: seq<real>): (dl: seq<real>)
    requires |lam| >= 2
    ensures |dl| == |lam|
    ensures forall k {:trigger dl[k]} :: 1 <= k < |lam| ==> dl[k] == Abs(lam[k] - lam[k - 1])
    ensures dl[0] == dl[1]
  {
    seq(|lam|, k requires 0 <= k < |lam| => if k == 0 then Abs(lam[1] - lam[0]) else Abs(lam[k] - lam[k - 1]))
  }

  function Abs(x: real): real { if x < 0.0 then -x else x }

  /** A curve resampled onto the (unsorted) wavelengths `lam`: interpolate on
      the sorted wavelengths and scatter back through the sort permutation,
      `y[so] = interp(lam[so], x_old, y_old)`. `None` when the resampled
      curve has the wrong length (numpy cannot assign it). */
  function ResampleSorted(lam: seq<real>, so: seq<int>, xOld: seq<real>, yOld: seq<real>, interp: Interp): (r: Option<seq<real>>)
    requires IsPermutation(so, |lam|)
    ensures r.Some? <==> |interp(Permute(lam, so), xOld, yOld)| == |lam|
    ensures r.Some? ==> |r.value| == |lam|
    ensures r.Some? ==> forall k :: 0 <= k < |so| ==> r.value[so[k]] == interp(Permute(lam, so), xOld, yOld)[k]
  {
    var v := interp(Permute(lam, so), xOld, yOld);
    if |v| != |lam| then None else Some(ScatterInto(seq(|lam|, k => 0.0), so, v))
  }

  /** Sensitivity on a wavelength grid: the throughput curve resampled in
      sorted order, times `1e-17` and the bin width. Returns the permutation
      used, too. `None` where the source raises (fewer than two wavelengths,
      or a resampled curve of the wrong length). */
  function SensitivityOn(lam: seq<real>, curve: (seq<real>, seq<real>), interp: Interp): (r: Option<(seq<real>, seq<int>)>)
    ensures r.Some? ==> |lam| >= 2 && |r.value.0| == |lam| && IsPermutation(r.value.1, |lam|)
    ensures r.Some? ==> forall k, l :: 0 <= k < l < |lam| ==> lam[r.value.1[k]] <= lam[r.value.1[l]]
  {
    if |lam| < 2 then None
    else
      var so := ArgSort(lam);
      match ResampleSorted(lam, so, curve.0, curve.1, interp)
      case None => None
      case Some(ys) => Some((WidthScaled(ys, BinWidths(lam)), so))
  }

  /** `ys * 1e-17 * dl`, elementwise. */
  function WidthScaled(ys: seq<real>, dl: seq<real>): (r: seq<real>)
    requires |ys| == |dl|
    ensures |r| == |ys| && forall k {:trigger r[k]} :: 0 <= k < |ys| ==> r[k] == ys[k] * (1.0e-17 * dl[k])
  {
    seq(|ys|, k requires 0 <= k < |ys| => ys[k] * (1.0e-17 * dl[k]))
  }

  /** Row-major position `row * cols + col` of a numpy index pair, or `None`
      where numpy raises `IndexError`. */
  function FlatPosition(row: int, col: int, rows: int, cols: int): (r: Option<int>)
    ensures r.Some? <==> (-rows <= row < rows && -cols <= col < cols)
    ensures r.Some? ==> 0 <= r.value < rows * cols
    ensures 0 <= row < rows && 0 <= col < cols ==> r == Some(row * cols + col)
  {
    match (WrapIndex(row, rows), WrapIndex(col, cols))
    case (Some(i), Some(j)) =>
      FlatBound(i, j, rows, cols);
      Some(i * cols + j)
    case _ => None
  }

  /** `self.idx[dyc + x0[0], dxpix]` for all trace offsets, or `None` when
      one index pair is out of range. */
  function FlatIndices(dyc: seq<int>, dxpix: seq<int>, rows: int, cols: int): (r: Option<seq<int>>)
    requires |dyc| == |dxpix|
    ensures r.Some? <==> forall k :: 0 <= k < |dyc| ==> FlatPosition(dyc[k], dxpix[k], rows, cols).Some?
    ensures r.Some? ==> (|r.value| == |dyc|
      && forall k {:trigger r.value[k]} :: 0 <= k < |dyc| ==> Some(r.value[k]) == FlatPosition(dyc[k], dxpix[k], rows, cols))
  {
    if forall k :: 0 <= k < |dyc| ==> FlatPosition(dyc[k], dxpix[k], rows, cols).Some? then
      Some(seq(|dyc|, k requires 0 <= k < |dyc| => FlatPosition(dyc[k], dxpix[k], rows, cols).value))
    else None
  }

  /** The per-offset relations between the trace and the buffer lookup that
      the constructor establishes: integer rows are floor + 1 above the bias,
      fractions lie in [0, 1), each in-range trace pixel maps to its row-major
      position, and the full-width offsets are consecutive. */
  ghost predicate TraceConsistent(g: Geometry)
    requires WellFormed(g)
  {
    && (forall k :: 0 <= k < |g.dx| ==> g.dyc[k] == TraceRow(g.ytraceBeam[k]))
    && (forall k :: 0 <= k < |g.dx| && g.ytraceBeam[k] >= -20.0 ==> g.dyc[k] == g.ytraceBeam[k].Floor + 1)
    && (forall k :: 0 <= k < |g.dx| ==> 0.0 <= g.yfracBeam[k] < 1.0)
    && (forall k :: 0 <= k < |g.dx| && 0 <= g.dyc[k] + g.x0.0 < g.shBeam.0 && 0 <= g.dx[k] - g.dx[0] + g.x0.1 < g.shBeam.1
          ==> g.flatIndex[k] == (g.dyc[k] + g.x0.0) * g.shBeam.1 + (g.dx[k] - g.dx[0] + g.x0.1))
    && (forall k :: 0 <= k < |g.dxfull| ==> g.dxfull[k] == k + g.dx[0] - g.x0.1)
  }

  /** The dispersion offsets of an order: the configured list, or with
      `grow > 1` every integer between its scaled ends. `None` where the
      source raises: an unknown order, division by `grow == 0`, or an empty
      offset list (indexing `dx[0]`). */
  function BeamOffsets(conf: GrismConf, beam: string, grow: int): (r: Option<seq<int>>)
    ensures r.Some? <==> beam in conf.dxlam && beam in conf.sens && grow != 0 && |conf.dxlam[beam]| > 0
                          && (grow > 1 ==> conf.dxlam[beam][0] * grow < conf.dxlam[beam][|conf.dxlam[beam]| - 1] * grow)
    ensures r.Some? ==> |r.value| >= 1
    ensures r.Some? ==> r.value == (if grow > 1 then IntArange(conf.dxlam[beam][0] * grow, conf.dxlam[beam][|conf.dxlam[beam]| - 1] * grow)
                                    else conf.dxlam[beam])
  {
    if beam !in conf.dxlam || beam !in conf.sens || grow == 0 then None
    else
      var base := conf.dxlam[beam];
      if |base| == 0 then None
      else
        var dx := if grow > 1 then IntArange(base[0] * grow, base[|base| - 1] * grow) else base;
        if |dx| == 0 then None else Some(dx)
  }

  /** `get_beam_trace` at the offsets `at`, with the trace scaled by `grow`;
      `None` when the solver returns arrays of the wrong length. */
  function ScaledTrace(conf: GrismConf, beam: string, tx: real, ty: real, at: seq<real>, grow: int): (r: Option<(seq<real>, seq<real>)>)
    ensures r.Some? <==> |conf.trace(beam, tx, ty, at).0| == |at| && |conf.trace(beam, tx, ty, at).1| == |at|
    ensures r.Some? ==> |r.value.0| == |at| && |r.value.1| == |at|
    ensures r.Some? ==> r.value.1 == conf.trace(beam, tx, ty, at).1
    ensures r.Some? ==> forall k {:trigger r.value.0[k]} :: 0 <= k < |at| ==> r.value.0[k] == conf.trace(beam, tx, ty, at).0[k] * grow as real
  {
    var t := conf.trace(beam, tx, ty, at);
    if |t.0| != |at| || |t.1| != |at| then None
    else Some((seq(|at|, k requires 0 <= k < |at| => t.0[k] * grow as real), t.1))
  }

  /** `dyc + x0[0]`: the buffer row of each trace pixel. */
  function BufferRows(ytb: seq<real>, row0: int): (r: seq<int>)
    ensures |r| == |ytb| && forall k {:trigger r[k]} :: 0 <= k < |ytb| ==> r[k] == TraceRow(ytb[k]) + row0
  {
    seq(|ytb|, k requires 0 <= k < |ytb| => TraceRow(ytb[k]) + row0)
  }

  /** `dx - dx[0] + x0[1]`: the buffer column of each trace pixel. */
  function BufferCols(dx: seq<int>, col0: int): (r: seq<int>)
    requires |dx| >= 1
    ensures |r| == |dx| && forall k {:trigger r[k]} :: 0 <= k < |dx| ==> r[k] == dx[k] - dx[0] + col0
  {
    seq(|dx|, k requires 0 <= k < |dx| => dx[k] - dx[0] + col0)
  }

  /** What the looked-up positions satisfy: inside the buffer, and the
      row-major formula wherever the index pair needs no wrap-around. */
  /** Every trace pixel's buffer position lies inside the `rows` x `cols`
      buffer, and it is the row-major position of the trace row and the
      column of its offset wherever those fall inside the buffer. */
  ghost predicate FlatLayout(flat: seq<int>, ytb: seq<real>, dx: seq<int>, rows: int, cols: int, x0: (int, int))
    requires |dx| >= 1 && |ytb| == |dx|
  {
    && |flat| == |dx|
    && (forall k :: 0 <= k < |flat| ==> 0 <= flat[k] < rows * cols)
    && (forall k :: 0 <= k < |dx| && 0 <= TraceRows(ytb)[k] + x0.0 < rows && 0 <= dx[k] - dx[0] + x0.1 < cols
          ==> flat[k] == (TraceRows(ytb)[k] + x0.0) * cols + (dx[k] - dx[0] + x0.1))
  }

  lemma FlatIndicesInRange(ytb: seq<real>, dx: seq<int>, flat: seq<int>, rows: int, cols: int, x0: (int, int))
    requires |dx| >= 1 && |ytb| == |dx|
    requires FlatIndices(BufferRows(ytb, x0.0), BufferCols(dx, x0.1), rows, cols) == Some(flat)
    ensures FlatLayout(flat, ytb, dx, rows, cols, x0)
  {
    var br := BufferRows(ytb, x0.0);
    var bc := BufferCols(dx, x0.1);
    forall k | 0 <= k < |flat|
      ensures 0 <= flat[k] < rows * cols
      ensures br[k] == TraceRows(ytb)[k] + x0.0 && bc[k] == dx[k] - dx[0] + x0.1
    {
      assert Some(flat[k]) == FlatPosition(br[k], bc[k], rows, cols);
    }
  }

  /** Puts the computed pieces together; everything here is integer
      bookkeeping that cannot fail. */
  function Assemble(sh: (nat, nat), origin: (int, int), dx: seq<int>, ytb: seq<real>, lamb: seq<real>,
                    sensb: (seq<real>, seq<int>), flat: seq<int>,
                    ytrace: seq<real>, lam: seq<real>, sens: seq<real>): (g: Geometry)
    requires |dx| >= 1 && |ytb| == |dx| && |lamb| == |dx| && |sensb.0| == |dx| && IsPermutation(sensb.1, |dx|)
    requires FlatLayout(flat, ytb, dx, sh.0, sh.1 + |dx|, (sh.0 / 2, sh.1 / 2))
    requires |ytrace| == sh.1 + |dx| && |lam| == sh.1 + |dx| && |sens| == sh.1 + |dx|
    ensures WellFormed(g) && TraceConsistent(g)
    ensures g.sh == (sh.0 as int, sh.1 as int) && g.origin == origin && g.dx == dx
    ensures g.ytraceBeam == ytb && g.lamBeam == lamb && g.sensitivityBeam == sensb.0 && g.lamSort == sensb.1
    ensures g.ytrace == ytrace && g.lam == lam && g.sensitivity == sens && g.flatIndex == flat
  {
    var rows: int := sh.0;
    var cols: int := sh.1 + |dx|;
    var x0 := (sh.0 / 2, sh.1 / 2);
    var dxfull := IntArange(dx[0] - x0.1, dx[0] - x0.1 + cols);
    var dyc := TraceRows(ytb);
    var g := Geometry(
      (sh.0 as int, sh.1 as int), origin, dx, ytb, lamb, sensb.1, sensb.0,
      dyc, TraceFractions(ytb),
      (rows, cols), x0, flat, dxfull, ytrace, lam, sens,
      (origin.0, origin.0 + sh.0),
      (origin.1 + dxfull[0] + x0.1, origin.1 + dxfull[cols - 1] + x0.1 + 1));
    AssembledConsistent(g);
    g
  }

  /** The per-offset facts `TraceConsistent` needs, read off the trace
      functions the fields were built with. */
  lemma AssembledConsistent(g: Geometry)
    requires WellFormed(g)
    requires g.dyc == TraceRows(g.ytraceBeam) && g.yfracBeam == TraceFractions(g.ytraceBeam)
    requires forall k :: 0 <= k < |g.dx| && 0 <= TraceRows(g.ytraceBeam)[k] + g.x0.0 < g.shBeam.0 && 0 <= g.dx[k] - g.dx[0] + g.x0.1 < g.shBeam.1
               ==> g.flatIndex[k] == (TraceRows(g.ytraceBeam)[k] + g.x0.0) * g.shBeam.1 + (g.dx[k] - g.dx[0] + g.x0.1)
    requires forall k :: 0 <= k < |g.dxfull| ==> g.dxfull[k] == k + g.dx[0] - g.x0.1
    ensures TraceConsistent(g)
  {
  }

  /** The constructor from the anchor trace onwards: the buffer lookup, the
      full-width trace and its sensitivity. */
  function GeometryFromAnchors(sh: (nat, nat), origin: (int, int), xcenter: real, tx: real, ty: real,
                               grow: int, beam: string, conf: GrismConf, interp: Interp,
                               dx: seq<int>, anchors: (seq<real>, seq<real>), sensb: (seq<real>, seq<int>)): (r: Option<Geometry>)
    requires |dx| >= 1 && |anchors.0| == |dx| && |anchors.1| == |dx| && |sensb.0| == |dx| && IsPermutation(sensb.1, |dx|)
    requires beam in conf.sens && grow != 0
    ensures r.None? <==>
      || FlatIndices(BufferRows(anchors.0, sh.0 / 2), BufferCols(dx, sh.1 / 2), sh.0, sh.1 + |dx|).None?
      || ScaledTrace(conf, beam, tx, ty, FullAt(sh, dx, xcenter, grow), grow).None?
      || SensitivityOn(ScaledTrace(conf, beam, tx, ty, FullAt(sh, dx, xcenter, grow), grow).value.1, conf.sens[beam], interp).None?
    ensures r.Some? ==> WellFormed(r.value) && TraceConsistent(r.value)
    ensures r.Some? ==> r.value.sh == (sh.0 as int, sh.1 as int) && r.value.origin == origin && r.value.dx == dx
    ensures r.Some? ==>
      && r.value.ytraceBeam == anchors.0 && r.value.lamBeam == anchors.1
      && r.value.sensitivityBeam == sensb.0 && r.value.lamSort == sensb.1
      && Some(r.value.flatIndex) == FlatIndices(BufferRows(anchors.0, sh.0 / 2), BufferCols(dx, sh.1 / 2), sh.0, sh.1 + |dx|)
      && Some((r.value.ytrace, r.value.lam)) == ScaledTrace(conf, beam, tx, ty, FullAt(sh, dx, xcenter, grow), grow)
      && r.value.sensitivity == SensitivityOn(r.value.lam, conf.sens[beam], interp).value.0
  {
    match FlatIndices(BufferRows(anchors.0, sh.0 / 2), BufferCols(dx, sh.1 / 2), sh.0, sh.1 + |dx|)
    case None => None
    case Some(flat) =>
      FlatIndicesInRange(anchors.0, dx, flat, sh.0, sh.1 + |dx|, (sh.0 / 2, sh.1 / 2));
      match ScaledTrace(conf, beam, tx, ty, FullAt(sh, dx, xcenter, grow), grow)
      case None => None
      case Some(full) =>
        match SensitivityOn(full.1, conf.sens[beam], interp)
        case None => None
        case Some(sensf) =>
          Some(Assemble(sh, origin, dx, anchors.0, anchors.1, sensb, flat, full.0, full.1, sensf.0))
  }

  /** The offsets of the full-width trace, one per column of the beam buffer,
      as the trace solver receives them. */
  function FullAt(sh: (nat, nat), dx: seq<int>, xcenter: real, grow: int): (r: seq<real>)
    requires |dx| >= 1 && grow != 0
    ensures |r| == sh.1 + |dx|
    ensures forall k {:trigger r[k]} :: 0 <= k < |r| ==> r[k] * grow as real == (k + dx[0] - sh.1 / 2) as real + xcenter - 0.5
  {
    OffsetsAt(seq(sh.1 + |dx|, k => k + dx[0] - sh.1 / 2), xcenter - 0.5, grow)
  }

  /** `(offsets + shift) / grow` as the trace solver receives them. */
  function OffsetsAt(offsets: seq<int>, shift: real, grow: int): (r: seq<real>)
    requires grow != 0
    ensures |r| == |offsets|
    ensures forall k {:trigger r[k]} :: 0 <= k < |offsets| ==> r[k] * grow as real == offsets[k] as real + shift
  {
    seq(|offsets|, k requires 0 <= k < |offsets| => (offsets[k] as real + shift) / grow as real)
  }

  /** `GrismDisperser.__init__` up to the point where the buffers are
      allocated. `None` stands for every way the constructor raises: an
      order missing from the configuration, an empty offset list, `grow == 0`,
      a trace of the wrong length, fewer than two wavelengths, or a trace
      pixel outside the beam buffer. */
  function MakeGeometry(sh: (nat, nat), origin: (int, int), xcenter: real, ycenter: real,
                        pad: int, grow: int, beam: string, conf: GrismConf, interp: Interp): (r: Option<Geometry>)
    ensures r.None? <==> BeamOffsets(conf, beam, grow).None?
                         || GeometryFromOffsets(sh, origin, xcenter, ycenter, pad, grow, beam, conf, interp, BeamOffsets(conf, beam, grow).value).None?
    ensures r.Some? ==> WellFormed(r.value) && TraceConsistent(r.value)
    ensures r.Some? ==> r.value.sh == (sh.0 as int, sh.1 as int) && r.value.origin == origin
    ensures r.Some? ==> BeamOffsets(conf, beam, grow) == Some(r.value.dx)
    ensures r.Some? ==>
      && Some((r.value.ytraceBeam, r.value.lamBeam))
           == ScaledTrace(conf, beam, Unscaled(sh.1 / 2 + origin.1, xcenter, pad, grow), Unscaled(sh.0 / 2 + origin.0, ycenter, pad, grow),
                          OffsetsAt(r.value.dx, -0.5, grow), grow)
      && Some((r.value.sensitivityBeam, r.value.lamSort)) == SensitivityOn(r.value.lamBeam, conf.sens[beam], interp)
  {
    match BeamOffsets(conf, beam, grow)
    case None => None
    case Some(dx) => GeometryFromOffsets(sh, origin, xcenter, ycenter, pad, grow, beam, conf, interp, dx)
  }

  /** A detector position in the unpadded, ungrown frame,
      `(pixel + centre - pad) / grow`. */
  function Unscaled(pixel: int, center: real, pad: int, grow: int): (r: real)
    requires grow != 0
    ensures r * grow as real == pixel as real + center - pad as real
  {
    (pixel as real + center - pad as real) / grow as real
  }

  /** The constructor from the offsets onwards: the trace and sensitivity
      at the offsets, evaluated at the thumbnail centre in the unpadded,
      ungrown frame. */
  function GeometryFromOffsets(sh: (nat, nat), origin: (int, int), xcenter: real, ycenter: real,
                               pad: int, grow: int, beam: string, conf: GrismConf, interp: Interp,
                               dx: seq<int>): (r: Option<Geometry>)
    requires |dx| >= 1 && beam in conf.sens && grow != 0
    ensures
      var tx := Unscaled(sh.1 / 2 + origin.1, xcenter, pad, grow);
      var ty := Unscaled(sh.0 / 2 + origin.0, ycenter, pad, grow);
      var anchors := ScaledTrace(conf, beam, tx, ty, OffsetsAt(dx, -0.5, grow), grow);
      r.None? <==>
        || anchors.None?
        || SensitivityOn(anchors.value.1, conf.sens[beam], interp).None?
        || GeometryFromAnchors(sh, origin, xcenter, tx, ty, grow, beam, conf, interp, dx, anchors.value,
                               SensitivityOn(anchors.value.1, conf.sens[beam], interp).value).None?
    ensures r.Some? ==> WellFormed(r.value) && TraceConsistent(r.value)
    ensures r.Some? ==> r.value.sh == (sh.0 as int, sh.1 as int) && r.value.origin == origin && r.value.dx == dx
    ensures r.Some? ==>
      var tx := Unscaled(sh.1 / 2 + origin.1, xcenter, pad, grow);
      var ty := Unscaled(sh.0 / 2 + origin.0, ycenter, pad, grow);
      && Some((r.value.ytraceBeam, r.value.lamBeam)) == ScaledTrace(conf, beam, tx, ty, OffsetsAt(dx, -0.5, grow), grow)
      && Some((r.value.sensitivityBeam, r.value.lamSort)) == SensitivityOn(r.value.lamBeam, conf.sens[beam], interp)
      && Some((r.value.ytrace, r.value.lam)) == ScaledTrace(conf, beam, tx, ty, FullAt(sh, dx, xcenter, grow), grow)
  {
    var tx := Unscaled(sh.1 / 2 + origin.1, xcenter, pad, grow);
    var ty := Unscaled(sh.0 / 2 + origin.0, ycenter, pad, grow);
    match ScaledTrace(conf, beam, tx, ty, OffsetsAt(dx, -0.5, grow), grow)
    case None => None
    case Some(anchors) =>
      match SensitivityOn(anchors.1, conf.sens[beam], interp)
      case None => None
      case Some(sensb) =>
        var g := GeometryFromAnchors(sh, origin, xcenter, tx, ty, grow, beam, conf, interp, dx, anchors, sensb);
        g
  }
}
