/** `ImageData`: one detector image (science, uncertainty, data quality and
    an optional reference image, all of one shape) with its placement in
    the detector frame and the header keywords that follow the arrays. */
module Images {
  import opened Common
  import opened DataQuality

  /** The contents of a 2D array as a grid of rows. */
  function GridOf(a: array2<real>): (g: seq<seq<real>>)
    reads a
    ensures IsGrid(g, a.Length0, a.Length1)
    ensures forall i, j :: 0 <= i < a.Length0 && 0 <= j < a.Length1 ==> g[i][j] == a[i, j]
  {
    seq(a.Length0, i requires 0 <= i < a.Length0 reads a => seq(a.Length1, j reads a requires 0 <= i < a.Length0 && 0 <= j < a.Length1 => a[i, j]))
  }

  /** `sci < sigma*err` along one row. */
  function BadRow(s: seq<real>, e: seq<real>, sigma: real): (m: seq<bool>)
    requires |s| == |e|
    ensures |m| == |s|
    ensures forall k :: 0 <= k < |s| ==> (m[k] <==> s[k] < sigma * e[k])
  {
    seq(|s|, k requires 0 <= k < |s| => s[k] < sigma * e[k])
  }

  /** The mask `bad = SCI < sigma*ERR`. */
  function BadMask(s: seq<seq<real>>, e: seq<seq<real>>, sigma: real): (m: seq<seq<bool>>)
    requires |s| == |e| && forall i :: 0 <= i < |s| ==> |s[i]| == |e[i]|
    ensures |m| == |s|
    ensures forall i :: 0 <= i < |s| ==> m[i] == BadRow(s[i], e[i], sigma)
  {
    seq(|s|, i requires 0 <= i < |s| => BadRow(s[i], e[i], sigma))
  }

  /** Number of `true` cells of a mask (`mask.sum()`). */
  function CountRows(m: seq<seq<bool>>): nat
  {
    if m == [] then 0 else CountRows(m[..|m| - 1]) + Count(m[|m| - 1])
  }

  /** No pixel is flagged exactly when the count is zero. */
  lemma {:induction false} CountRowsZeroIff(m: seq<seq<bool>>)
    ensures CountRows(m) == 0 <==> forall i, j :: 0 <= i < |m| && 0 <= j < |m[i]| ==> !m[i][j]
  {
    if m != [] {
      var init := m[..|m| - 1];
      CountRowsZeroIff(init);
      CountZeroIff(m[|m| - 1]);
      assert forall i :: 0 <= i < |init| ==> init[i] == m[i];
    }
  }

  /** `m` is the largest cell of `g`. */
  ghost predicate IsMax(g: seq<seq<real>>, m: real)
  {
    (forall i, j :: 0 <= i < |g| && 0 <= j < |g[i]| ==> g[i][j] <= m)
    && (exists i, j :: 0 <= i < |g| && 0 <= j < |g[i]| && g[i][j] == m)
  }

  /** A grid has at most one maximum. */
  lemma MaxUnique(g: seq<seq<real>>, m: real, m': real)
    requires IsMax(g, m) && IsMax(g, m')
    ensures m == m'
  {
    var i, j :| 0 <= i < |g| && 0 <= j < |g[i]| && g[i][j] == m;
    var i', j' :| 0 <= i' < |g| && 0 <= j' < |g[i']| && g[i'][j'] == m';
    assert m <= m' && m' <= m;
  }

  /** numpy's `max` over a non-empty grid. */
  function GridMax(g: seq<seq<real>>): (m: real)
    requires |g| > 0 && forall i :: 0 <= i < |g| ==> |g[i]| > 0
    ensures IsMax(g, m)
  {
    var last := MaxOf(g[|g| - 1]);
    if |g| == 1 then last
    else
      var rest := GridMax(g[..|g| - 1]);
      assert forall i :: 0 <= i < |g| - 1 ==> g[..|g| - 1][i] == g[i];
      if rest >= last then rest else last
  }

  /** `ERR.max() == 0`. */
  ghost predicate MaxIsZero(e: seq<seq<real>>)
  {
    IsMax(e, 0.0)
  }

  /** The header keywords that follow the arrays: `NAXIS1/2` (width and
      height) and the reference pixel `CRPIX1/2`. */
  datatype Header = Header(naxis1: int, naxis2: int, crpix1: real, crpix2: real)

  /** Since the previous state, DQ bit 4 (digit 2) has been set on exactly
      the pixels where `SCI < sigma*ERR`, and every other pixel kept its
      value. */
  twostate predicate FlaggedBelow(dq: array2<Word>, sci: array2<real>, err: array2<real>, sigma: real)
    reads dq, sci, err
  {
    forall i, j :: 0 <= i < dq.Length0 && 0 <= j < dq.Length1
                   && i < sci.Length0 && j < sci.Length1 && i < err.Length0 && j < err.Length1 ==>
      dq[i, j] == (if sci[i, j] < sigma * err[i, j] then SetFlag(old(dq[i, j]), 2) else old(dq[i, j]))
  }

  /** The result of `get_slice`: its two range errors, or the cutout. */
  datatype SliceResult = OutOfRangeY | OutOfRangeX | Sliced(image: ImageData)

  class ImageData {
    var sci: array2<real>
    var err: array2<real>
    var dq: array2<Word>
    var ref: Option<array2<real>>
    /** `sh`. */
    var rows: nat
    var cols: nat
    var pad: int
    /** Detector position of pixel `[0, 0]`, as `(y, x)`. */
    const origin: (int, int)
    var header: Header
    const photflam: real

    ghost predicate Valid()
      reads this
    {
      sci.Length0 == rows && sci.Length1 == cols
      && err.Length0 == rows && err.Length1 == cols
      && dq.Length0 == rows && dq.Length1 == cols
      && (ref.Some? ==> ref.value.Length0 == rows && ref.value.Length1 == cols)
    }

    constructor Init(sci: array2<real>, err: array2<real>, dq: array2<Word>, ref: Option<array2<real>>,
                     origin: (int, int), pad: int, header: Header,
                     photflam: real)
      requires err.Length0 == sci.Length0 && err.Length1 == sci.Length1
      requires dq.Length0 == sci.Length0 && dq.Length1 == sci.Length1
      requires ref.Some? ==> ref.value.Length0 == sci.Length0 && ref.value.Length1 == sci.Length1
      ensures Valid()
      ensures this.sci == sci && this.err == err && this.dq == dq && this.ref == ref
      ensures rows == sci.Length0 && cols == sci.Length1
      ensures this.origin == origin && this.pad == pad && this.photflam == photflam
      ensures this.header == header
    {
      this.sci := sci;
      this.err := err;
      this.dq := dq;
      this.ref := ref;
      rows := sci.Length0;
      cols := sci.Length1;
      this.origin := origin;
      this.pad := pad;
      this.header := header;
      this.photflam := photflam;
    }

    /** `flag_negative`: set DQ bit 4 (value 4, digit 2) wherever
        `SCI < sigma*ERR` and return how many pixels that is; an image whose
        ERR has maximum zero is left alone and gives 0. The maximum of an
        empty image raises, modelled as `None`. */
    method FlagNegative(sigma: real) returns (r: Option<nat>)
      requires Valid()
      modifies dq
      ensures r.None? <==> rows == 0 || cols == 0
      ensures r.None? || MaxIsZero(GridOf(err)) ==> unchanged(dq)
      ensures r.Some? && MaxIsZero(GridOf(err)) ==> r.value == 0
      ensures r.Some? && !MaxIsZero(GridOf(err)) ==>
                r.value == CountRows(BadMask(GridOf(sci), GridOf(err), sigma))
      ensures r.Some? && !MaxIsZero(GridOf(err)) ==> FlaggedBelow(dq, sci, err, sigma)
    {
      if rows == 0 || cols == 0 {
        return None;
      }
      var e := GridOf(err);
      var m := GridMax(e);
      if m == 0.0 {
        return Some(0);
      }
      if MaxIsZero(e) {
        MaxUnique(e, m, 0.0);
      }
      FlagBelow(sigma);
      r := Some(CountRows(BadMask(GridOf(sci), e, sigma)));
    }

    /** `DQ[SCI < sigma*ERR] |= 4`. */
    method FlagBelow(sigma: real)
      requires Valid()
      modifies dq
      ensures FlaggedBelow(dq, sci, err, sigma)
    {
      forall i, j | 0 <= i < rows && 0 <= j < cols && sci[i, j] < sigma * err[i, j] {
        dq[i, j] := SetFlag(dq[i, j], 2);
      }
    }

    /** `add_padding`: every array grows by `pad` on each side, the old
        contents in the middle and zeros around them; the shape, the pad
        count, `NAXIS1/2` and `CRPIX1/2` follow. */
    method AddPadding(p: nat)
      requires Valid() && p > 0
      modifies this
      ensures Valid()
      ensures rows == old(rows) + 2 * p && cols == old(cols) + 2 * p
      ensures pad == old(pad) + p
      ensures header == old(header).(naxis1 := old(header).naxis1 + 2 * p, naxis2 := old(header).naxis2 + 2 * p,
                                     crpix1 := old(header).crpix1 + p as real, crpix2 := old(header).crpix2 + p as real)
      ensures fresh(sci) && fresh(err) && fresh(dq)
      ensures ref.Some? <==> old(ref).Some?
      ensures ref.Some? ==> fresh(ref.value)
      ensures Padded(old(sci), sci, p)
      ensures Padded(old(err), err, p)
      ensures PaddedWord(old(dq), dq, p)
      ensures ref.Some? ==> Padded(old(ref).value, ref.value, p)
    {
      var s, e, d, rf := PaddedArrays(p);
      sci, err, dq, ref := s, e, d, rf;
      rows := rows + 2 * p;
      cols := cols + 2 * p;
      pad := pad + p;
      header := header.(naxis1 := header.naxis1 + 2 * p, naxis2 := header.naxis2 + 2 * p,
                        crpix1 := header.crpix1 + p as real, crpix2 := header.crpix2 + p as real);
    }

    /** The four arrays of `add_padding`, before they replace the old ones. */
    method PaddedArrays(p: nat) returns (s: array2<real>, e: array2<real>, d: array2<Word>, rf: Option<array2<real>>)
      requires Valid()
      ensures fresh(s) && fresh(e) && fresh(d)
      ensures s.Length0 == e.Length0 == d.Length0 == rows + 2 * p
      ensures s.Length1 == e.Length1 == d.Length1 == cols + 2 * p
      ensures rf.Some? <==> ref.Some?
      ensures rf.Some? ==> fresh(rf.value) && rf.value.Length0 == rows + 2 * p && rf.value.Length1 == cols + 2 * p
      ensures Padded(sci, s, p) && Padded(err, e, p) && PaddedWord(dq, d, p)
      ensures rf.Some? ==> Padded(ref.value, rf.value, p)
    {
      s := PadReal(sci, p);
      e := PadReal(err, p);
      d := PadWord(dq, p);
      rf := None;
      if ref.Some? {
        var padded := PadReal(ref.value, p);
        rf := Some(padded);
      }
    }

    /** `get_slice`: the cutout `[sly, slx]` (bounds `(start, stop)`) as a
        new image whose origin is this one's plus the slice starts. The
        start must not be negative and `start + (stop - start)` must not
        pass the edge; the arrays are then whatever numpy's slicing selects,
        while `NAXIS1/2` are set to `stop - start`. */
    method GetSlice(slx: (int, int), sly: (int, int)) returns (r: SliceResult)
      requires Valid() && photflam != 0.0
      ensures r.Sliced? <==> SliceFits(sly, rows) && SliceFits(slx, cols)
      ensures !SliceFits(sly, rows) ==> r == OutOfRangeY
      ensures SliceFits(sly, rows) && !SliceFits(slx, cols) ==> r == OutOfRangeX
      ensures r.Sliced? ==> fresh(r.image) && fresh(r.image.sci) && fresh(r.image.err) && fresh(r.image.dq)
      ensures r.Sliced? ==> r.image.Valid()
      ensures r.Sliced? ==> r.image.origin == (origin.0 + sly.0, origin.1 + slx.0)
      ensures r.Sliced? ==> r.image.header == Header(slx.1 - slx.0, sly.1 - sly.0, header.crpix1 - slx.0 as real, header.crpix2 - sly.0 as real)
      ensures r.Sliced? ==> r.image.pad == pad && r.image.photflam == photflam
      ensures r.Sliced? ==> r.image.rows == SliceLength(sly, rows) && r.image.cols == SliceLength(slx, cols)
      ensures r.Sliced? ==> (r.image.ref.Some? <==> ref.Some?)
      ensures r.Sliced? ==> Windowed(sci, r.image.sci, SliceRange(sly.0, sly.1, rows).0, SliceRange(slx.0, slx.1, cols).0)
      ensures r.Sliced? ==> Windowed(err, r.image.err, SliceRange(sly.0, sly.1, rows).0, SliceRange(slx.0, slx.1, cols).0)
      ensures r.Sliced? ==> WindowedWord(dq, r.image.dq, SliceRange(sly.0, sly.1, rows).0, SliceRange(slx.0, slx.1, cols).0)
      ensures r.Sliced? && ref.Some? ==> fresh(r.image.ref.value)
      ensures r.Sliced? && ref.Some? ==>
                Windowed(ref.value, r.image.ref.value, SliceRange(sly.0, sly.1, rows).0, SliceRange(slx.0, slx.1, cols).0)
    {
      if !SliceFits(sly, rows) {
        return OutOfRangeY;
      }
      if !SliceFits(slx, cols) {
        return OutOfRangeX;
      }
      var y0, y1 := SliceRange(sly.0, sly.1, rows).0, SliceRange(sly.0, sly.1, rows).1;
      var x0, x1 := SliceRange(slx.0, slx.1, cols).0, SliceRange(slx.0, slx.1, cols).1;
      var s, e, d, rf := CutArrays(y0, x0, y1 - y0, x1 - x0);
      var image := new ImageData.Init(s, e, d, rf, (origin.0 + sly.0, origin.1 + slx.0), pad,
                                      Header(slx.1 - slx.0, sly.1 - sly.0, header.crpix1 - slx.0 as real, header.crpix2 - sly.0 as real),
                                      photflam);
      r := Sliced(image);
    }

    /** The arrays of a `get_slice` cutout: each window of SCI, ERR, DQ and
        (when present) REF starting at `(y0, x0)`, in new arrays. */
    method CutArrays(y0: nat, x0: nat, ny: nat, nx: nat)
      returns (s: array2<real>, e: array2<real>, d: array2<Word>, rf: Option<array2<real>>)
      requires Valid() && photflam != 0.0 && y0 + ny <= rows && x0 + nx <= cols
      ensures fresh(s) && fresh(e) && fresh(d) && (rf.Some? ==> fresh(rf.value))
      ensures s.Length0 == ny && s.Length1 == nx && e.Length0 == ny && e.Length1 == nx
      ensures d.Length0 == ny && d.Length1 == nx
      ensures rf.Some? <==> ref.Some?
      ensures rf.Some? ==> rf.value.Length0 == ny && rf.value.Length1 == nx
      ensures Windowed(sci, s, y0, x0) && Windowed(err, e, y0, x0) && WindowedWord(dq, d, y0, x0)
      ensures rf.Some? ==> Windowed(ref.value, rf.value, y0, x0)
    {
      s := Window(sci, y0, x0, ny, nx, photflam);
      e := Window(err, y0, x0, ny, nx, photflam);
      d := WindowWord(dq, y0, x0, ny, nx);
      rf := None;
      if ref.Some? {
        var w := Window(ref.value, y0, x0, ny, nx, 1.0);
        rf := Some(w);
      }
    }
  }

  /** The range test of `get_slice` on one axis: the start is not negative
      and `start + (stop - start)` stays within the axis. */
  predicate SliceFits(s: (int, int), n: nat)
  {
    !(s.0 < 0 || s.0 + (s.1 - s.0) > n)
  }

  /** Number of indices numpy selects for `a[start:stop]` on an axis of
      length `n`. */
  function SliceLength(s: (int, int), n: nat): nat
  {
    SliceRange(s.0, s.1, n).1 - SliceRange(s.0, s.1, n).0
  }

  /** A forward slice that passes the test selects exactly
      `start .. stop - 1`, so the cutout has `stop - start` rows, which is
      also what its header says. */
  lemma ForwardSliceSelects(s: (int, int), n: nat)
    requires SliceFits(s, n) && s.0 <= s.1
    ensures SliceRange(s.0, s.1, n) == s
    ensures SliceLength(s, n) == s.1 - s.0
  {
  }

  /** A slice whose stop is negative also passes the test, but numpy counts
      that stop from the end: `slice(2, -1)` on 10 rows selects 7 rows while
      the header records `NAXIS = -3`. */
  lemma NegativeStopMismatch()
    ensures SliceFits((2, -1), 10)
    ensures SliceRange(2, -1, 10) == (2, 9) && SliceLength((2, -1), 10) == 7
  {
  }

  /** A reversed slice passes the test whatever its start: the cutout is
      empty and its origin may lie outside the parent image. */
  lemma ReversedSliceFits()
    ensures SliceFits((50, 10), 20) && SliceLength((50, 10), 20) == 0
  {
  }

  /** `b` is the window of `a` that starts at `(y0, x0)`. */
  ghost predicate Windowed(a: array2<real>, b: array2<real>, y0: int, x0: int)
    reads a, b
  {
    forall i, j :: 0 <= i < b.Length0 && 0 <= j < b.Length1 ==>
      0 <= y0 + i < a.Length0 && 0 <= x0 + j < a.Length1 && b[i, j] == a[y0 + i, x0 + j]
  }

  ghost predicate WindowedWord(a: array2<Word>, b: array2<Word>, y0: int, x0: int)
    reads a, b
  {
    forall i, j :: 0 <= i < b.Length0 && 0 <= j < b.Length1 ==>
      0 <= y0 + i < a.Length0 && 0 <= x0 + j < a.Length1 && b[i, j] == a[y0 + i, x0 + j]
  }

  /** `b` is `a` with `p` zeros added on every side. */
  ghost predicate Padded(a: array2<real>, b: array2<real>, p: nat)
    reads a, b
  {
    b.Length0 == a.Length0 + 2 * p && b.Length1 == a.Length1 + 2 * p
    && forall i, j :: 0 <= i < b.Length0 && 0 <= j < b.Length1 ==>
         b[i, j] == (if p <= i < p + a.Length0 && p <= j < p + a.Length1 then a[i - p, j - p] else 0.0)
  }

  ghost predicate PaddedWord(a: array2<Word>, b: array2<Word>, p: nat)
    reads a, b
  {
    b.Length0 == a.Length0 + 2 * p && b.Length1 == a.Length1 + 2 * p
    && forall i, j :: 0 <= i < b.Length0 && 0 <= j < b.Length1 ==>
         b[i, j] == (if p <= i < p + a.Length0 && p <= j < p + a.Length1 then a[i - p, j - p] else 0)
  }

  /** A fresh copy of `a` grown by `p` zeros on every side
      (`new_data[pad:-pad, pad:-pad] += data` on `np.zeros`). */
  method PadReal(a: array2<real>, p: nat) returns (b: array2<real>)
    ensures fresh(b)
    ensures b.Length0 == a.Length0 + 2 * p && b.Length1 == a.Length1 + 2 * p
    ensures Padded(a, b, p)
  {
    b := new real[a.Length0 + 2 * p, a.Length1 + 2 * p]((i, j) => 0.0);
    forall i, j | 0 <= i < a.Length0 && 0 <= j < a.Length1 {
      b[i + p, j + p] := b[i + p, j + p] + a[i, j];
    }
  }

  method PadWord(a: array2<Word>, p: nat) returns (b: array2<Word>)
    ensures fresh(b)
    ensures b.Length0 == a.Length0 + 2 * p && b.Length1 == a.Length1 + 2 * p
    ensures PaddedWord(a, b, p)
  {
    b := new Word[a.Length0 + 2 * p, a.Length1 + 2 * p]((i, j) => 0);
    forall i, j | 0 <= i < a.Length0 && 0 <= j < a.Length1 {
      b[i + p, j + p] := a[i, j];
    }
  }

  /** A value divided by the calibration factor and multiplied back. */
  function Rescaled(x: real, photflam: real): (r: real)
    requires photflam != 0.0
    ensures r == x
  {
    x / photflam * photflam
  }

  /** `data[y0:y0+ny, x0:x0+nx] / photflam`, then scaled back by `photflam`
      as the new image's constructor does: the window itself. */
  method Window(a: array2<real>, y0: nat, x0: nat, ny: nat, nx: nat, photflam: real) returns (b: array2<real>)
    requires photflam != 0.0
    requires y0 + ny <= a.Length0 && x0 + nx <= a.Length1
    ensures fresh(b)
    ensures b.Length0 == ny && b.Length1 == nx
    ensures Windowed(a, b, y0, x0)
  {
    b := new real[ny, nx]((i, j) => 0.0);
    forall i, j | 0 <= i < ny && 0 <= j < nx {
      b[i, j] := Rescaled(a[y0 + i, x0 + j], photflam);
    }
  }

  /** `dq[y0:y0+ny, x0:x0+nx]*1`. */
  method WindowWord(a: array2<Word>, y0: nat, x0: nat, ny: nat, nx: nat) returns (b: array2<Word>)
    requires y0 + ny <= a.Length0 && x0 + nx <= a.Length1
    ensures fresh(b)
    ensures b.Length0 == ny && b.Length1 == nx
    ensures WindowedWord(a, b, y0, x0)
  {
    b := new Word[ny, nx]((i, j) => 0);
    forall i, j | 0 <= i < ny && 0 <= j < nx {
      b[i, j] := a[y0 + i, x0 + j];
    }
  }
}
