/** Where a beam's 2D spectrum lands in the detector frame, and the two ways
    `GrismDisperser` moves data across that boundary: adding a beam-sized
    block into the frame (`add_to_full_image`) and reading a beam-sized block
    out of it (`cutout_from_full_image`). A frame is an `h` x `w` grid; a
    footprint is the frame position of the beam's lower-left pixel and the
    beam's shape. */
module Placement {
  import opened Common

  datatype Footprint = Footprint(row0: int, col0: int, rows: nat, cols: nat)

  /** `contained_in_full_array`: both parent slices start inside the frame
      and stop strictly before its far edge. */
  predicate Contained(fp: Footprint, h: int, w: int)
  {
    fp.row0 >= 0 && fp.col0 >= 0 && fp.row0 + fp.rows < h && fp.col0 + fp.cols < w
  }

  /** Local index `i` of an axis starting at frame coordinate `start` lands
      inside a frame axis of length `limit`. */
  predicate InAxis(start: int, i: int, limit: int)
  {
    0 <= start + i < limit
  }

  /** Beam pixel `(i, j)` lands inside the `h` x `w` frame. */
  predicate Covers(fp: Footprint, i: int, j: int, h: int, w: int)
  {
    InAxis(fp.row0, i, h) && InAxis(fp.col0, j, w)
  }

  /** Every beam pixel of a contained footprint lies inside the frame. */
  lemma ContainedFits(fp: Footprint, h: int, w: int)
    requires Contained(fp, h, w)
    ensures forall i, j :: 0 <= i < fp.rows && 0 <= j < fp.cols ==> Covers(fp, i, j, h, w)
  {
  }

  /** The strict `stop >= sh` test: a footprint that exactly fills the frame
      is not reported as contained although every pixel fits. */
  lemma ContainedRejectsExactFit()
    ensures var fp := Footprint(0, 0, 2, 3);
      !Contained(fp, 2, 3)
      && forall i, j :: 0 <= i < fp.rows && 0 <= j < fp.cols ==> Covers(fp, i, j, 2, 3)
  {
  }

  /** The local indices `i` in `[0, n)` whose frame coordinate `start + i`
      passes the mask `0 <= start + i < limit`; the mask is always one
      interval `[lo, hi)`. */
  function OkRange(start: int, n: nat, limit: int): (r: (int, int))
    ensures 0 <= r.0 <= r.1 <= n
    ensures forall i :: 0 <= i < n ==> (r.0 <= i < r.1 <==> InAxis(start, i, limit))
  {
    var lo := Min(Max(0, -start), n);
    var hi := Max(lo, Min(n, limit - start));
    (lo, hi)
  }

  /** The value the beam block `data` contributes to frame pixel `(r, c)`. */
  function Placed(fp: Footprint, data: seq<seq<real>>, r: int, c: int): real
    requires IsGrid(data, fp.rows, fp.cols)
  {
    if 0 <= r - fp.row0 < fp.rows && 0 <= c - fp.col0 < fp.cols then data[r - fp.row0][c - fp.col0] else 0.0
  }

  /** Some beam pixel falls inside the frame. */
  predicate Overlaps(fp: Footprint, h: int, w: int)
  {
    var ry := OkRange(fp.row0, fp.rows, h);
    var rx := OkRange(fp.col0, fp.cols, w);
    ry.0 < ry.1 && rx.0 < rx.1
  }

  lemma OverlapsIff(fp: Footprint, h: int, w: int)
    ensures Overlaps(fp, h, w) <==>
      exists i, j :: 0 <= i < fp.rows && 0 <= j < fp.cols && Covers(fp, i, j, h, w)
  {
    var ry := OkRange(fp.row0, fp.rows, h);
    var rx := OkRange(fp.col0, fp.cols, w);
    if Overlaps(fp, h, w) {
      assert Covers(fp, ry.0, rx.0, h, w);
    }
    if exists i, j :: 0 <= i < fp.rows && 0 <= j < fp.cols && Covers(fp, i, j, h, w) {
      var i, j :| 0 <= i < fp.rows && 0 <= j < fp.cols && Covers(fp, i, j, h, w);
      assert ry.0 <= i < ry.1 && rx.0 <= j < rx.1;
    }
  }

  /** Inside the frame, a pixel receives a beam value exactly when its local
      indices lie in both clipped ranges. */
  lemma PlacedClipped(fp: Footprint, data: seq<seq<real>>, h: int, w: int, i: int, j: int)
    requires IsGrid(data, fp.rows, fp.cols) && 0 <= i < h && 0 <= j < w
    ensures var ry := OkRange(fp.row0, fp.rows, h);
      var rx := OkRange(fp.col0, fp.cols, w);
      Placed(fp, data, i, j)
        == if ry.0 <= i - fp.row0 < ry.1 && rx.0 <= j - fp.col0 < rx.1
           then data[i - fp.row0][j - fp.col0] else 0.0
  {
    if 0 <= i - fp.row0 < fp.rows && 0 <= j - fp.col0 < fp.cols {
      assert InAxis(fp.row0, i - fp.row0, h) && InAxis(fp.col0, j - fp.col0, w);
    }
  }

  datatype AddOutcome = NoOverlap | Added | BroadcastError

  /** Rows of the (as written) partial path: the row mask tests rows against
      the frame WIDTH `w`, and the resulting slice is then clipped by numpy
      to the frame height `h`. Returns `(k, n)`: the number of masked rows of
      the block and the number of rows of the frame slice. */
  function AsWrittenRows(fp: Footprint, h: nat, w: int): (r: (int, int))
    ensures 0 <= r.1 <= r.0
  {
    var ry := OkRange(fp.row0, fp.rows, w);
    var sl := SliceRange(fp.row0 + ry.0, fp.row0 + ry.1, h);
    assert ry.0 < ry.1 ==> fp.row0 + ry.0 >= 0;
    (ry.1 - ry.0, sl.1 - sl.0)
  }

  /** Outcome of `add_to_full_image` as written: `True` for a contained
      footprint; otherwise `False` when a mask is empty, and numpy raises
      when the frame slice and the masked block have row counts it cannot
      broadcast (neither equal nor a single row). */
  function AddAsWrittenOutcome(fp: Footprint, h: nat, w: nat): AddOutcome
  {
    if Contained(fp, h, w) then Added
    else
      var rx := OkRange(fp.col0, fp.cols, w);
      var rows := AsWrittenRows(fp, h, w);
      if rows.0 == 0 || rx.0 == rx.1 then NoOverlap
      else if rows.1 == rows.0 || rows.0 == 1 then Added
      else BroadcastError
  }

  /** The increment `add_to_full_image` as written gives frame pixel
      `(r, c)` when it does not raise: the whole block when contained,
      otherwise only rows below the frame width. */
  function AddAsWrittenDelta(fp: Footprint, data: seq<seq<real>>, h: nat, w: nat, r: int, c: int): real
    requires IsGrid(data, fp.rows, fp.cols)
  {
    if Contained(fp, h, w) || r < w then Placed(fp, data, r, c) else 0.0
  }

  /** Off the contained path, the as-written increment of an in-frame pixel
      is the block value exactly where its local indices lie in the column
      range and in the row range clipped against the width. */
  lemma AsWrittenDeltaAt(fp: Footprint, data: seq<seq<real>>, h: nat, w: nat, i: int, j: int)
    requires IsGrid(data, fp.rows, fp.cols) && !Contained(fp, h, w) && 0 <= i < h && 0 <= j < w
    ensures var ry := OkRange(fp.row0, fp.rows, w);
      var rx := OkRange(fp.col0, fp.cols, w);
      AddAsWrittenDelta(fp, data, h, w, i, j)
        == if ry.0 <= i - fp.row0 < ry.1 && rx.0 <= j - fp.col0 < rx.1
           then data[i - fp.row0][j - fp.col0] else 0.0
  {
    if 0 <= i - fp.row0 < fp.rows && 0 <= j - fp.col0 < fp.cols {
      assert InAxis(fp.col0, j - fp.col0, w);
      assert InAxis(fp.row0, i - fp.row0, w) <==> i < w;
    }
  }

  /** On a square frame the width test is the height test, so the as-written
      path never raises and adds exactly the overlapping part. */
  lemma AddAsWrittenSquare(fp: Footprint, data: seq<seq<real>>, n: nat)
    requires fp.rows > 0 && fp.cols > 0 && IsGrid(data, fp.rows, fp.cols)
    ensures AddAsWrittenOutcome(fp, n, n) != BroadcastError
    ensures AddAsWrittenOutcome(fp, n, n) == NoOverlap <==> !Overlaps(fp, n, n)
    ensures forall r, c :: 0 <= r < n && 0 <= c < n ==> AddAsWrittenDelta(fp, data, n, n, r, c) == Placed(fp, data, r, c)
  {
    var ry := OkRange(fp.row0, fp.rows, n);
    if ry.0 < ry.1 {
      assert SliceRange(fp.row0 + ry.0, fp.row0 + ry.1, n) == (fp.row0 + ry.0, fp.row0 + ry.1);
    }
  }

  /** Wherever the as-written add does not raise, it changes only pixels
      covered by the footprint. */
  lemma AddAsWrittenLocal(fp: Footprint, data: seq<seq<real>>, h: nat, w: nat, r: int, c: int)
    requires IsGrid(data, fp.rows, fp.cols)
    requires !(0 <= r - fp.row0 < fp.rows && 0 <= c - fp.col0 < fp.cols)
    ensures AddAsWrittenDelta(fp, data, h, w, r, c) == 0.0
  {
  }

  /** The row mask against the width drops the whole beam when the frame is
      taller than wide: here two beam rows land on frame rows 2 and 3 of a
      4 x 2 frame, yet the add reports no overlap. */
  lemma AddAsWrittenDropsTallRows()
    ensures var fp := Footprint(2, 0, 2, 2);
      Overlaps(fp, 4, 2) && AddAsWrittenOutcome(fp, 4, 2) == NoOverlap
  {
    var fp := Footprint(2, 0, 2, 2);
    assert OkRange(2, 2, 2) == (0, 0);
    assert OkRange(2, 2, 4) == (0, 2);
    assert OkRange(0, 2, 2) == (0, 2);
  }

  /** ... and raises when the frame is wider than tall: a 3-row beam at the
      top of a 2 x 4 frame passes the width test on all three rows but the
      frame slice has only two. */
  lemma AddAsWrittenRaisesOnWideFrame()
    ensures var fp := Footprint(0, 0, 3, 1);
      Overlaps(fp, 2, 4) && AddAsWrittenOutcome(fp, 2, 4) == BroadcastError
  {
    var fp := Footprint(0, 0, 3, 1);
    assert OkRange(0, 3, 4) == (0, 3);
    assert OkRange(0, 3, 2) == (0, 2);
    assert OkRange(0, 1, 4) == (0, 1);
    assert SliceRange(0, 3, 2) == (0, 2);
  }

  /** The frame after adding the block with clipping, pixel by pixel (the
      intended `add_to_full_image`). */
  function AddPlaced(frame: seq<seq<real>>, h: nat, w: nat, fp: Footprint, data: seq<seq<real>>): (r: seq<seq<real>>)
    requires IsGrid(frame, h, w) && IsGrid(data, fp.rows, fp.cols)
    ensures IsGrid(r, h, w)
    ensures forall i, j :: 0 <= i < h && 0 <= j < w ==> r[i][j] == frame[i][j] + Placed(fp, data, i, j)
  {
    seq(h, i requires 0 <= i < h => seq(w, j requires 0 <= j < w => frame[i][j] + Placed(fp, data, i, j)))
  }

  /** Adding two blocks in either order gives the same frame. */
  lemma AddPlacedCommutes(frame: seq<seq<real>>, h: nat, w: nat, fp1: Footprint, d1: seq<seq<real>>, fp2: Footprint, d2: seq<seq<real>>)
    requires IsGrid(frame, h, w) && IsGrid(d1, fp1.rows, fp1.cols) && IsGrid(d2, fp2.rows, fp2.cols)
    ensures AddPlaced(AddPlaced(frame, h, w, fp1, d1), h, w, fp2, d2) == AddPlaced(AddPlaced(frame, h, w, fp2, d2), h, w, fp1, d1)
  {
    var a := AddPlaced(AddPlaced(frame, h, w, fp1, d1), h, w, fp2, d2);
    var b := AddPlaced(AddPlaced(frame, h, w, fp2, d2), h, w, fp1, d1);
    assert forall i :: 0 <= i < h ==> a[i] == b[i];
  }

  /** Adding a block and then its negation restores the frame (the registry
      subtracts an object's old model this way). */
  lemma AddPlacedNegate(frame: seq<seq<real>>, h: nat, w: nat, fp: Footprint, data: seq<seq<real>>)
    requires IsGrid(frame, h, w) && IsGrid(data, fp.rows, fp.cols)
    ensures AddPlaced(AddPlaced(frame, h, w, fp, data), h, w, fp, Negate(data)) == frame
  {
    var a := AddPlaced(AddPlaced(frame, h, w, fp, data), h, w, fp, Negate(data));
    forall i | 0 <= i < h
      ensures a[i] == frame[i]
    {
      forall j | 0 <= j < w
        ensures a[i][j] == frame[i][j]
      {
        assert Placed(fp, Negate(data), i, j) + Placed(fp, data, i, j) == 0.0;
      }
    }
  }

  datatype CutResult = NoCut | Cut(data: seq<seq<real>>) | CutBroadcastError

  /** The beam-sized block under the footprint, zero where it leaves the
      frame (the intended `cutout_from_full_image`). */
  function Window(fp: Footprint, frame: seq<seq<real>>, h: nat, w: nat): (r: seq<seq<real>>)
    requires IsGrid(frame, h, w)
    ensures IsGrid(r, fp.rows, fp.cols)
    ensures forall i, j :: 0 <= i < fp.rows && 0 <= j < fp.cols ==>
              r[i][j] == (if 0 <= fp.row0 + i < h && 0 <= fp.col0 + j < w then frame[fp.row0 + i][fp.col0 + j] else 0.0)
  {
    seq(fp.rows, i => seq(fp.cols, j =>
      if 0 <= fp.row0 + i < h && 0 <= fp.col0 + j < w then frame[fp.row0 + i][fp.col0 + j] else 0.0))
  }

  /** Corrected cutout: the window for any overlapping footprint. */
  function Cutout(fp: Footprint, frame: seq<seq<real>>, h: nat, w: nat): (r: CutResult)
    requires IsGrid(frame, h, w)
    ensures r != CutBroadcastError
    ensures r == NoCut <==> !Overlaps(fp, h, w)
    ensures r.Cut? ==> r.data == Window(fp, frame, h, w)
  {
    if Overlaps(fp, h, w) then Cut(Window(fp, frame, h, w)) else NoCut
  }

  /** `cutout_from_full_image` as written. The partial path adds the frame
      slice into `data[oky,:][:,okx]`, a copy made by boolean indexing, so
      the zeros it returns are never filled in; numpy raises when the slice
      has a row count it cannot broadcast to the masked rows. */
  function CutoutAsWritten(fp: Footprint, frame: seq<seq<real>>, h: nat, w: nat): (r: CutResult)
    requires IsGrid(frame, h, w)
    ensures Contained(fp, h, w) ==> r == Cut(Window(fp, frame, h, w))
    ensures !Contained(fp, h, w) && r.Cut? ==> r.data == Zeros(fp.rows, fp.cols)
  {
    if Contained(fp, h, w) then Cut(Window(fp, frame, h, w))
    else
      var rx := OkRange(fp.col0, fp.cols, w);
      var rows := AsWrittenRows(fp, h, w);
      if rows.0 == 0 || rx.0 == rx.1 then NoCut
      else if rows.1 == rows.0 || rows.1 == 1 then Cut(Zeros(fp.rows, fp.cols))
      else CutBroadcastError
  }

  /** The partial cutout loses the frame's values: on a 2 x 2 frame of ones,
      a 2 x 2 beam one column to the right (partly outside) reads back
      zeros where the corrected cutout reads the ones. */
  lemma CutoutAsWrittenLosesData()
    ensures var frame := [[1.0, 1.0], [1.0, 1.0]];
      var fp := Footprint(0, 1, 2, 2);
      CutoutAsWritten(fp, frame, 2, 2) == Cut(Zeros(2, 2))
      && Cutout(fp, frame, 2, 2).Cut? && Cutout(fp, frame, 2, 2).data[0][0] == 1.0
  {
    var frame := [[1.0, 1.0], [1.0, 1.0]];
    var fp := Footprint(0, 1, 2, 2);
    assert OkRange(1, 2, 2) == (0, 1);
    assert OkRange(0, 2, 2) == (0, 2);
    assert SliceRange(0, 2, 2) == (0, 2);
    assert Overlaps(fp, 2, 2);
  }

  /** Reading back after an add: the cutout of the updated frame is the old
      cutout plus the block on every pixel that lies in the frame. */
  lemma CutoutAfterAdd(fp: Footprint, frame: seq<seq<real>>, h: nat, w: nat, data: seq<seq<real>>)
    requires IsGrid(frame, h, w) && IsGrid(data, fp.rows, fp.cols)
    ensures var after := Window(fp, AddPlaced(frame, h, w, fp, data), h, w);
      var before := Window(fp, frame, h, w);
      forall i, j :: 0 <= i < fp.rows && 0 <= j < fp.cols ==>
        after[i][j] == before[i][j] + (if 0 <= fp.row0 + i < h && 0 <= fp.col0 + j < w then data[i][j] else 0.0)
  {
  }

  /** `add_to_full_image` as written, including the row mask tested
      against the frame width. */
  method AddBlockAsWritten(fp: Footprint, data: seq<seq<real>>, full: array2<real>) returns (r: AddOutcome)
    requires IsGrid(data, fp.rows, fp.cols)
    modifies full
    ensures r == AddAsWrittenOutcome(fp, full.Length0, full.Length1)
    ensures r == Added ==> forall i, j :: 0 <= i < full.Length0 && 0 <= j < full.Length1 ==>
              full[i, j] == old(full[i, j]) + AddAsWrittenDelta(fp, data, full.Length0, full.Length1, i, j)
    ensures r != Added ==> unchanged(full)
  {
    var h, w := full.Length0, full.Length1;
    if Contained(fp, h, w) {
      forall i, j | 0 <= i < fp.rows && 0 <= j < fp.cols {
        full[fp.row0 + i, fp.col0 + j] := full[fp.row0 + i, fp.col0 + j] + data[i][j];
      }
      return Added;
    }
    r := AddPartialAsWritten(fp, data, full);
  }

  /** The partial path of `add_to_full_image` as written: both masks, the
      frame slice of the masked rows and numpy's broadcast of the block
      onto it. */
  method AddPartialAsWritten(fp: Footprint, data: seq<seq<real>>, full: array2<real>) returns (r: AddOutcome)
    requires IsGrid(data, fp.rows, fp.cols) && !Contained(fp, full.Length0, full.Length1)
    modifies full
    ensures r == AddAsWrittenOutcome(fp, full.Length0, full.Length1)
    ensures r == Added ==> forall i, j :: 0 <= i < full.Length0 && 0 <= j < full.Length1 ==>
              full[i, j] == old(full[i, j]) + AddAsWrittenDelta(fp, data, full.Length0, full.Length1, i, j)
    ensures r != Added ==> unchanged(full)
  {
    var h, w := full.Length0, full.Length1;
    var rx := OkRange(fp.col0, fp.cols, w);
    var ry := OkRange(fp.row0, fp.rows, w);
    if ry.0 == ry.1 || rx.0 == rx.1 {
      return NoOverlap;
    }
    var sl := SliceRange(fp.row0 + ry.0, fp.row0 + ry.1, h);
    var k, n := ry.1 - ry.0, sl.1 - sl.0;
    assert (k, n) == AsWrittenRows(fp, h, w);
    if n == k {
      assert sl == (fp.row0 + ry.0, fp.row0 + ry.1);
      forall i, j | ry.0 <= i < ry.1 && rx.0 <= j < rx.1 {
        full[fp.row0 + i, fp.col0 + j] := full[fp.row0 + i, fp.col0 + j] + data[i][j];
      }
      forall i, j | 0 <= i < h && 0 <= j < w
        ensures full[i, j] == old(full[i, j]) + AddAsWrittenDelta(fp, data, h, w, i, j)
      {
        AsWrittenDeltaAt(fp, data, h, w, i, j);
      }
      return Added;
    } else if k == 1 {
      assert fp.row0 + ry.0 >= h;
      forall i, j | 0 <= i < h && 0 <= j < w
        ensures AddAsWrittenDelta(fp, data, h, w, i, j) == 0.0
      {
        AsWrittenDeltaAt(fp, data, h, w, i, j);
      }
      return Added;
    }
    return BroadcastError;
  }

  /** The intended `add_to_full_image`: the overlapping part of the block
      is added and the rest of the frame is left alone; `false` when
      nothing overlaps. */
  method AddBlockClipped(fp: Footprint, data: seq<seq<real>>, full: array2<real>) returns (r: bool)
    requires IsGrid(data, fp.rows, fp.cols)
    modifies full
    ensures r == Overlaps(fp, full.Length0, full.Length1)
    ensures forall i, j :: 0 <= i < full.Length0 && 0 <= j < full.Length1 ==>
              full[i, j] == old(full[i, j]) + Placed(fp, data, i, j)
  {
    var h, w := full.Length0, full.Length1;
    var rx := OkRange(fp.col0, fp.cols, w);
    var ry := OkRange(fp.row0, fp.rows, h);
    if ry.0 == ry.1 || rx.0 == rx.1 {
      forall i, j | 0 <= i < h && 0 <= j < w
        ensures Placed(fp, data, i, j) == 0.0
      {
        PlacedClipped(fp, data, h, w, i, j);
      }
      return false;
    }
    forall i, j | ry.0 <= i < ry.1 && rx.0 <= j < rx.1 {
      full[fp.row0 + i, fp.col0 + j] := full[fp.row0 + i, fp.col0 + j] + data[i][j];
    }
    forall i, j | 0 <= i < h && 0 <= j < w
      ensures full[i, j] == old(full[i, j]) + Placed(fp, data, i, j)
    {
      PlacedClipped(fp, data, h, w, i, j);
    }
    return true;
  }
}
