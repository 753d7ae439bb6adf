/** Finding an object before its spectral orders are built
    (`GrismFLT.compute_model_orders` up to the beam loop, and the default
    id list of `compute_full_model`): the catalogue and segmentation tests,
    the thumbnail half-size rule, the centring and the thumbnail cutouts. */
module Locate {
  import opened Common

  /** What `compute_segmentation_limits(seg, id, data, sh)` reports for one
      label: the row and column extent, the flux-weighted centre, the
      labelled area and flux, and whether the centre is finite. */
  datatype SegLimits = SegLimits(ymin: int, ymax: int, y: real, xmin: int, xmax: int, x: real,
                                 area: real, flux: real, finite: bool)

  /** The compiled helper itself, supplied from outside. */
  type SegmentLimits = (seq<seq<int>>, int, seq<seq<real>>) -> SegLimits

  /** The edge test of `compute_model_orders` as written: `xmin == 0` is
      tested twice and `ymin == 0` not at all. */
  predicate OffImageAsWritten(lim: SegLimits, sh: (int, int), pad: int)
  {
    lim.ymax < pad - 5 || lim.ymin > sh.0 - pad + 5
    || lim.xmin == 0 || lim.ymax == sh.0 || lim.xmin == 0 || lim.xmax == sh.1
  }

  /** The edge test with the repeated column test read as the missing row
      test: an object touching any of the four edges of the direct image is
      skipped. */
  predicate OffImage(lim: SegLimits, sh: (int, int), pad: int)
  {
    lim.ymax < pad - 5 || lim.ymin > sh.0 - pad + 5
    || lim.ymin == 0 || lim.ymax == sh.0 || lim.xmin == 0 || lim.xmax == sh.1
  }

  /** The two tests differ exactly on objects that touch the bottom row and
      pass every other test. */
  lemma OffImageDiffers(lim: SegLimits, sh: (int, int), pad: int)
    ensures OffImage(lim, sh, pad) <==> OffImageAsWritten(lim, sh, pad) || lim.ymin == 0
    ensures OffImageAsWritten(lim, sh, pad) ==> OffImage(lim, sh, pad)
  {
  }

  /** An object on the bottom edge of a 100 x 100 image with pad 10 is not
      skipped by the test as written. */
  lemma OffImageAsWrittenKeepsBottomEdge()
    ensures var lim := SegLimits(0, 20, 10.0, 30, 50, 40.0, 100.0, 1.0, true);
      !OffImageAsWritten(lim, (100, 100), 10) && OffImage(lim, (100, 100), 10)
  {
  }

  /** Largest of four reals (`np.max` of a four-element list). */
  function Max4(a: real, b: real, c: real, d: real): (m: real)
    ensures m >= a && m >= b && m >= c && m >= d
    ensures m == a || m == b || m == c || m == d
  {
    var ab := if a >= b then a else b;
    var cd := if c >= d then c else d;
    if ab >= cd then ab else cd
  }

  /** The thumbnail half-size computed from the segmentation extent: the
      largest margin from the centre, rounded up, plus 4, at least 26
      (the `16` floor is overridden by the `26` one), and then capped so
      that the thumbnail does not run past the bottom or left edge:
      `min(size, int(x) - 2, int(y) - 2)`. */
  function HalfSize(lim: SegLimits): (size: int)
  {
    var margin := Ceil(Max4(lim.x - lim.xmin as real, lim.xmax as real - lim.x,
                            lim.y - lim.ymin as real, lim.ymax as real - lim.y)) + 4;
    Min(Min(Max(Max(margin, 16), 26), Trunc(lim.x) - 2), Trunc(lim.y) - 2)
  }

  /** The size is never past the edge caps, and unless one of them applies
      it is at least 26 and exceeds every margin by at least 4. */
  lemma HalfSizeBounds(lim: SegLimits)
    ensures HalfSize(lim) <= Trunc(lim.x) - 2 && HalfSize(lim) <= Trunc(lim.y) - 2
    ensures HalfSize(lim) == Trunc(lim.x) - 2 || HalfSize(lim) == Trunc(lim.y) - 2
            || (HalfSize(lim) >= 26
                && HalfSize(lim) as real >= lim.x - lim.xmin as real + 4.0
                && HalfSize(lim) as real >= lim.xmax as real - lim.x + 4.0
                && HalfSize(lim) as real >= lim.y - lim.ymin as real + 4.0
                && HalfSize(lim) as real >= lim.ymax as real - lim.y + 4.0)
  {
    var m := Max4(lim.x - lim.xmin as real, lim.xmax as real - lim.x,
                  lim.y - lim.ymin as real, lim.ymax as real - lim.y);
    assert m <= Ceil(m) as real;
  }

  /** Centring on a pixel: `xc = int(round(v)) + 1` with numpy's
      half-to-even rounding, and the sub-pixel offset
      `xcenter = -(v - (xc - 1))`. */
  function Centre(v: real): (c: (int, real))
    ensures (c.0 - 1) as real - c.1 == v
    ensures -0.5 <= c.1 <= 0.5
  {
    var xc := RoundHalfEven(v) + 1;
    (xc, -(v - (xc - 1) as real))
  }

  /** numpy's `g[rs.0:rs.1, cs.0:cs.1]` on a `rows` x `cols` grid. */
  function SubGrid<T>(g: seq<seq<T>>, rows: nat, cols: nat, rs: (int, int), cs: (int, int)): (s: seq<seq<T>>)
    requires IsGrid(g, rows, cols)
    ensures IsGrid(s, SliceRange(rs.0, rs.1, rows).1 - SliceRange(rs.0, rs.1, rows).0,
                      SliceRange(cs.0, cs.1, cols).1 - SliceRange(cs.0, cs.1, cols).0)
    ensures forall i, j :: 0 <= i < |s| && 0 <= j < |s[i]| ==>
              s[i][j] == g[SliceRange(rs.0, rs.1, rows).0 + i][SliceRange(cs.0, cs.1, cols).0 + j]
  {
    var y0, y1 := SliceRange(rs.0, rs.1, rows).0, SliceRange(rs.0, rs.1, rows).1;
    var x0, x1 := SliceRange(cs.0, cs.1, cols).0, SliceRange(cs.0, cs.1, cols).1;
    seq(y1 - y0, i requires 0 <= i < y1 - y0 => seq(x1 - x0, j requires 0 <= j < x1 - x0 => g[y0 + i][x0 + j]))
  }

  /** A thumbnail window that lies inside the image is exactly the square of
      half-size `size` around the centre pixel. */
  lemma SubGridInside<T>(g: seq<seq<T>>, rows: nat, cols: nat, yc: int, xc: int, size: int)
    requires IsGrid(g, rows, cols) && size >= 0
    requires 0 <= yc - size && yc + size <= rows && 0 <= xc - size && xc + size <= cols
    ensures var s := SubGrid(g, rows, cols, (yc - size, yc + size), (xc - size, xc + size));
      IsGrid(s, 2 * size, 2 * size)
      && forall i, j :: 0 <= i < 2 * size && 0 <= j < 2 * size ==> s[i][j] == g[yc - size + i][xc - size + j]
  {
  }

  /** The cutouts handed to `GrismDisperser`: the direct-image and
      segmentation thumbnails, their common shape, the detector origin of
      their first pixel and the sub-pixel offsets of the centre. */
  datatype Thumbnail = Thumbnail(thumb: seq<seq<real>>, segThumb: seq<seq<int>>, sh: (nat, nat),
                                 origin: (int, int), xcenter: real, ycenter: real)

  /** How locating an object ends: `False` (not found), `True` (it cannot
      disperse onto the grism image, or its thumbnail would be too small),
      a `size` of `None` used in arithmetic (the `TypeError` Python raises),
      or the thumbnails. */
  datatype Location = Missing | OffEdge | NoSize | At(t: Thumbnail)

  /** The position and size used for the thumbnails: the measured centre
      when the limits are consulted, the measured half-size when it is
      computed; `None` for a result decided before the thumbnails. */
  datatype Target = Decided(loc: Location) | Aim(x: real, y: real, size: Option<int>)

  /** The segmentation part of locating: the limits are consulted when the
      size is to be computed or a position or size is missing. */
  function Aiming(x: Option<real>, y: Option<real>, size: Option<int>, computeSize: bool,
                  lim: SegLimits, sh: (int, int), pad: int): (t: Target)
    ensures t.Decided? ==> t.loc != NoSize && !t.loc.At?
    ensures !computeSize && x.Some? && y.Some? && size.Some? ==> t == Aim(x.value, y.value, size)
    ensures (computeSize || x.None? || y.None? || size.None?) && (lim.area == 0.0 || !lim.finite) ==> t == Decided(Missing)
    ensures (computeSize || x.None? || y.None? || size.None?) && lim.area != 0.0 && lim.finite && OffImage(lim, sh, pad)
            ==> t == Decided(OffEdge)
    ensures t.Aim? && computeSize ==> t.size == Some(HalfSize(lim)) && HalfSize(lim) >= 4
    ensures computeSize && lim.area != 0.0 && lim.finite && !OffImage(lim, sh, pad) && HalfSize(lim) < 4
            ==> t == Decided(OffEdge)
  {
    if computeSize || x.None? || y.None? || size.None? then
      if lim.area == 0.0 || !lim.finite then Decided(Missing)
      else if OffImage(lim, sh, pad) then Decided(OffEdge)
      else if computeSize then
        var s := HalfSize(lim);
        if s < 4 then Decided(OffEdge) else Aim(lim.x, lim.y, Some(s))
      else Aim(lim.x, lim.y, size)
    else Aim(x.value, y.value, size)
  }

  /** Locating object `id` in the direct image `data` (`REF` when present,
      else `SCI`) with segmentation `seg`, both `sh` in shape, whose detector
      origin is `dorigin`. A catalogue, when present, must list the id and
      then fixes the centre (its 1-based `x_flt, y_flt` less 1); the label
      must also occur inside the segmentation thumbnail. */
  function LocateObject(id: int, x: Option<real>, y: Option<real>, size: Option<int>, computeSize: bool,
                        catalog: Option<map<int, (real, real)>>, data: seq<seq<real>>, seg: seq<seq<int>>,
                        sh: (nat, nat), dorigin: (int, int), pad: int, limits: SegmentLimits): (r: Location)
    requires IsGrid(data, sh.0, sh.1) && IsGrid(seg, sh.0, sh.1)
    ensures catalog.Some? && id !in catalog.value ==> r == Missing
    ensures r.At? ==> Aiming(x, y, size, computeSize, limits(seg, id, data), sh, pad).Aim?
                      && Aiming(x, y, size, computeSize, limits(seg, id, data), sh, pad).size.Some?
    ensures r.At? ==>
      var t := Aiming(x, y, size, computeSize, limits(seg, id, data), sh, pad);
      var cx := if catalog.Some? then catalog.value[id].0 - 1.0 else t.x;
      var cy := if catalog.Some? then catalog.value[id].1 - 1.0 else t.y;
      && r.t == ThumbnailAt(data, seg, sh, cx, cy, t.size.value, dorigin)
      && limits(r.t.segThumb, id, r.t.thumb).area != 0.0
  {
    if catalog.Some? && id !in catalog.value then Missing
    else
      match Aiming(x, y, size, computeSize, limits(seg, id, data), sh, pad)
      case Decided(loc) => loc
      case Aim(ax, ay, asize) =>
        if asize.None? then NoSize
        else
          var cx := if catalog.Some? then catalog.value[id].0 - 1.0 else ax;
          var cy := if catalog.Some? then catalog.value[id].1 - 1.0 else ay;
          var t := ThumbnailAt(data, seg, sh, cx, cy, asize.value, dorigin);
          if limits(t.segThumb, id, t.thumb).area == 0.0 then Missing else At(t)
  }

  /** The thumbnails of half-size `s` around the centre `(cx, cy)`: the
      image and segmentation windows (clipped by numpy to the image), their
      shape, and the window's lower-left corner in the detector frame. */
  function ThumbnailAt(data: seq<seq<real>>, seg: seq<seq<int>>, sh: (nat, nat),
                       cx: real, cy: real, s: int, dorigin: (int, int)): (t: Thumbnail)
    requires IsGrid(data, sh.0, sh.1) && IsGrid(seg, sh.0, sh.1)
    ensures t.origin == (Centre(cy).0 - s + dorigin.0, Centre(cx).0 - s + dorigin.1)
    ensures (t.xcenter, t.ycenter) == (Centre(cx).1, Centre(cy).1)
    ensures t.thumb == SubGrid(data, sh.0, sh.1, (Centre(cy).0 - s, Centre(cy).0 + s), (Centre(cx).0 - s, Centre(cx).0 + s))
    ensures t.segThumb == SubGrid(seg, sh.0, sh.1, (Centre(cy).0 - s, Centre(cy).0 + s), (Centre(cx).0 - s, Centre(cx).0 + s))
    ensures IsGrid(t.thumb, t.sh.0, t.sh.1) && IsGrid(t.segThumb, t.sh.0, t.sh.1)
  {
    var rs := (Centre(cy).0 - s, Centre(cy).0 + s);
    var cs := (Centre(cx).0 - s, Centre(cx).0 + s);
    var thumb := SubGrid(data, sh.0, sh.1, rs, cs);
    var segThumb := SubGrid(seg, sh.0, sh.1, rs, cs);
    var tsh := (SliceRange(rs.0, rs.1, sh.0).1 - SliceRange(rs.0, rs.1, sh.0).0,
                SliceRange(cs.0, cs.1, sh.1).1 - SliceRange(cs.0, cs.1, sh.1).0);
    Thumbnail(thumb, segThumb, tsh, (Centre(cy).0 - s + dorigin.0, Centre(cx).0 - s + dorigin.1), Centre(cx).1, Centre(cy).1)
  }

  /** `s` is strictly increasing. */
  predicate Increasing(s: seq<int>)
  {
    forall i, j :: 0 <= i < j < |s| ==> s[i] < s[j]
  }

  /** Row-major flattening of a label grid. */
  function Flatten(g: seq<seq<int>>): (s: seq<int>)
    ensures forall v :: v in s <==> exists i, j :: 0 <= i < |g| && 0 <= j < |g[i]| && g[i][j] == v
  {
    if g == [] then []
    else
      var s := Flatten(g[..|g| - 1]) + g[|g| - 1];
      assert forall i :: 0 <= i < |g| - 1 ==> g[..|g| - 1][i] == g[i];
      s
  }

  /** `v` placed into an increasing sequence, unless already there. */
  function InsertSorted(s: seq<int>, v: int): (r: seq<int>)
    requires Increasing(s)
    ensures Increasing(r)
    ensures forall u :: u in r <==> u in s || u == v
    decreases |s|
  {
    if s == [] then [v]
    else if v < s[0] then [v] + s
    else if v == s[0] then s
    else
      var rest := InsertSorted(s[1..], v);
      forall k | 0 <= k < |rest| ensures s[0] < rest[k] {
        assert rest[k] in rest;
        if rest[k] != v {
          var j :| 0 <= j < |s[1..]| && s[1..][j] == rest[k];
          assert s[j + 1] == rest[k];
        }
      }
      [s[0]] + rest
  }

  /** `np.unique`: the distinct values, in increasing order. */
  function Unique(s: seq<int>): (u: seq<int>)
    ensures Increasing(u)
    ensures forall v :: v in u <==> v in s
  {
    if s == [] then [] else InsertSorted(Unique(s[..|s| - 1]), s[|s| - 1])
  }

  /** `np.unique(self.seg)[1:]`: every label but the smallest one. */
  function DefaultIds(seg: seq<seq<int>>): (ids: seq<int>)
  {
    var u := Unique(Flatten(seg));
    if u == [] then [] else u[1..]
  }

  /** The default id list is increasing and holds exactly the labels that
      have a smaller label somewhere in the image. */
  lemma DefaultIdsContents(seg: seq<seq<int>>)
    ensures Increasing(DefaultIds(seg))
    ensures forall v :: v in DefaultIds(seg) <==>
              v in Flatten(seg) && exists w :: w in Flatten(seg) && w < v
  {
    var u := Unique(Flatten(seg));
    if u != [] {
      forall v | v in u[1..]
        ensures u[0] in Flatten(seg) && u[0] < v
      {
        var k :| 1 <= k < |u| && u[k] == v;
      }
      forall v | v in Flatten(seg) && (exists w :: w in Flatten(seg) && w < v)
        ensures v in u[1..]
      {
        var w :| w in Flatten(seg) && w < v;
        var k :| 0 <= k < |u| && u[k] == v;
        var l :| 0 <= l < |u| && u[l] == w;
        assert k != 0;
      }
    }
  }

  /** With a background label 0 and no negative labels, the default ids are
      exactly the positive labels. */
  lemma DefaultIdsAreObjects(seg: seq<seq<int>>)
    requires 0 in Flatten(seg)
    requires forall v :: v in Flatten(seg) ==> v >= 0
    ensures forall v :: v in DefaultIds(seg) <==> v in Flatten(seg) && v > 0
  {
    DefaultIdsContents(seg);
  }

  /** Without a background pixel the smallest object label is dropped: a
      one-pixel image labelled 5 yields no id at all. */
  lemma DefaultIdsDropSmallestObject()
    ensures DefaultIds([[5]]) == []
  {
    assert Flatten([[5]]) == [5];
  }

  /** The keys of an ordered dictionary held as a key/value list. */
  predicate HasKey<T>(d: seq<(string, T)>, k: string)
  {
    exists i :: 0 <= i < |d| && d[i].0 == k
  }

  /** `d[k] = v` on an ordered dictionary held as a key/value list: an
      existing key keeps its place and takes the new value, a new key is
      appended. */
  function Put<T>(d: seq<(string, T)>, k: string, v: T): (r: seq<(string, T)>)
    ensures HasKey(d, k) ==> |r| == |d|
    ensures !HasKey(d, k) ==> r == d + [(k, v)]
    ensures forall i :: 0 <= i < |d| ==> r[i] == (if d[i].0 == k then (k, v) else d[i])
    ensures forall u :: HasKey(r, u) <==> HasKey(d, u) || u == k
  {
    if HasKey(d, k) then
      var r := seq(|d|, i requires 0 <= i < |d| => if d[i].0 == k then (k, v) else d[i]);
      assert forall u :: HasKey(d, u) ==> HasKey(r, u) by {
        forall u | HasKey(d, u) ensures HasKey(r, u) {
          var i :| 0 <= i < |d| && d[i].0 == u;
          assert r[i].0 == u;
        }
      }
      r
    else
      var r := d + [(k, v)];
      assert r[|d|].0 == k;
      assert forall u :: HasKey(d, u) ==> HasKey(r, u) by {
        forall u | HasKey(d, u) ensures HasKey(r, u) {
          var i :| 0 <= i < |d| && d[i].0 == u;
          assert r[i].0 == u;
        }
      }
      r
  }
}
