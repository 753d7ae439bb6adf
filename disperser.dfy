/** One spectral order of one object (`GrismDisperser`): the geometry fixed
    at construction, the flat model buffer `modelf` that `compute_model`
    overwrites, and the transfer of that 2D model into and out of a
    detector-sized frame. */
module Disperser {
  import opened Common
  import opened BeamGeometry
  import opened Placement

  /** A 1D template spectrum `[wavelength, flux]`. */
  type Spectrum = (seq<real>, seq<real>)

  /** The C raytracer `disperse_grism_object(thumb, seg, id, flat_index,
      yfrac, weights, x0, sh, x0, sh_beam)`: the flux it adds to each
      position of the flat beam buffer (positions it does not list receive
      nothing). */
  type Kernel = (seq<seq<real>>, seq<seq<int>>, int, seq<int>, seq<real>, seq<real>, (int, int), (int, int), (int, int)) -> seq<real>

  /** What `compute_model` returns: `False` for a thumbnail of the wrong
      shape, `True` when computed in place, the output buffer otherwise; or
      the `ValueError` numpy raises when the resampled template has the wrong
      length. */
  datatype ModelResult = ShapeMismatch | InPlaceDone | Output(out: array<real>) | Raised

  /** Sum of the direct image over the pixels labelled `id`
      (`direct[seg == id].sum()`). */
  function SegmentFlux(direct: seq<seq<real>>, seg: seq<seq<int>>, id: int): real
    requires |seg| == |direct| && forall i :: 0 <= i < |direct| ==> |seg[i]| == |direct[i]|
    decreases |direct|
  {
    if direct == [] then 0.0
    else
      var n := |direct| - 1;
      SegmentFlux(direct[..n], seg[..n], id) + RowFlux(direct[n], seg[n], id)
  }

  function RowFlux(row: seq<real>, seg: seq<int>, id: int): real
    requires |seg| == |row|
  {
    if row == [] then 0.0
    else
      var n := |row| - 1;
      RowFlux(row[..n], seg[..n], id) + (if seg[n] == id then row[n] else 0.0)
  }

  /** An object with no labelled pixel has no flux. */
  lemma {:induction false} SegmentFluxEmpty(direct: seq<seq<real>>, seg: seq<seq<int>>, id: int)
    requires |seg| == |direct| && forall i :: 0 <= i < |direct| ==> |seg[i]| == |direct[i]|
    requires forall i, j :: 0 <= i < |seg| && 0 <= j < |seg[i]| ==> seg[i][j] != id
    ensures SegmentFlux(direct, seg, id) == 0.0
    decreases |direct|
  {
    if direct != [] {
      var n := |direct| - 1;
      assert forall i :: 0 <= i < n ==> seg[..n][i] == seg[i];
      SegmentFluxEmpty(direct[..n], seg[..n], id);
      RowFluxEmpty(direct[n], seg[n], id);
    }
  }

  lemma {:induction false} RowFluxEmpty(row: seq<real>, seg: seq<int>, id: int)
    requires |seg| == |row|
    requires forall j :: 0 <= j < |seg| ==> seg[j] != id
    ensures RowFlux(row, seg, id) == 0.0
  {
    if row != [] {
      var n := |row| - 1;
      assert forall j :: 0 <= j < n ==> seg[..n][j] == seg[j];
      RowFluxEmpty(row[..n], seg[..n], id);
    }
  }

  /** The detector-frame footprint of a beam: the parent slices and the beam
      shape. */
  function FootprintOf(g: Geometry): (fp: Footprint)
    requires WellFormed(g)
    ensures fp.row0 == g.slyParent.0 && fp.row0 + fp.rows == g.slyParent.1
    ensures fp.col0 == g.slxParent.0 && fp.col0 + fp.cols == g.slxParent.1
    ensures fp.rows == g.shBeam.0 && fp.cols == g.shBeam.1 && fp.cols >= 1
  {
    Footprint(g.slyParent.0, g.slxParent.0, g.shBeam.0, g.shBeam.1)
  }

  /** The per-offset weights handed to the raytracer: the sensitivity alone
      for a flat spectrum, otherwise the sensitivity times the template
      resampled on the sorted wavelengths (`sensitivity_beam*scale_spec`). */
  function BeamWeights(g: Geometry, spectrum: Option<Spectrum>, interp: Interp): (r: Option<seq<real>>)
    requires WellFormed(g)
    ensures spectrum.None? ==> r == Some(g.sensitivityBeam)
    ensures spectrum.Some? ==>
      (r.Some? <==> |interp(Permute(g.lamBeam, g.lamSort), spectrum.value.0, spectrum.value.1)| == |g.dx|)
    ensures r.Some? ==> |r.value| == |g.dx|
    ensures spectrum.Some? && r.Some? ==> forall k :: 0 <= k < |g.dx| ==>
      r.value[g.lamSort[k]] == g.sensitivityBeam[g.lamSort[k]]
                               * interp(Permute(g.lamBeam, g.lamSort), spectrum.value.0, spectrum.value.1)[k]
  {
    match spectrum
    case None => Some(g.sensitivityBeam)
    case Some(sp) =>
      match ResampleSorted(g.lamBeam, g.lamSort, sp.0, sp.1, interp)
      case None => None
      case Some(scale) =>
        Some(seq(|g.dx|, k requires 0 <= k < |g.dx| => g.sensitivityBeam[k] * scale[k]))
  }

  class GrismDisperser {
    var id: int
    const direct: seq<seq<real>>
    const seg: seq<seq<int>>
    const geom: Geometry
    /** The constructor arguments the object keeps. */
    const xcenter: real
    const ycenter: real
    const pad: int
    const grow: int
    const beam: string
    const conf: GrismConf
    const totalFlux: real
    var spectrum1d: Option<Spectrum>
    /** The 2D model, stored flat in row-major order. */
    const modelf: array<real>

    ghost predicate Valid()
    {
      && WellFormed(geom)
      && IsGrid(direct, geom.sh.0, geom.sh.1) && IsGrid(seg, geom.sh.0, geom.sh.1)
      && modelf.Length == geom.shBeam.0 * geom.shBeam.1
    }

    /** `self.model`, the row-major view of `modelf`. */
    function Model(): (m: seq<seq<real>>)
      requires Valid()
      reads modelf
      ensures IsGrid(m, geom.shBeam.0, geom.shBeam.1)
    {
      Reshape(modelf[..], geom.shBeam.0, geom.shBeam.1)
    }

    function ParentFootprint(): (fp: Footprint)
      requires Valid()
    {
      FootprintOf(geom)
    }

    constructor Init(id: int, direct: seq<seq<real>>, seg: seq<seq<int>>, geom: Geometry,
                     xcenter: real, ycenter: real, pad: int, grow: int, beam: string, conf: GrismConf)
      requires WellFormed(geom) && TraceConsistent(geom)
      requires IsGrid(direct, geom.sh.0, geom.sh.1) && IsGrid(seg, geom.sh.0, geom.sh.1)
      ensures Valid() && fresh(modelf)
      ensures this.id == id && this.direct == direct && this.seg == seg && this.geom == geom
      ensures this.xcenter == xcenter && this.ycenter == ycenter && this.pad == pad && this.grow == grow
      ensures this.beam == beam && this.conf == conf
      ensures spectrum1d == None && totalFlux == SegmentFlux(direct, seg, id)
      ensures forall p :: 0 <= p < modelf.Length ==> modelf[p] == 0.0
    {
      this.id := id;
      this.direct := direct;
      this.seg := seg;
      this.geom := geom;
      this.xcenter := xcenter;
      this.ycenter := ycenter;
      this.pad := pad;
      this.grow := grow;
      this.beam := beam;
      this.conf := conf;
      totalFlux := SegmentFlux(direct, seg, id);
      spectrum1d := None;
      modelf := new real[geom.shBeam.0 * geom.shBeam.1](_ => 0.0);
    }

    /** `GrismDisperser(...)`: `None` exactly when the constructor raises.
        A missing segmentation image defaults to zeros. */
    static method Create(id: int, direct: seq<seq<real>>, sh: (nat, nat), segmentation: Option<seq<seq<int>>>,
                         xcenter: real, ycenter: real, origin: (int, int), pad: int, grow: int,
                         beam: string, conf: GrismConf, interp: Interp) returns (r: Option<GrismDisperser>)
      requires IsGrid(direct, sh.0, sh.1)
      requires segmentation.Some? ==> IsGrid(segmentation.value, sh.0, sh.1)
      ensures r.None? <==> MakeGeometry(sh, origin, xcenter, ycenter, pad, grow, beam, conf, interp).None?
      ensures r.Some? ==> fresh(r.value) && fresh(r.value.modelf) && r.value.Valid() && TraceConsistent(r.value.geom)
      ensures r.Some? ==> r.value.geom == MakeGeometry(sh, origin, xcenter, ycenter, pad, grow, beam, conf, interp).value
      ensures r.Some? ==> r.value.id == id && r.value.direct == direct && r.value.spectrum1d == None
      ensures r.Some? ==> r.value.xcenter == xcenter && r.value.ycenter == ycenter && r.value.pad == pad
                          && r.value.grow == grow && r.value.beam == beam && r.value.conf == conf
      ensures r.Some? ==> r.value.seg == (if segmentation.Some? then segmentation.value else seq(sh.0, i => seq(sh.1, j => 0)))
      ensures r.Some? ==> forall p :: 0 <= p < r.value.modelf.Length ==> r.value.modelf[p] == 0.0
    {
      var seg := if segmentation.Some? then segmentation.value else seq(sh.0, i => seq(sh.1, j => 0));
      var g := MakeGeometry(sh, origin, xcenter, ycenter, pad, grow, beam, conf, interp);
      if g.None? {
        return None;
      }
      var b := new GrismDisperser.Init(id, direct, seg, g.value, xcenter, ycenter, pad, grow, beam, conf);
      return Some(b);
    }

    /** `compute_model`. A given `newId` replaces the stored id. In place, the
        template is recorded and `modelf` is cleared before the thumbnail
        shape is checked, and the raytraced flux then fills `modelf`;
        otherwise it is added into `outdata` or into a fresh zero buffer,
        which is returned. */
    method ComputeModel(newId: Option<int>, thumb: Option<seq<seq<real>>>, spectrum: Option<Spectrum>,
                        inPlace: bool, outdata: Option<array<real>>, kernel: Kernel, interp: Interp)
      returns (r: ModelResult)
      requires Valid()
      requires outdata.Some? ==> outdata.value.Length == modelf.Length
      modifies this, modelf, if outdata.Some? then {outdata.value} else {}
      ensures Valid()
      ensures id == (if newId.Some? then newId.value else old(id))
      ensures spectrum1d == (if inPlace then spectrum else old(spectrum1d))
      ensures var w := BeamWeights(geom, spectrum, interp);
        && (w.None? <==> r == Raised)
        && (r == ShapeMismatch <==> w.Some? && thumb.Some? && !IsGrid(thumb.value, geom.sh.0, geom.sh.1))
        && (r.Output? <==> w.Some? && !inPlace && r != ShapeMismatch)
        && (r == InPlaceDone <==> w.Some? && inPlace && r != ShapeMismatch)
      ensures r == Raised ==> modelf[..] == old(modelf[..]) && (outdata.Some? ==> outdata.value[..] == old(outdata.value[..]))
      ensures inPlace && (r == ShapeMismatch || r == InPlaceDone) ==>
        var inc := kernel(if thumb.Some? then thumb.value else direct, seg, id, geom.flatIndex, geom.yfracBeam,
                          BeamWeights(geom, spectrum, interp).value, geom.x0, geom.sh, geom.shBeam);
        forall p :: 0 <= p < modelf.Length ==> modelf[p] == (if r == InPlaceDone then FlatAt(inc, p) else 0.0)
      ensures !inPlace ==> (outdata.None? || outdata.value != modelf) ==> modelf[..] == old(modelf[..])
      ensures !inPlace && r == ShapeMismatch && outdata.Some? ==> outdata.value[..] == old(outdata.value[..])
      ensures r.Output? ==>
        && (if outdata.Some? then r.out == outdata.value else fresh(r.out))
        && r.out.Length == modelf.Length
        && var inc := kernel(if thumb.Some? then thumb.value else direct, seg, id, geom.flatIndex, geom.yfracBeam,
                             BeamWeights(geom, spectrum, interp).value, geom.x0, geom.sh, geom.shBeam);
           forall p :: 0 <= p < r.out.Length ==>
             r.out[p] == (if outdata.Some? then old(outdata.value[p]) else 0.0) + FlatAt(inc, p)
    {
      if newId.Some? {
        id := newId.value;
      }
      if inPlace {
        spectrum1d := spectrum;
      }
      var w := BeamWeights(geom, spectrum, interp);
      if w.None? {
        return Raised;
      }
      var out: array<real>;
      if inPlace {
        forall p | 0 <= p < modelf.Length {
          modelf[p] := 0.0;
        }
        out := modelf;
      } else if outdata.Some? {
        out := outdata.value;
      } else {
        out := new real[modelf.Length](_ => 0.0);
      }
      var t := direct;
      if thumb.Some? {
        if !IsGrid(thumb.value, geom.sh.0, geom.sh.1) {
          return ShapeMismatch;
        }
        t := thumb.value;
      }
      var inc := kernel(t, seg, id, geom.flatIndex, geom.yfracBeam, w.value, geom.x0, geom.sh, geom.shBeam);
      forall p | 0 <= p < out.Length {
        out[p] := out[p] + FlatAt(inc, p);
      }
      if inPlace {
        r := InPlaceDone;
      } else {
        r := Output(out);
      }
    }

    /** `add_to_full_image` as written, including the row mask tested
        against the frame width. */
    method AddToFullImage(data: seq<seq<real>>, full: array2<real>) returns (r: AddOutcome)
      requires Valid() && IsGrid(data, geom.shBeam.0, geom.shBeam.1)
      modifies full
      ensures r == AddAsWrittenOutcome(ParentFootprint(), full.Length0, full.Length1)
      ensures r == Added ==> forall i, j :: 0 <= i < full.Length0 && 0 <= j < full.Length1 ==>
                full[i, j] == old(full[i, j]) + AddAsWrittenDelta(ParentFootprint(), data, full.Length0, full.Length1, i, j)
      ensures r != Added ==> unchanged(full)
    {
      r := AddBlockAsWritten(ParentFootprint(), data, full);
    }

    /** The intended `add_to_full_image`: the overlapping part of the block
        is added and the rest of the frame is left alone; `false` when
        nothing overlaps. */
    method AddToFullImageClipped(data: seq<seq<real>>, full: array2<real>) returns (r: bool)
      requires Valid() && IsGrid(data, geom.shBeam.0, geom.shBeam.1)
      modifies full
      ensures r == Overlaps(ParentFootprint(), full.Length0, full.Length1)
      ensures forall i, j :: 0 <= i < full.Length0 && 0 <= j < full.Length1 ==>
                full[i, j] == old(full[i, j]) + Placed(ParentFootprint(), data, i, j)
    {
      r := AddBlockClipped(ParentFootprint(), data, full);
    }
  }
}
