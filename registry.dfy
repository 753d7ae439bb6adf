/** The object registry of `GrismFLT`: `object_dispersers` maps each object
    id to its computed spectral orders (or to the template they were last
    computed with), and the full-frame `model` holds the sum of what every
    registered object has added to it. `compute_model_orders` recomputes one
    object and moves its contribution; `compute_full_model` runs it over a
    list of ids. */
module Registry {
  import opened Common
  import opened BeamGeometry
  import opened Placement
  import opened Disperser
  import opened Locate

  /** A full-frame contribution, pixel by pixel. */
  type Frame = (int, int) -> real

  /** The `OrderedDict` of one object's spectral orders, by order name. */
  type Beams = seq<(string, GrismDisperser)>

  /** A value of `object_dispersers`: the orders themselves (`store=True`),
      or only the template they were computed with (`store=False`). */
  datatype Entry = Computed(beams: Beams) | Template(spectrum: Option<Spectrum>)

  /** The outcomes of `compute_model_orders`: `False`, `True` for an object
      that cannot reach the grism image, `True` after an in-place update,
      the orders alone (`get_beams`), the orders and a separate frame
      (`in_place=False`), or an exception. */
  datatype OrdersResult = NotFound | Skipped | Done | BeamsOnly(beams: Beams)
                        | Detached(beams: Beams, output: array2<real>) | Raised

  ghost predicate AllValid(bs: Beams)
  {
    forall k {:trigger bs[k].1.Valid()} :: 0 <= k < |bs| ==> bs[k].1.Valid()
  }

  /** The model buffers of a list of orders. */
  function Buffers(bs: Beams): set<object>
  {
    set k | 0 <= k < |bs| :: bs[k].1.modelf
  }

  /** The order objects of a list of orders. */
  function Objects(bs: Beams): set<object>
  {
    set k | 0 <= k < |bs| :: bs[k].1
  }

  /** No two orders share a model buffer (so no two are the same object). */
  ghost predicate DistinctBuffers(bs: Beams)
  {
    forall k, l :: 0 <= k < l < |bs| ==> bs[k].1.modelf != bs[l].1.modelf
  }

  /** What one order adds to the frame: its current 2D model placed at its
      parent slices. */
  ghost function FrameOf(b: GrismDisperser): (f: Frame)
    requires b.Valid()
    reads b.modelf
  {
    var m := b.Model();
    var fp := b.ParentFootprint();
    (r: int, c: int) => Placed(fp, m, r, c)
  }

  /** The contributions of a list of orders, in order. */
  ghost function Frames(bs: Beams): (fs: seq<Frame>)
    requires AllValid(bs)
    reads Buffers(bs)
  {
    seq(|bs|, k requires 0 <= k < |bs| reads Buffers(bs) => FrameOf(bs[k].1))
  }

  /** Sum of a list of contributions at one pixel. */
  function SumAt(fs: seq<Frame>, r: int, c: int): real
  {
    if fs == [] then 0.0 else SumAt(fs[..|fs| - 1], r, c) + fs[|fs| - 1](r, c)
  }

  lemma SumAtSnoc(fs: seq<Frame>, f: Frame, r: int, c: int)
    ensures SumAt(fs + [f], r, c) == SumAt(fs, r, c) + f(r, c)
  {
    assert (fs + [f])[..|fs|] == fs;
  }

  /** What one order adds to a frame, as its `add_to_full_image` with the
      negated model takes it away. */
  lemma PlacedNegate(fp: Footprint, data: seq<seq<real>>, r: int, c: int)
    requires IsGrid(data, fp.rows, fp.cols)
    ensures Placed(fp, Negate(data), r, c) == -Placed(fp, data, r, c)
  {
  }

  /** The beam's raytraced flux for `spectrum`: what `compute_model` leaves in
      its buffer. */
  function Raytraced(b: GrismDisperser, id: int, spectrum: Option<Spectrum>, kernel: Kernel, interp: Interp): seq<real>
    requires b.Valid() && BeamWeights(b.geom, spectrum, interp).Some?
  {
    kernel(b.direct, b.seg, id, b.geom.flatIndex, b.geom.yfracBeam,
           BeamWeights(b.geom, spectrum, interp).value, b.geom.x0, b.geom.sh, b.geom.shBeam)
  }

  /** The order's template cannot be resampled onto its wavelengths (numpy
      raises a `ValueError` in `compute_model`). */
  ghost predicate Unresampled(b: GrismDisperser, spectrum: Option<Spectrum>, interp: Interp)
    requires b.Valid()
  {
    BeamWeights(b.geom, spectrum, interp).None?
  }

  /** What `compute_model(id=id, spectrum_1d=spectrum, in_place=True)` leaves
      in an order: the new id and template, and the raytraced flux in its
      buffer. */
  ghost predicate Refreshed(b: GrismDisperser, id: int, spectrum: Option<Spectrum>, kernel: Kernel, interp: Interp)
    requires b.Valid()
    reads b, b.modelf
  {
    && BeamWeights(b.geom, spectrum, interp).Some?
    && b.id == id && b.spectrum1d == spectrum
    && forall p :: 0 <= p < b.modelf.Length ==> b.modelf[p] == FlatAt(Raytraced(b, id, spectrum, kernel, interp), p)
  }

  /** One order inside that loop: optionally subtract its previous model
      from `out`, recompute it in place for `spectrum`, and add the new
      model. */
  method ProcessBeam(b: GrismDisperser, id: int, spectrum: Option<Spectrum>, subtract: bool, out: array2<real>,
                     kernel: Kernel, interp: Interp) returns (raised: bool)
    requires b.Valid()
    modifies out, b, b.modelf
    ensures b.Valid()
    ensures raised <==> Unresampled(b, spectrum, interp)
    ensures !raised ==> Refreshed(b, id, spectrum, kernel, interp)
    ensures !raised ==> forall r, c :: 0 <= r < out.Length0 && 0 <= c < out.Length1 ==>
              out[r, c] == old(out[r, c]) - (if subtract then old(FrameOf(b))(r, c) else 0.0) + FrameOf(b)(r, c)
  {
    ghost var f0 := FrameOf(b);
    if subtract {
      var m := b.Model();
      var _ := b.AddToFullImageClipped(Negate(m), out);
      forall r, c | 0 <= r < out.Length0 && 0 <= c < out.Length1
        ensures out[r, c] == old(out[r, c]) - f0(r, c)
      {
        PlacedNegate(b.ParentFootprint(), m, r, c);
      }
    }
    var res := b.ComputeModel(Some(id), None, spectrum, true, None, kernel, interp);
    if res == ModelResult.Raised {
      return true;
    }
    var _ := b.AddToFullImageClipped(b.Model(), out);
    return false;
  }

  /** The contents of a frame buffer, row by row. */
  ghost function Snapshot(out: array2<real>): (g: seq<seq<real>>)
    reads out
    ensures IsGrid(g, out.Length0, out.Length1)
    ensures forall r, c :: 0 <= r < out.Length0 && 0 <= c < out.Length1 ==> g[r][c] == out[r, c]
  {
    seq(out.Length0, r requires 0 <= r < out.Length0 reads out =>
      seq(out.Length1, c requires 0 <= c < out.Length1 reads out => out[r, c]))
  }

  /** One turn of the loop in `ProcessBeams`: the orders before `i` are
      recomputed and their change is in `out`; the rest are as they were. */
  method ProcessNext(bs: Beams, i: nat, id: int, spectrum: Option<Spectrum>, subtract: bool, out: array2<real>,
                     kernel: Kernel, interp: Interp, ghost f0: seq<Frame>, ghost cur: seq<Frame>, ghost o0: seq<seq<real>>)
    returns (raised: bool, ghost next: seq<Frame>)
    requires AllValid(bs) && DistinctBuffers(bs) && i < |bs| && |f0| == |bs| && |cur| == |bs|
    requires IsGrid(o0, out.Length0, out.Length1)
    requires forall k :: i <= k < |bs| ==> cur[k] == f0[k]
    requires forall k :: 0 <= k < |bs| ==> FrameOf(bs[k].1) == cur[k]
    requires forall k :: 0 <= k < i ==> Refreshed(bs[k].1, id, spectrum, kernel, interp)
    requires forall r, c :: 0 <= r < out.Length0 && 0 <= c < out.Length1 ==>
               out[r, c] == o0[r][c] - (if subtract then SumAt(f0[..i], r, c) else 0.0) + SumAt(cur[..i], r, c)
    modifies out, bs[i].1, bs[i].1.modelf
    ensures raised <==> Unresampled(bs[i].1, spectrum, interp)
    ensures !raised ==> |next| == |bs| && forall k :: i + 1 <= k < |bs| ==> next[k] == f0[k]
    ensures !raised ==> forall k :: 0 <= k < |bs| ==> FrameOf(bs[k].1) == next[k]
    ensures !raised ==> forall k :: 0 <= k < i + 1 ==> Refreshed(bs[k].1, id, spectrum, kernel, interp)
    ensures !raised ==> forall r, c :: 0 <= r < out.Length0 && 0 <= c < out.Length1 ==>
              out[r, c] == o0[r][c] - (if subtract then SumAt(f0[..i + 1], r, c) else 0.0) + SumAt(next[..i + 1], r, c)
  {
    var b := bs[i].1;
    assert forall k :: 0 <= k < |bs| && k != i ==> bs[k].1.modelf != b.modelf && bs[k].1 != b;
    next := cur;
    raised := ProcessBeam(b, id, spectrum, subtract, out, kernel, interp);
    if raised {
      return;
    }
    next := cur[i := FrameOf(b)];
    forall r, c | 0 <= r < out.Length0 && 0 <= c < out.Length1
      ensures out[r, c] == o0[r][c] - (if subtract then SumAt(f0[..i + 1], r, c) else 0.0) + SumAt(next[..i + 1], r, c)
    {
      assert f0[..i + 1] == f0[..i] + [f0[i]];
      assert next[..i + 1] == cur[..i] + [FrameOf(b)];
      SumAtSnoc(f0[..i], f0[i], r, c);
      SumAtSnoc(cur[..i], FrameOf(b), r, c);
    }
  }

  /** The loop over one object's orders, `ProcessBeam` on each; stops at the
      first order whose template cannot be resampled. */
  method ProcessBeams(bs: Beams, id: int, spectrum: Option<Spectrum>, subtract: bool, out: array2<real>,
                      kernel: Kernel, interp: Interp) returns (raised: bool)
    requires AllValid(bs) && DistinctBuffers(bs)
    modifies out, Objects(bs), Buffers(bs)
    ensures raised <==> exists k :: 0 <= k < |bs| && Unresampled(bs[k].1, spectrum, interp)
    ensures !raised ==> forall k :: 0 <= k < |bs| ==> Refreshed(bs[k].1, id, spectrum, kernel, interp)
    ensures !raised ==> forall r, c :: 0 <= r < out.Length0 && 0 <= c < out.Length1 ==>
              out[r, c] == old(out[r, c]) - (if subtract then SumAt(old(Frames(bs)), r, c) else 0.0) + SumAt(Frames(bs), r, c)
  {
    ghost var f0 := Frames(bs);
    ghost var o0 := Snapshot(out);
    ghost var cur := f0;
    var i := 0;
    while i < |bs|
      invariant 0 <= i <= |bs| && |cur| == |bs|
      invariant forall k :: i <= k < |bs| ==> cur[k] == f0[k]
      invariant forall k :: 0 <= k < |bs| ==> FrameOf(bs[k].1) == cur[k]
      invariant forall k :: 0 <= k < i ==> !Unresampled(bs[k].1, spectrum, interp)
      invariant forall k :: 0 <= k < i ==> Refreshed(bs[k].1, id, spectrum, kernel, interp)
      invariant forall r, c :: 0 <= r < out.Length0 && 0 <= c < out.Length1 ==>
                  out[r, c] == o0[r][c] - (if subtract then SumAt(f0[..i], r, c) else 0.0) + SumAt(cur[..i], r, c)
    {
      assert bs[i].1 in Objects(bs) && bs[i].1.modelf in Buffers(bs);
      raised, cur := ProcessNext(bs, i, id, spectrum, subtract, out, kernel, interp, f0, cur, o0);
      if raised {
        return;
      }
      i := i + 1;
    }
    assert f0[..|bs|] == f0;
    assert cur[..|bs|] == cur;
    assert Frames(bs) == cur;
    return false;
  }

  /** The keys of an ordered dictionary, in order. */
  function Names<T>(d: seq<(string, T)>): (ns: seq<string>)
    ensures |ns| == |d| && forall k :: 0 <= k < |d| ==> ns[k] == d[k].0
  {
    seq(|d|, k requires 0 <= k < |d| => d[k].0)
  }

  predicate Distinct<T(==)>(s: seq<T>)
  {
    forall k, l :: 0 <= k < l < |s| ==> s[k] != s[l]
  }

  /** `Put` on a dictionary with distinct keys: the key is appended when new,
      and exactly the entry with that key holds the new value. */
  lemma PutShape<T>(d: seq<(string, T)>, key: string, v: T)
    requires Distinct(Names(d))
    ensures Names(Put(d, key, v)) == if key in Names(d) then Names(d) else Names(d) + [key]
    ensures forall i :: 0 <= i < |Put(d, key, v)| ==>
              if Put(d, key, v)[i].0 == key then Put(d, key, v)[i] == (key, v) else i < |d| && Put(d, key, v)[i] == d[i]
  {
    if key in Names(d) {
      var i :| 0 <= i < |d| && Names(d)[i] == key;
      assert HasKey(d, key);
    } else {
      assert !HasKey(d, key);
    }
  }

  /** The geometry `GrismDisperser` derives for order `u` of a thumbnail. */
  function GeometryFor(t: Thumbnail, u: string, conf: GrismConf, pad: int, grow: int, interp: Interp): Option<Geometry>
  {
    MakeGeometry(t.sh, t.origin, t.xcenter, t.ycenter, pad, grow, u, conf, interp)
  }

  /** The geometry each order name gets. The order and failure predicates
      below take it as a value; `Derived` ties it to the constructor. */
  type GeometryOf = string -> Option<Geometry>

  /** `geo` gives every order name the geometry the constructor derives
      from thumbnail `t`. */
  ghost predicate Derived(geo: GeometryOf, t: Thumbnail, conf: GrismConf, pad: int, grow: int, interp: Interp)
  {
    forall u {:trigger GeometryFor(t, u, conf, pad, grow, interp)} :: geo(u) == GeometryFor(t, u, conf, pad, grow, interp)
  }

  /** Such a geometry exists for every thumbnail. */
  lemma SomeDerived(t: Thumbnail, conf: GrismConf, pad: int, grow: int, interp: Interp)
    ensures exists geo :: Derived(geo, t, conf, pad, grow, interp)
  {
    var geo: GeometryOf := u => GeometryFor(t, u, conf, pad, grow, interp);
    assert Derived(geo, t, conf, pad, grow, interp);
  }

  /** Order `u` is computed: its `MMAG_EXTRACT_<u>` limit is not exceeded by
      `mag` and its `GrismDisperser` can be built. */
  predicate Admitted(u: string, mag: real, geo: GeometryOf, conf: GrismConf)
  {
    u in conf.mmagExtract && !(mag > conf.mmagExtract[u]) && geo(u).Some?
  }

  /** Order `u` makes the loop raise: its faint limit is missing from the
      configuration (`KeyError`), or it is admitted, the object already has a
      template `prior`, and that template cannot be resampled onto the
      order's (well-formed, as every constructed one is) geometry. */
  ghost predicate Fails(u: string, mag: real, geo: GeometryOf, conf: GrismConf, interp: Interp,
                        prior: Option<Option<Spectrum>>)
  {
    || u !in conf.mmagExtract
    || (Admitted(u, mag, geo, conf) && prior.Some? && WellFormed(geo(u).value)
        && BeamWeights(geo(u).value, prior.value, interp).None?)
  }

  /** The keys of the `beams` dictionary built from `names`: each admitted
      name at its first occurrence (`BeamOrderContents` states this). */
  function BeamOrder(names: seq<string>, mag: real, geo: GeometryOf, conf: GrismConf): (ns: seq<string>)
    ensures |ns| <= |names|
  {
    if names == [] then []
    else
      var n := |names| - 1;
      var prefix := BeamOrder(names[..n], mag, geo, conf);
      if Admitted(names[n], mag, geo, conf) && names[n] !in prefix then prefix + [names[n]] else prefix
  }

  lemma {:induction false} BeamOrderContents(names: seq<string>, mag: real, geo: GeometryOf, conf: GrismConf)
    ensures var ns := BeamOrder(names, mag, geo, conf);
      (forall u :: u in ns <==> u in names && Admitted(u, mag, geo, conf)) && Distinct(ns)
  {
    if names != [] {
      var n := |names| - 1;
      BeamOrderContents(names[..n], mag, geo, conf);
      assert names == names[..n] + [names[n]];
    }
  }

  /** One more name extends the order by that name when it is admitted and new. */
  lemma BeamOrderSnoc(names: seq<string>, n: nat, mag: real, geo: GeometryOf, conf: GrismConf)
    requires n < |names|
    ensures var prefix := BeamOrder(names[..n], mag, geo, conf);
      BeamOrder(names[..n + 1], mag, geo, conf)
      == if Admitted(names[n], mag, geo, conf) && names[n] !in prefix then prefix + [names[n]] else prefix
  {
    assert names[..n + 1][..n] == names[..n];
  }

  /** Some name in `names` makes the loop of `compute_model_orders` raise. */
  ghost predicate AnyFails(names: seq<string>, mag: real, geo: GeometryOf, conf: GrismConf, interp: Interp,
                           prior: Option<Option<Spectrum>>)
  {
    names != [] &&
    (AnyFails(names[..|names| - 1], mag, geo, conf, interp, prior)
     || Fails(names[|names| - 1], mag, geo, conf, interp, prior))
  }

  lemma {:induction false} AnyFailsSome(names: seq<string>, mag: real, geo: GeometryOf, conf: GrismConf,
                                        interp: Interp, prior: Option<Option<Spectrum>>)
    ensures AnyFails(names, mag, geo, conf, interp, prior)
            <==> exists m :: 0 <= m < |names| && Fails(names[m], mag, geo, conf, interp, prior)
  {
    if names != [] {
      var n := |names| - 1;
      AnyFailsSome(names[..n], mag, geo, conf, interp, prior);
      if AnyFails(names, mag, geo, conf, interp, prior) {
        if Fails(names[n], mag, geo, conf, interp, prior) {
        } else {
          var m :| 0 <= m < n && Fails(names[..n][m], mag, geo, conf, interp, prior);
          assert names[..n][m] == names[m];
        }
      } else {
        forall m | 0 <= m < |names|
          ensures !Fails(names[m], mag, geo, conf, interp, prior)
        {
          if m < n {
            assert names[..n][m] == names[m];
          }
        }
      }
    }
  }

  /** A name that raises keeps raising once more names follow it. */
  lemma {:induction false} AnyFailsPrefix(names: seq<string>, n: nat, mag: real, geo: GeometryOf, conf: GrismConf,
                                          interp: Interp, prior: Option<Option<Spectrum>>)
    requires n <= |names| && AnyFails(names[..n], mag, geo, conf, interp, prior)
    ensures AnyFails(names, mag, geo, conf, interp, prior)
    decreases |names| - n
  {
    if n < |names| {
      var m := |names| - 1;
      if n < m {
        assert names[..m][..n] == names[..n];
        AnyFailsPrefix(names[..m], n, mag, geo, conf, interp, prior);
      } else {
        assert names[..n] == names[..m];
      }
    } else {
      assert names[..n] == names;
    }
  }

  /** An order constructed for name `u` from thumbnail `t` with these
      arguments, so that its geometry is the one `GrismDisperser.Create`
      derives from them. */
  ghost predicate Made(b: GrismDisperser, u: string, t: Thumbnail, conf: GrismConf, pad: int, grow: int)
  {
    && b.beam == u && b.conf == conf && b.pad == pad && b.grow == grow
    && b.xcenter == t.xcenter && b.ycenter == t.ycenter && b.geom.origin == t.origin
    && b.direct == t.thumb && b.seg == t.segThumb
  }

  /** A new order of object `id`: blank, or computed for the stored
      template `prior`. */
  ghost predicate Primed(b: GrismDisperser, id: int, prior: Option<Option<Spectrum>>)
    reads b, b.modelf
  {
    && b.id == id && b.spectrum1d == (if prior.Some? then prior.value else None)
    && (prior.None? ==> forall p :: 0 <= p < b.modelf.Length ==> b.modelf[p] == 0.0)
  }

  ghost predicate AllPrimed(bs: Beams, id: int, prior: Option<Option<Spectrum>>)
    reads Objects(bs), Buffers(bs)
  {
    forall k :: 0 <= k < |bs| ==> Primed(bs[k].1, id, prior)
  }

  /** One name in that loop: `None` for a name that is skipped. */
  method BuildBeam(id: int, u: string, t: Thumbnail, mag: real, conf: GrismConf, pad: int, grow: int,
                   prior: Option<Option<Spectrum>>, kernel: Kernel, ghost geo: GeometryOf, interp: Interp)
    returns (made: Option<GrismDisperser>, raised: bool)
    requires IsGrid(t.thumb, t.sh.0, t.sh.1) && IsGrid(t.segThumb, t.sh.0, t.sh.1)
    requires Derived(geo, t, conf, pad, grow, interp)
    ensures raised <==> Fails(u, mag, geo, conf, interp, prior)
    ensures !raised ==> (made.Some? <==> Admitted(u, mag, geo, conf))
    ensures !raised && made.Some? ==> fresh(made.value) && fresh(made.value.modelf) && made.value.Valid()
    ensures !raised && made.Some? ==> Made(made.value, u, t, conf, pad, grow) && Primed(made.value, id, prior)
  {
    if u !in conf.mmagExtract {
      return None, true;
    }
    if mag > conf.mmagExtract[u] {
      return None, false;
    }
    made := GrismDisperser.Create(id, t.thumb, t.sh, Some(t.segThumb), t.xcenter, t.ycenter, t.origin,
                                  pad, grow, u, conf, interp);
    if made.None? {
      assert GeometryFor(t, u, conf, pad, grow, interp).None?;
      return None, false;
    }
    var b := made.value;
    assert GeometryFor(t, u, conf, pad, grow, interp) == Some(b.geom);
    assert Admitted(u, mag, geo, conf);
    if prior.Some? {
      var res := b.ComputeModel(Some(id), None, prior.value, true, None, kernel, interp);
      if res == ModelResult.Raised {
        assert Fails(u, mag, geo, conf, interp, prior);
        return None, true;
      }
    }
    return made, false;
  }

  /** What `BuildBeams` keeps true of the dictionary `bs` built from the
      first `n` names, apart from the buffers' contents. */
  ghost predicate BuiltUpTo(bs: Beams, names: seq<string>, n: nat, t: Thumbnail, mag: real, conf: GrismConf,
                            pad: int, grow: int, prior: Option<Option<Spectrum>>, geo: GeometryOf, interp: Interp)
    requires n <= |names|
  {
    && !AnyFails(names[..n], mag, geo, conf, interp, prior)
    && Names(bs) == BeamOrder(names[..n], mag, geo, conf) && Distinct(Names(bs))
    && AllValid(bs) && DistinctBuffers(bs)
    && forall k :: 0 <= k < |bs| ==> Made(bs[k].1, bs[k].0, t, conf, pad, grow)
  }

  /** The dictionary after one name: unchanged when the name is skipped,
      the new order put in otherwise. */
  function Stepped(bs: Beams, u: string, made: Option<GrismDisperser>): (next: Beams)
    ensures made.None? ==> next == bs
  {
    if made.Some? then Put(bs, u, made.value) else bs
  }

  /** Putting a new order into a dictionary of orders keeps every entry
      made from the thumbnail, valid and with a buffer of its own; each
      entry is the new order or the old entry at its place. */
  lemma PutBuilt(bs: Beams, names: seq<string>, n: nat, b: GrismDisperser, t: Thumbnail, mag: real,
                 conf: GrismConf, pad: int, grow: int, prior: Option<Option<Spectrum>>, geo: GeometryOf, interp: Interp)
    requires n < |names| && BuiltUpTo(bs, names, n, t, mag, conf, pad, grow, prior, geo, interp)
    requires !Fails(names[n], mag, geo, conf, interp, prior) && Admitted(names[n], mag, geo, conf)
    requires b.Valid() && Made(b, names[n], t, conf, pad, grow) && b.modelf !in Buffers(bs)
    ensures BuiltUpTo(Put(bs, names[n], b), names, n + 1, t, mag, conf, pad, grow, prior, geo, interp)
    ensures forall k :: 0 <= k < |Put(bs, names[n], b)| ==>
              Put(bs, names[n], b)[k] == (names[n], b) || (k < |bs| && Put(bs, names[n], b)[k] == bs[k])
  {
    var u := names[n];
    assert names[..n + 1][..n] == names[..n];
    BeamOrderSnoc(names, n, mag, geo, conf);
    PutShape(bs, u, b);
    var next := Put(bs, u, b);
    forall k | 0 <= k < |next|
      ensures next[k].1.Valid() && Made(next[k].1, next[k].0, t, conf, pad, grow)
      ensures next[k] == (u, b) || (k < |bs| && next[k] == bs[k])
    {
      if next[k].0 != u {
        assert next[k] == bs[k];
      }
    }
    forall k, l | 0 <= k < l < |next|
      ensures next[k].1.modelf != next[l].1.modelf
    {
      if next[k].0 != u && next[l].0 != u {
        assert next[k] == bs[k] && next[l] == bs[l];
      }
    }
  }

  /** A name that does not raise keeps everything `BuiltUpTo` states. */
  lemma StepBuilt(bs: Beams, names: seq<string>, n: nat, made: Option<GrismDisperser>, t: Thumbnail, mag: real,
                  conf: GrismConf, pad: int, grow: int, prior: Option<Option<Spectrum>>, geo: GeometryOf, interp: Interp)
    requires n < |names| && BuiltUpTo(bs, names, n, t, mag, conf, pad, grow, prior, geo, interp)
    requires !Fails(names[n], mag, geo, conf, interp, prior) && (made.Some? <==> Admitted(names[n], mag, geo, conf))
    requires made.Some? ==> made.value.Valid() && Made(made.value, names[n], t, conf, pad, grow)
                            && made.value.modelf !in Buffers(bs)
    ensures BuiltUpTo(Stepped(bs, names[n], made), names, n + 1, t, mag, conf, pad, grow, prior, geo, interp)
    ensures made.Some? ==> forall k :: 0 <= k < |Stepped(bs, names[n], made)| ==>
              Stepped(bs, names[n], made)[k] == (names[n], made.value) || (k < |bs| && Stepped(bs, names[n], made)[k] == bs[k])
  {
    if made.Some? {
      PutBuilt(bs, names, n, made.value, t, mag, conf, pad, grow, prior, geo, interp);
    } else {
      assert names[..n + 1][..n] == names[..n];
      BeamOrderSnoc(names, n, mag, geo, conf);
    }
  }

  /** Entries that are the new order or the old entry at their place keep
      the buffer state `AllPrimed` states. */
  lemma StepPrimed(bs: Beams, next: Beams, u: string, made: Option<GrismDisperser>, id: int,
                   prior: Option<Option<Spectrum>>)
    requires AllPrimed(bs, id, prior) && (made.Some? ==> Primed(made.value, id, prior))
    requires made.None? ==> next == bs
    requires made.Some? ==> forall k :: 0 <= k < |next| ==> next[k] == (u, made.value) || (k < |bs| && next[k] == bs[k])
    ensures AllPrimed(next, id, prior)
  {
    forall k | 0 <= k < |next|
      ensures Primed(next[k].1, id, prior)
    {
      if made.Some? && next[k] != (u, made.value) {
        assert next[k] == bs[k];
      }
    }
  }

  /** The dictionary update at the end of one pass: `beams[u] = b` for a
      new order, nothing for a skipped name. */
  method Insert(bs: Beams, names: seq<string>, n: nat, made: Option<GrismDisperser>, id: int, t: Thumbnail, mag: real,
                conf: GrismConf, pad: int, grow: int, prior: Option<Option<Spectrum>>, ghost geo: GeometryOf, interp: Interp)
    returns (next: Beams)
    requires n < |names| && BuiltUpTo(bs, names, n, t, mag, conf, pad, grow, prior, geo, interp) && AllPrimed(bs, id, prior)
    requires !Fails(names[n], mag, geo, conf, interp, prior) && (made.Some? <==> Admitted(names[n], mag, geo, conf))
    requires made.Some? ==> made.value.Valid() && Made(made.value, names[n], t, conf, pad, grow)
                            && Primed(made.value, id, prior) && made.value.modelf !in Buffers(bs)
    ensures BuiltUpTo(next, names, n + 1, t, mag, conf, pad, grow, prior, geo, interp) && AllPrimed(next, id, prior)
    ensures forall k :: 0 <= k < |next| ==> (k < |bs| && next[k] == bs[k]) || (made.Some? && next[k] == (names[n], made.value))
  {
    StepBuilt(bs, names, n, made, t, mag, conf, pad, grow, prior, geo, interp);
    next := Stepped(bs, names[n], made);
    StepPrimed(bs, next, names[n], made, id, prior);
  }

  /** One pass of that loop, for `names[n]`. */
  method BuildNext(id: int, names: seq<string>, n: nat, bs: Beams, t: Thumbnail, mag: real, conf: GrismConf,
                   pad: int, grow: int, prior: Option<Option<Spectrum>>, kernel: Kernel, ghost geo: GeometryOf, interp: Interp)
    returns (next: Beams, raised: bool)
    requires n < |names| && IsGrid(t.thumb, t.sh.0, t.sh.1) && IsGrid(t.segThumb, t.sh.0, t.sh.1)
    requires Derived(geo, t, conf, pad, grow, interp)
    requires BuiltUpTo(bs, names, n, t, mag, conf, pad, grow, prior, geo, interp) && AllPrimed(bs, id, prior)
    ensures raised ==> AnyFails(names, mag, geo, conf, interp, prior)
    ensures !raised ==> BuiltUpTo(next, names, n + 1, t, mag, conf, pad, grow, prior, geo, interp)
    ensures !raised ==> AllPrimed(next, id, prior)
    ensures !raised ==> forall k :: 0 <= k < |next| ==>
              (k < |bs| && next[k] == bs[k]) || (fresh(next[k].1) && fresh(next[k].1.modelf))
  {
    var u := names[n];
    var made, failed := BuildBeam(id, u, t, mag, conf, pad, grow, prior, kernel, geo, interp);
    if failed {
      assert names[..n + 1][..n] == names[..n];
      AnyFailsPrefix(names, n + 1, mag, geo, conf, interp, prior);
      return bs, true;
    }
    assert AllPrimed(bs, id, prior);
    next := Insert(bs, names, n, made, id, t, mag, conf, pad, grow, prior, geo, interp);
    return next, false;
  }

  /** The loop of `compute_model_orders` that builds the orders of an object
      located at thumbnail `t`: each name in `names` whose faint limit `mag`
      does not exceed becomes a `GrismDisperser` (a constructor failure skips
      the name), put into the ordered dictionary; an object that already has
      a stored template `prior` computes each new order with it at once. */
  method BuildBeams(id: int, names: seq<string>, t: Thumbnail, mag: real, conf: GrismConf, pad: int, grow: int,
                    prior: Option<Option<Spectrum>>, kernel: Kernel, ghost geo: GeometryOf, interp: Interp)
    returns (bs: Beams, raised: bool)
    requires IsGrid(t.thumb, t.sh.0, t.sh.1) && IsGrid(t.segThumb, t.sh.0, t.sh.1)
    requires Derived(geo, t, conf, pad, grow, interp)
    ensures raised <==> AnyFails(names, mag, geo, conf, interp, prior)
    ensures !raised ==> Names(bs) == BeamOrder(names, mag, geo, conf)
    ensures !raised ==> AllValid(bs) && DistinctBuffers(bs)
    ensures !raised ==> forall k :: 0 <= k < |bs| ==> fresh(bs[k].1) && fresh(bs[k].1.modelf)
    ensures !raised ==> forall k :: 0 <= k < |bs| ==> Made(bs[k].1, bs[k].0, t, conf, pad, grow)
    ensures !raised ==> AllPrimed(bs, id, prior)
  {
    bs := [];
    var n := 0;
    while n < |names|
      invariant 0 <= n <= |names|
      invariant BuiltUpTo(bs, names, n, t, mag, conf, pad, grow, prior, geo, interp) && AllPrimed(bs, id, prior)
      invariant forall k :: 0 <= k < |bs| ==> fresh(bs[k].1) && fresh(bs[k].1.modelf)
    {
      var next, failed := BuildNext(id, names, n, bs, t, mag, conf, pad, grow, prior, kernel, geo, interp);
      if failed {
        return bs, true;
      }
      bs := next;
      n := n + 1;
    }
    assert names[..|names|] == names;
    return bs, false;
  }
}
