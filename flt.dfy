/** `GrismFLT`: one grism exposure with its direct image, segmentation
    image, full-frame `model` and the registry `object_dispersers` of the
    objects whose spectral orders were computed into that model. */
module Flt {
  import opened Common
  import opened BeamGeometry
  import opened Disperser
  import opened Locate
  import opened Registry

  /** The sum of a list of contributions, as one contribution. */
  function SumFrame(fs: seq<Frame>): (f: Frame)
    ensures forall r, c :: f(r, c) == SumAt(fs, r, c)
  {
    (r: int, c: int) => SumAt(fs, r, c)
  }

  /** The contribution that is nothing at all. */
  function NoFrame(): (f: Frame)
    ensures forall r, c :: f(r, c) == 0.0
  {
    (r: int, c: int) => 0.0
  }

  /** `u` plus the change from `f` back to `c`. */
  function Absorbed(u: Frame, c: Frame, f: Frame): (a: Frame)
    ensures forall r, x :: a(r, x) == u(r, x) + c(r, x) - f(r, x)
  {
    (r: int, x: int) => u(r, x) + c(r, x) - f(r, x)
  }

  /** `np.zeros_like(self.model)`. */
  method ZerosLike(m: array2<real>) returns (out: array2<real>)
    ensures fresh(out) && out.Length0 == m.Length0 && out.Length1 == m.Length1
    ensures forall r, c :: 0 <= r < out.Length0 && 0 <= c < out.Length1 ==> out[r, c] == 0.0
  {
    out := new real[m.Length0, m.Length1]((_, _) => 0.0);
  }

  /** The orders `bs` of object `id` recomputed for `spectrum` into a fresh
      frame shaped like `m` (`in_place=False`). */
  method DetachedOrders(bs: Beams, id: int, spectrum: Option<Spectrum>, m: array2<real>, kernel: Kernel, interp: Interp)
    returns (out: array2<real>, raised: bool)
    requires AllValid(bs) && DistinctBuffers(bs)
    modifies Objects(bs), Buffers(bs)
    ensures raised <==> exists k :: 0 <= k < |bs| && Unresampled(bs[k].1, spectrum, interp)
    ensures !raised ==> forall k :: 0 <= k < |bs| ==> Refreshed(bs[k].1, id, spectrum, kernel, interp)
    ensures fresh(out) && out.Length0 == m.Length0 && out.Length1 == m.Length1
    ensures !raised ==> forall r, c :: 0 <= r < out.Length0 && 0 <= c < out.Length1 ==> out[r, c] == SumAt(Frames(bs), r, c)
  {
    out := ZerosLike(m);
    raised := ProcessBeams(bs, id, spectrum, false, out, kernel, interp);
  }

  /** The sum, at one pixel, of what the objects of `order` contribute. */
  ghost function Total(order: seq<int>, contrib: map<int, Frame>, r: int, c: int): real
    requires forall k :: 0 <= k < |order| ==> order[k] in contrib
  {
    if order == [] then 0.0
    else Total(order[..|order| - 1], contrib, r, c) + contrib[order[|order| - 1]](r, c)
  }

  /** Two contribution maps that agree on the listed objects give the same sum. */
  lemma {:induction false} TotalAgree(order: seq<int>, c1: map<int, Frame>, c2: map<int, Frame>, r: int, c: int)
    requires forall k :: 0 <= k < |order| ==> order[k] in c1 && order[k] in c2 && c1[order[k]] == c2[order[k]]
    ensures Total(order, c1, r, c) == Total(order, c2, r, c)
  {
    if order != [] {
      TotalAgree(order[..|order| - 1], c1, c2, r, c);
    }
  }

  /** Replacing the contribution of one listed object changes the sum by
      the difference. */
  lemma {:induction false} TotalUpdate(order: seq<int>, c0: map<int, Frame>, c1: map<int, Frame>, id: int, r: int, c: int)
    requires forall k :: 0 <= k < |order| ==> order[k] in c0 && order[k] in c1
    requires forall k :: 0 <= k < |order| && order[k] != id ==> c1[order[k]] == c0[order[k]]
    requires Distinct(order) && id in order
    ensures Total(order, c1, r, c) == Total(order, c0, r, c) - c0[id](r, c) + c1[id](r, c)
  {
    var n := |order| - 1;
    var prefix := order[..n];
    assert Distinct(prefix);
    if order[n] == id {
      assert id !in prefix;
      TotalAgree(prefix, c1, c0, r, c);
    } else {
      assert id in prefix;
      TotalUpdate(prefix, c0, c1, id, r, c);
    }
  }

  /** A new object appended to the list adds its contribution to the sum. */
  lemma TotalAppend(order: seq<int>, contrib: map<int, Frame>, id: int, f: Frame, r: int, c: int)
    requires forall k :: 0 <= k < |order| ==> order[k] in contrib
    requires id !in order
    ensures Total(order + [id], contrib[id := f], r, c) == Total(order, contrib, r, c) + f(r, c)
  {
    assert (order + [id])[..|order|] == order;
    TotalAgree(order, contrib[id := f], contrib, r, c);
  }

  /** Each order's geometry for the thumbnail `t`. */
  function GeoOf(t: Thumbnail, conf: GrismConf, pad: int, grow: int, interp: Interp): GeometryOf
  {
    u => GeometryFor(t, u, conf, pad, grow, interp)
  }

  lemma GeoOfDerived(t: Thumbnail, conf: GrismConf, pad: int, grow: int, interp: Interp)
    ensures Derived(GeoOf(t, conf, pad, grow, interp), t, conf, pad, grow, interp)
  {
    forall u ensures GeoOf(t, conf, pad, grow, interp)(u) == GeometryFor(t, u, conf, pad, grow, interp) {
    }
  }

  /** The orders to compute: `get_beams` when given, else the
      configuration's `beams`. */
  function BeamNames(getBeams: Option<seq<string>>, conf: GrismConf): seq<string>
  {
    if getBeams.Some? then getBeams.value else conf.beams
  }

  /** How `compute_full_model` is given its magnitudes: not at all (they are
      measured), one value for every id, or one value per id. */
  datatype Mags = Measured | Scalar(m: real) | PerId(ms: seq<real>)

  class GrismFLT {
    /** `direct.data['SCI']` and `direct.data['REF']`. */
    const sci: seq<seq<real>>
    const ref: Option<seq<seq<real>>>
    /** `thumb_extension == 'REF'`. */
    const thumbRef: bool
    const seg: seq<seq<int>>
    /** `direct.sh` and `direct.origin`. */
    const sh: (nat, nat)
    const dorigin: (int, int)
    const pad: int
    /** `grism.grow`. */
    const grow: int
    const conf: GrismConf
    /** The catalogue's `x_flt, y_flt` by id, when there is a catalogue. */
    const catalog: Option<map<int, (real, real)>>
    const abzp: real
    /** The compiled helpers and the resampler. */
    const limits: SegmentLimits
    const kernel: Kernel
    const interp: Interp
    const model: array2<real>
    /** `object_dispersers`. */
    var registry: map<int, Entry>
    /** The registry's keys in insertion order. */
    ghost var order: seq<int>
    /** What each registered object has added to `model`. */
    ghost var contrib: map<int, Frame>
    /** What `model` holds beyond the registered contributions. */
    ghost var untracked: Frame
    /** The orders stored in the registry and their buffers, each with the
        id it is stored under. */
    ghost var owner: map<object, int>
    ghost var Repr: set<object>

    /** A new exposure: `model` is `np.zeros_like` the direct image and
        `object_dispersers` is empty. */
    constructor (sci: seq<seq<real>>, ref: Option<seq<seq<real>>>, thumbRef: bool, seg: seq<seq<int>>,
                 sh: (nat, nat), dorigin: (int, int), pad: int, grow: int, conf: GrismConf,
                 catalog: Option<map<int, (real, real)>>, abzp: real,
                 limits: SegmentLimits, kernel: Kernel, interp: Interp)
      requires IsGrid(sci, sh.0, sh.1) && (ref.Some? ==> IsGrid(ref.value, sh.0, sh.1)) && IsGrid(seg, sh.0, sh.1)
      ensures Valid() && NoTemplates() && registry == map[]
      ensures this.sci == sci && this.ref == ref && this.thumbRef == thumbRef && this.seg == seg
      ensures this.sh == sh && this.dorigin == dorigin && this.pad == pad && this.grow == grow
      ensures this.conf == conf && this.catalog == catalog && this.abzp == abzp
      ensures this.limits == limits && this.kernel == kernel && this.interp == interp
      ensures fresh(model) && forall r, c :: untracked(r, c) == 0.0
      ensures forall r, c :: 0 <= r < sh.0 && 0 <= c < sh.1 ==> model[r, c] == 0.0
    {
      this.sci := sci;
      this.ref := ref;
      this.thumbRef := thumbRef;
      this.seg := seg;
      this.sh := sh;
      this.dorigin := dorigin;
      this.pad := pad;
      this.grow := grow;
      this.conf := conf;
      this.catalog := catalog;
      this.abzp := abzp;
      this.limits := limits;
      this.kernel := kernel;
      this.interp := interp;
      model := new real[sh.0, sh.1]((_, _) => 0.0);
      registry := map[];
      order := [];
      contrib := map[];
      untracked := NoFrame();
      owner := map[];
      Repr := {};
    }

    predicate Shaped()
    {
      && IsGrid(sci, sh.0, sh.1) && (ref.Some? ==> IsGrid(ref.value, sh.0, sh.1))
      && IsGrid(seg, sh.0, sh.1) && model.Length0 == sh.0 && model.Length1 == sh.1
    }

    ghost predicate Keyed()
      reads this
    {
      && Distinct(order)
      && (forall k :: 0 <= k < |order| ==> order[k] in registry)
      && (forall i :: i in registry ==> i in order)
      && contrib.Keys == registry.Keys
    }

    /** The orders `bs` and their buffers are owned by `id`. */
    ghost predicate Owns(id: int, bs: Beams)
      reads this
    {
      forall k :: 0 <= k < |bs| ==>
        && bs[k].1 in owner && owner[bs[k].1] == id && bs[k].1.modelf in owner && owner[bs[k].1.modelf] == id
    }

    /** Every stored order is valid and owned by the id it is stored under,
        so that no two objects share an order or a buffer. */
    ghost predicate Owned()
      reads this
    {
      && Repr == owner.Keys
      && forall i :: i in registry && registry[i].Computed? ==>
           AllValid(registry[i].beams) && DistinctBuffers(registry[i].beams) && Owns(i, registry[i].beams)
    }

    /** An object whose orders are stored contributes exactly what those
        orders currently hold. */
    ghost predicate Tracked()
      requires Owned()
      reads this, Repr
    {
      forall i :: i in registry && registry[i].Computed? ==> i in contrib && contrib[i] == SumFrame(Frames(registry[i].beams))
    }

    /** `model` is the untracked part plus every registered contribution. */
    ghost predicate Balanced()
      requires Keyed()
      reads this, model
    {
      forall r, c :: 0 <= r < model.Length0 && 0 <= c < model.Length1 ==>
        model[r, c] == untracked(r, c) + Total(order, contrib, r, c)
    }

    ghost predicate Valid()
      reads this, Repr, model
    {
      Shaped() && Keyed() && Owned() && Tracked() && Balanced()
    }

    /** The direct image the cutouts come from: `REF` when present, else `SCI`. */
    function Direct(): (d: seq<seq<real>>)
      requires Shaped()
      ensures IsGrid(d, sh.0, sh.1) && d == (if ref.Some? then ref.value else sci)
    {
      if ref.Some? then ref.value else sci
    }

    /** There is a stored `OrderedDict` of orders for `id`. */
    ghost predicate Stored(id: int)
      reads this
    {
      id in registry && registry[id].Computed?
    }

    /** The stored orders of `id`, refreshed for `spectrum`: `model` trades
        their old contribution for the new one in place; otherwise `model`
        is left alone, the new contribution is returned in a fresh frame,
        and the untracked part takes up the difference. No other object's
        orders change. */
    twostate predicate RefreshOutcome(id: int, bs: Beams, spectrum: Option<Spectrum>, inPlace: bool, new r: OrdersResult)
      requires old(id in registry && registry[id] == Computed(bs)) && old(id in contrib) && AllValid(bs)
      reads this, model, Objects(bs), Buffers(bs), if r.Detached? then {r.output} else {}
    {
      && registry == old(registry) && order == old(order) && owner == old(owner) && Repr == old(Repr)
      && (r.Raised? <==> exists k :: 0 <= k < |bs| && Unresampled(bs[k].1, spectrum, interp))
      && (!r.Raised? ==>
            && contrib.Keys == old(contrib).Keys && contrib[id] == SumFrame(Frames(bs))
            && (forall i :: i in contrib && i != id ==> contrib[i] == old(contrib[i]))
            && (forall k :: 0 <= k < |bs| ==> Refreshed(bs[k].1, id, spectrum, kernel, interp)))
      && (!r.Raised? && inPlace ==>
            && r == Done && untracked == old(untracked)
            && forall y, x :: 0 <= y < model.Length0 && 0 <= x < model.Length1 ==>
                 model[y, x] == old(model[y, x]) - old(contrib[id])(y, x) + contrib[id](y, x))
      && (!r.Raised? && !inPlace ==>
            && r.Detached? && r.beams == bs && fresh(r.output)
            && r.output.Length0 == model.Length0 && r.output.Length1 == model.Length1
            && (forall y, x :: 0 <= y < model.Length0 && 0 <= x < model.Length1 ==> r.output[y, x] == contrib[id](y, x))
            && (forall y, x :: 0 <= y < model.Length0 && 0 <= x < model.Length1 ==> model[y, x] == old(model[y, x]))
            && forall y, x :: untracked(y, x) == old(untracked(y, x)) + old(contrib[id](y, x)) - contrib[id](y, x))
    }

    /** The tail of `compute_model_orders` for an object whose orders are
        stored: each is recomputed in place for `spectrum` and added to
        `model` (after its previous model is subtracted) or to a fresh
        frame. Unless an order raised, the invariant is kept. */
    method RefreshStored(id: int, spectrum: Option<Spectrum>, inPlace: bool) returns (r: OrdersResult)
      requires Valid() && Stored(id)
      modifies this, model, Repr
      ensures RefreshOutcome(id, old(registry[id].beams), spectrum, inPlace, r)
      ensures forall i :: i in registry && registry[i].Computed? && i != id ==> unchanged(Buffers(registry[i].beams))
      ensures !r.Raised? ==> Valid()
      ensures inPlace && old(NoTemplates()) && !r.Raised? ==> NoTemplates() && untracked == old(untracked)
    {
      if inPlace {
        r := RefreshInPlace(id, spectrum);
      } else {
        r := RefreshDetached(id, spectrum);
      }
      if r.Raised? {
      } else if inPlace {
        InPlaceValid(id);
      } else {
        DetachedValid(id);
      }
    }

    method RefreshInPlace(id: int, spectrum: Option<Spectrum>) returns (r: OrdersResult)
      requires Stored(id) && AllValid(registry[id].beams) && DistinctBuffers(registry[id].beams)
      requires id in contrib && contrib[id] == SumFrame(Frames(registry[id].beams))
      modifies this, model, Objects(registry[id].beams), Buffers(registry[id].beams)
      ensures RefreshOutcome(id, old(registry[id].beams), spectrum, true, r)
    {
      var bs := registry[id].beams;
      var failed := ProcessBeams(bs, id, spectrum, true, model, kernel, interp);
      if failed {
        return OrdersResult.Raised;
      }
      contrib := contrib[id := SumFrame(Frames(bs))];
      return Done;
    }

    method RefreshDetached(id: int, spectrum: Option<Spectrum>) returns (r: OrdersResult)
      requires Stored(id) && AllValid(registry[id].beams) && DistinctBuffers(registry[id].beams) && id in contrib
      modifies this, Objects(registry[id].beams), Buffers(registry[id].beams)
      ensures RefreshOutcome(id, old(registry[id].beams), spectrum, false, r)
    {
      var bs := registry[id].beams;
      var out, failed := DetachedOrders(bs, id, spectrum, model, kernel, interp);
      if failed {
        return OrdersResult.Raised;
      }
      ghost var f := SumFrame(Frames(bs));
      untracked := Absorbed(untracked, contrib[id], f);
      contrib := contrib[id := f];
      return Detached(bs, out);
    }

    /** Unless its orders raised, a refresh in place keeps the invariant. */
    twostate lemma InPlaceValid(id: int)
      requires old(Valid()) && old(Stored(id))
      requires registry == old(registry) && order == old(order) && owner == old(owner) && Repr == old(Repr)
      requires contrib.Keys == old(contrib).Keys && contrib[id] == SumFrame(Frames(registry[id].beams))
      requires forall i :: i in contrib && i != id ==> contrib[i] == old(contrib[i])
      requires forall i :: i in registry && registry[i].Computed? && i != id ==> unchanged(Buffers(registry[i].beams))
      requires untracked == old(untracked)
      requires forall y, x :: 0 <= y < model.Length0 && 0 <= x < model.Length1 ==>
                 model[y, x] == old(model[y, x]) - old(contrib[id])(y, x) + contrib[id](y, x)
      ensures Valid()
    {
      KeepsTracked(id);
      TradedBalanced(id, contrib[id]);
    }

    /** Unless its orders raised, a refresh into a fresh frame keeps the
        invariant. */
    twostate lemma DetachedValid(id: int)
      requires old(Valid()) && old(Stored(id))
      requires registry == old(registry) && order == old(order) && owner == old(owner) && Repr == old(Repr)
      requires contrib.Keys == old(contrib).Keys && contrib[id] == SumFrame(Frames(registry[id].beams))
      requires forall i :: i in contrib && i != id ==> contrib[i] == old(contrib[i])
      requires forall i :: i in registry && registry[i].Computed? && i != id ==> unchanged(Buffers(registry[i].beams))
      requires forall y, x :: untracked(y, x) == old(untracked(y, x)) + old(contrib[id](y, x)) - contrib[id](y, x)
      requires forall y, x :: 0 <= y < model.Length0 && 0 <= x < model.Length1 ==> model[y, x] == old(model[y, x])
      ensures Valid()
    {
      KeepsTracked(id);
      DetachedBalanced(id, contrib[id]);
    }

    /** Trading, in `model`, the old contribution of `id` for what its
        orders now hold keeps `model` balanced. */
    twostate lemma TradedBalanced(id: int, new f: Frame)
      requires old(Keyed()) && old(Balanced()) && old(Stored(id))
      requires registry == old(registry) && order == old(order) && untracked == old(untracked)
      requires contrib.Keys == old(contrib).Keys && contrib[id] == f
      requires forall i :: i in contrib && i != id ==> contrib[i] == old(contrib[i])
      requires forall y, x :: 0 <= y < model.Length0 && 0 <= x < model.Length1 ==>
                 model[y, x] == old(model[y, x]) - old(contrib[id])(y, x) + f(y, x)
      ensures Keyed() && Balanced()
    {
      forall y, x | 0 <= y < model.Length0 && 0 <= x < model.Length1
        ensures model[y, x] == untracked(y, x) + Total(order, contrib, y, x)
      {
        TotalUpdate(order, old(contrib), contrib, id, y, x);
      }
    }

    /** An unchanged `model` whose untracked part absorbs the change of the
        contribution of `id` stays balanced. */
    twostate lemma DetachedBalanced(id: int, new f: Frame)
      requires old(Keyed()) && old(Balanced()) && old(Stored(id))
      requires registry == old(registry) && order == old(order)
      requires contrib.Keys == old(contrib).Keys && contrib[id] == f
      requires forall i :: i in contrib && i != id ==> contrib[i] == old(contrib[i])
      requires forall y, x :: untracked(y, x) == old(untracked(y, x)) + old(contrib[id](y, x)) - f(y, x)
      requires forall y, x :: 0 <= y < model.Length0 && 0 <= x < model.Length1 ==> model[y, x] == old(model[y, x])
      ensures Keyed() && Balanced()
    {
      forall y, x | 0 <= y < model.Length0 && 0 <= x < model.Length1
        ensures model[y, x] == untracked(y, x) + Total(order, contrib, y, x)
      {
        TotalUpdate(order, old(contrib), contrib, id, y, x);
      }
    }

    /** After the stored orders of `id` alone were rewritten, every other
        object is still tracked. */
    twostate lemma KeepsTracked(id: int)
      requires old(Owned()) && old(Tracked()) && old(Stored(id))
      requires registry == old(registry) && owner == old(owner) && Repr == old(Repr)
      requires contrib.Keys == old(contrib).Keys && contrib[id] == SumFrame(Frames(registry[id].beams))
      requires forall i :: i in contrib && i != id ==> contrib[i] == old(contrib[i])
      requires forall i :: i in registry && registry[i].Computed? && i != id ==> unchanged(Buffers(registry[i].beams))
      ensures Owned() && Tracked()
    {
      forall i | i in registry && registry[i].Computed? && i != id
        ensures contrib[i] == SumFrame(Frames(registry[i].beams))
      {
        var bi := registry[i].beams;
        assert Frames(bi) == old(Frames(bi));
      }
    }

    /** The template an object that is registered without its orders was
        given (`object_dispersers[id]` is then a spectrum, or `None`). */
    ghost function PriorOf(id: int): Option<Option<Spectrum>>
      reads this
    {
      if id in registry && registry[id].Template? then Some(registry[id].spectrum) else None
    }

    /** Each order of `bs` and its buffer, owned by `id`. */
    ghost function OwnedBy(id: int, bs: Beams): (m: map<object, int>)
      ensures m.Keys == Objects(bs) + Buffers(bs)
      ensures forall o :: o in m ==> m[o] == id
    {
      map o | o in Objects(bs) + Buffers(bs) :: id
    }

    /** `in_place=True` for an object not yet registered: the freshly built
        orders `bs` are registered under `id` (with `store`; otherwise only
        the template is), recomputed for `spectrum` and added to `model`. */
    method PlaceNew(id: int, bs: Beams, spectrum: Option<Spectrum>, store: bool) returns (raised: bool)
      requires Valid() && id !in registry
      requires AllValid(bs) && DistinctBuffers(bs) && Objects(bs) !! Repr && Buffers(bs) !! Repr
      modifies this, model, Objects(bs), Buffers(bs)
      ensures raised <==> exists k :: 0 <= k < |bs| && Unresampled(bs[k].1, spectrum, interp)
      ensures registry == old(registry)[id := if store then Computed(bs) else Template(spectrum)]
      ensures order == old(order) + [id]
      ensures owner == (if store then old(owner) + OwnedBy(id, bs) else old(owner)) && Repr == owner.Keys
      ensures !raised ==> forall k :: 0 <= k < |bs| ==> Refreshed(bs[k].1, id, spectrum, kernel, interp)
      ensures !raised ==> contrib == old(contrib)[id := SumFrame(Frames(bs))] && untracked == old(untracked)
      ensures !raised ==> forall y, x :: 0 <= y < model.Length0 && 0 <= x < model.Length1 ==>
                model[y, x] == old(model[y, x]) + contrib[id](y, x)
      ensures !raised ==> Valid()
    {
      raised := Append(id, bs, spectrum, store);
      if !raised {
        AppendedValid(id);
      }
    }

    /** The registry entry `e` for `id`, with the bookkeeping that goes
        with it. */
    method Register(id: int, e: Entry, ghost own: map<object, int>, ghost ord: seq<int>, ghost u: Frame, ghost c: Frame)
      modifies this
      ensures registry == old(registry)[id := e] && owner == own && Repr == own.Keys && order == ord
      ensures untracked == u && contrib == old(contrib)[id := c]
    {
      registry := registry[id := e];
      owner, Repr, order := own, own.Keys, ord;
      untracked, contrib := u, contrib[id := c];
    }

    /** The registry and `model` updates of `PlaceNew`. */
    method Append(id: int, bs: Beams, spectrum: Option<Spectrum>, store: bool) returns (raised: bool)
      requires AllValid(bs) && DistinctBuffers(bs)
      modifies this, model, Objects(bs), Buffers(bs)
      ensures raised <==> exists k :: 0 <= k < |bs| && Unresampled(bs[k].1, spectrum, interp)
      ensures registry == old(registry)[id := if store then Computed(bs) else Template(spectrum)]
      ensures order == old(order) + [id]
      ensures owner == (if store then old(owner) + OwnedBy(id, bs) else old(owner)) && Repr == owner.Keys
      ensures !raised ==> forall k :: 0 <= k < |bs| ==> Refreshed(bs[k].1, id, spectrum, kernel, interp)
      ensures contrib == old(contrib)[id := SumFrame(Frames(bs))]
      ensures untracked == old(untracked)
      ensures !raised ==> forall y, x :: 0 <= y < model.Length0 && 0 <= x < model.Length1 ==>
                model[y, x] == old(model[y, x]) + contrib[id](y, x)
    {
      raised := ProcessBeams(bs, id, spectrum, false, model, kernel, interp);
      Register(id, if store then Computed(bs) else Template(spectrum), if store then owner + OwnedBy(id, bs) else owner,
               order + [id], untracked, SumFrame(Frames(bs)));
    }

    /** Registering a new object, with what its orders contribute added to
        `model`, keeps the invariant. */
    twostate lemma AppendedValid(id: int)
      requires old(Valid()) && old(id !in registry) && id in registry
      requires forall i :: i in old(registry) ==> i in registry && registry[i] == old(registry[i])
      requires registry.Keys == old(registry).Keys + {id} && contrib.Keys == registry.Keys
      requires forall i :: i in old(contrib) ==> contrib[i] == old(contrib[i])
      requires order == old(order) + [id] && untracked == old(untracked)
      requires registry[id].Computed? ==>
                 && AllValid(registry[id].beams) && DistinctBuffers(registry[id].beams)
                 && Objects(registry[id].beams) !! old(Repr) && Buffers(registry[id].beams) !! old(Repr)
                 && contrib[id] == SumFrame(Frames(registry[id].beams))
      requires owner == (if registry[id].Computed? then old(owner) + OwnedBy(id, registry[id].beams) else old(owner))
      requires Repr == owner.Keys
      requires forall i :: i in old(registry) && old(registry[i]).Computed? ==> unchanged(Buffers(old(registry[i]).beams))
      requires forall y, x :: 0 <= y < model.Length0 && 0 <= x < model.Length1 ==>
                 model[y, x] == old(model[y, x]) + contrib[id](y, x)
      ensures Valid()
    {
      forall i | i in registry && registry[i].Computed?
        ensures AllValid(registry[i].beams) && DistinctBuffers(registry[i].beams) && Owns(i, registry[i].beams)
        ensures contrib[i] == SumFrame(Frames(registry[i].beams))
      {
        if i != id {
          var bi := registry[i].beams;
          assert Frames(bi) == old(Frames(bi));
        }
      }
      ghost var c1 := old(contrib)[id := contrib[id]];
      forall k | 0 <= k < |order|
        ensures order[k] in contrib && order[k] in c1 && contrib[order[k]] == c1[order[k]]
      {
        if k < |old(order)| {
          assert order[k] == old(order)[k];
        }
      }
      forall y, x | 0 <= y < model.Length0 && 0 <= x < model.Length1
        ensures model[y, x] == untracked(y, x) + Total(order, contrib, y, x)
      {
        TotalAppend(old(order), old(contrib), id, contrib[id], y, x);
        TotalAgree(order, contrib, c1, y, x);
      }
    }

    /** `in_place=True` for an object registered with only a template: the
        freshly built orders `bs`, which already hold the model for that
        template, are registered under `id` (with `store`; otherwise only the
        new template is), and in `model` that model is traded for the one for
        `spectrum`. What was subtracted is taken up by the untracked part. */
    method PlaceOverTemplate(id: int, bs: Beams, spectrum: Option<Spectrum>, store: bool) returns (raised: bool)
      requires Valid() && id in registry && registry[id].Template?
      requires AllValid(bs) && DistinctBuffers(bs) && Objects(bs) !! Repr && Buffers(bs) !! Repr
      modifies this, model, Objects(bs), Buffers(bs)
      ensures raised <==> exists k :: 0 <= k < |bs| && Unresampled(bs[k].1, spectrum, interp)
      ensures registry == old(registry)[id := if store then Computed(bs) else Template(spectrum)]
      ensures order == old(order)
      ensures owner == (if store then old(owner) + OwnedBy(id, bs) else old(owner)) && Repr == owner.Keys
      ensures !raised ==> forall k :: 0 <= k < |bs| ==> Refreshed(bs[k].1, id, spectrum, kernel, interp)
      ensures !raised ==> contrib == old(contrib)[id := SumFrame(Frames(bs))]
      ensures !raised ==> forall y, x :: 0 <= y < model.Length0 && 0 <= x < model.Length1 ==>
                model[y, x] == old(model[y, x]) - SumAt(old(Frames(bs)), y, x) + contrib[id](y, x)
      ensures !raised ==> forall y, x :: untracked(y, x) == old(untracked(y, x)) + old(contrib[id](y, x)) - SumAt(old(Frames(bs)), y, x)
      ensures !raised ==> Valid()
    {
      raised := Replace(id, bs, spectrum, store);
      if !raised {
        ReplacedValid(id);
      }
    }

    /** The registry and `model` updates of `PlaceOverTemplate`. */
    method Replace(id: int, bs: Beams, spectrum: Option<Spectrum>, store: bool) returns (raised: bool)
      requires AllValid(bs) && DistinctBuffers(bs) && id in contrib
      modifies this, model, Objects(bs), Buffers(bs)
      ensures raised <==> exists k :: 0 <= k < |bs| && Unresampled(bs[k].1, spectrum, interp)
      ensures registry == old(registry)[id := if store then Computed(bs) else Template(spectrum)]
      ensures order == old(order)
      ensures owner == (if store then old(owner) + OwnedBy(id, bs) else old(owner)) && Repr == owner.Keys
      ensures !raised ==> forall k :: 0 <= k < |bs| ==> Refreshed(bs[k].1, id, spectrum, kernel, interp)
      ensures contrib == old(contrib)[id := SumFrame(Frames(bs))]
      ensures !raised ==> forall y, x :: 0 <= y < model.Length0 && 0 <= x < model.Length1 ==>
                model[y, x] == old(model[y, x]) - SumAt(old(Frames(bs)), y, x) + contrib[id](y, x)
      ensures forall y, x :: untracked(y, x) == old(untracked(y, x)) + old(contrib[id](y, x)) - SumAt(old(Frames(bs)), y, x)
    {
      ghost var primed := SumFrame(Frames(bs));
      raised := ProcessBeams(bs, id, spectrum, true, model, kernel, interp);
      Register(id, if store then Computed(bs) else Template(spectrum), if store then owner + OwnedBy(id, bs) else owner,
               order, Absorbed(untracked, contrib[id], primed), SumFrame(Frames(bs)));
    }

    /** Replacing a template by new orders (or a new template), with `model`
        changed by exactly what the untracked part and the contribution of
        `id` changed by, keeps the invariant. */
    twostate lemma ReplacedValid(id: int)
      requires old(Valid()) && old(id in registry && registry[id].Template?) && id in registry
      requires forall i :: i in old(registry) && i != id ==> i in registry && registry[i] == old(registry[i])
      requires registry.Keys == old(registry).Keys && contrib.Keys == registry.Keys
      requires forall i :: i in old(contrib) && i != id ==> contrib[i] == old(contrib[i])
      requires order == old(order)
      requires registry[id].Computed? ==>
                 && AllValid(registry[id].beams) && DistinctBuffers(registry[id].beams)
                 && Objects(registry[id].beams) !! old(Repr) && Buffers(registry[id].beams) !! old(Repr)
                 && contrib[id] == SumFrame(Frames(registry[id].beams))
      requires owner == (if registry[id].Computed? then old(owner) + OwnedBy(id, registry[id].beams) else old(owner))
      requires Repr == owner.Keys
      requires forall i :: i in old(registry) && old(registry[i]).Computed? ==> unchanged(Buffers(old(registry[i]).beams))
      requires forall y, x :: 0 <= y < model.Length0 && 0 <= x < model.Length1 ==>
                 model[y, x] - old(model[y, x])
                 == untracked(y, x) - old(untracked(y, x)) - old(contrib[id](y, x)) + contrib[id](y, x)
      ensures Valid()
    {
      forall i | i in registry && registry[i].Computed?
        ensures AllValid(registry[i].beams) && DistinctBuffers(registry[i].beams) && Owns(i, registry[i].beams)
        ensures contrib[i] == SumFrame(Frames(registry[i].beams))
      {
        if i != id {
          var bi := registry[i].beams;
          assert Frames(bi) == old(Frames(bi));
        }
      }
      forall y, x | 0 <= y < model.Length0 && 0 <= x < model.Length1
        ensures model[y, x] == untracked(y, x) + Total(order, contrib, y, x)
      {
        TotalUpdate(order, old(contrib), contrib, id, y, x);
      }
    }

    /** How `compute_model_orders` ends for an object whose orders are not
        stored, once it has the thumbnails `t`: the orders `bs` are built
        (each bright enough one, primed with the template the object was
        registered with, if any); with a non-empty `get_beams` they are
        returned; otherwise they are recomputed for `spectrum` into `model`
        (and the registry) or into a fresh frame. */
    twostate predicate BuildOutcome(id: int, t: Thumbnail, mag: real, spectrum: Option<Spectrum>, store: bool,
                                    inPlace: bool, getBeams: Option<seq<string>>, new bs: Beams, new r: OrdersResult)
      requires old(Keyed())
      reads this, model, Objects(bs), Buffers(bs), if r.Detached? then {r.output} else {}
    {
      var names := BeamNames(getBeams, conf);
      var prior := old(PriorOf(id));
      if AnyFails(names, mag, GeoOf(t, conf, pad, grow, interp), conf, interp, prior) then
        && r.Raised?
        && registry == old(registry) && order == old(order) && owner == old(owner) && Repr == old(Repr)
        && contrib == old(contrib) && untracked == old(untracked) && unchanged(model)
      else
        && Names(bs) == BeamOrder(names, mag, GeoOf(t, conf, pad, grow, interp), conf) && AllValid(bs)
        && (forall k :: 0 <= k < |bs| ==> fresh(bs[k].1) && fresh(bs[k].1.modelf))
        && if getBeams.Some? && getBeams.value != [] then
             && r == BeamsOnly(bs) && AllPrimed(bs, id, prior)
             && registry == old(registry) && order == old(order) && owner == old(owner) && Repr == old(Repr)
             && contrib == old(contrib) && untracked == old(untracked) && unchanged(model)
           else Placed(id, bs, spectrum, store, inPlace, r)
    }

    /** The part of `compute_model_orders` after the thumbnails, for an object
        whose orders are not stored; `bs` are the orders built. */
    method BuildAndPlace(id: int, t: Thumbnail, mag: real, spectrum: Option<Spectrum>, store: bool, inPlace: bool,
                         getBeams: Option<seq<string>>) returns (r: OrdersResult, ghost bs: Beams)
      requires Valid() && !Stored(id)
      requires IsGrid(t.thumb, t.sh.0, t.sh.1) && IsGrid(t.segThumb, t.sh.0, t.sh.1)
      modifies this, model
      ensures BuildOutcome(id, t, mag, spectrum, store, inPlace, getBeams, bs, r)
      ensures !r.Raised? ==> Valid()
      ensures fresh(Repr - old(Repr))
      ensures store && inPlace && old(NoTemplates()) && !r.Raised? ==> NoTemplates() && untracked == old(untracked)
    {
      var prior := if id in registry then Some(registry[id].spectrum) else None;
      GeoOfDerived(t, conf, pad, grow, interp);
      var built, failed := BuildBeams(id, BeamNames(getBeams, conf), t, mag, conf, pad, grow, prior, kernel, GeoOf(t, conf, pad, grow, interp), interp);
      bs := built;
      if failed {
        return OrdersResult.Raised, bs;
      }
      if getBeams.Some? && getBeams.value != [] {
        StillValid();
        return BeamsOnly(built), bs;
      }
      FreshOrders(built);
      r := PlaceBuilt(id, built, spectrum, store, inPlace);
    }

    /** Nothing the invariant reads has changed, so it still holds. */
    twostate lemma StillValid()
      requires old(Valid()) && unchanged(this) && unchanged(model) && unchanged(old(Repr))
      ensures Valid()
    {
    }

    /** Orders built during a call, and their buffers, are new. */
    twostate lemma FreshOrders(new bs: Beams)
      requires forall k :: 0 <= k < |bs| ==> fresh(bs[k].1) && fresh(bs[k].1.modelf)
      ensures fresh(Objects(bs) + Buffers(bs))
    {
    }

    /** What becomes of orders `bs` just built for `id`: recomputed for
        `spectrum` into a fresh frame, or into `model` and the registry. */
    twostate predicate Placed(id: int, new bs: Beams, spectrum: Option<Spectrum>, store: bool, inPlace: bool, new r: OrdersResult)
      requires old(Keyed()) && AllValid(bs)
      reads this, model, Objects(bs), Buffers(bs), if r.Detached? then {r.output} else {}
    {
      && (r.Raised? || r.Detached? || r == Done)
      && (r.Raised? <==> exists k :: 0 <= k < |bs| && Unresampled(bs[k].1, spectrum, interp))
      && (r.Detached? ==>
            && !inPlace && r.beams == bs && fresh(r.output)
            && r.output.Length0 == model.Length0 && r.output.Length1 == model.Length1
            && (forall y, x :: 0 <= y < model.Length0 && 0 <= x < model.Length1 ==> r.output[y, x] == SumAt(Frames(bs), y, x))
            && registry == old(registry) && order == old(order) && owner == old(owner) && Repr == old(Repr)
            && contrib == old(contrib) && untracked == old(untracked) && unchanged(model))
      && (!r.Raised? ==> forall k :: 0 <= k < |bs| ==> Refreshed(bs[k].1, id, spectrum, kernel, interp))
      && (r == Done ==>
            && inPlace && registry == old(registry)[id := if store then Computed(bs) else Template(spectrum)]
            && order == (if id in old(registry) then old(order) else old(order) + [id])
            && (id !in old(registry) ==>
                  && untracked == old(untracked) && id in contrib
                  && forall y, x :: 0 <= y < model.Length0 && 0 <= x < model.Length1 ==>
                       model[y, x] == old(model[y, x]) + contrib[id](y, x)))
    }

    method PlaceBuilt(id: int, bs: Beams, spectrum: Option<Spectrum>, store: bool, inPlace: bool) returns (r: OrdersResult)
      requires Valid() && !Stored(id)
      requires AllValid(bs) && DistinctBuffers(bs) && Objects(bs) !! Repr && Buffers(bs) !! Repr
      modifies this, model, Objects(bs), Buffers(bs)
      ensures Placed(id, bs, spectrum, store, inPlace, r)
      ensures !r.Raised? ==> Valid()
      ensures Repr <= old(Repr) + Objects(bs) + Buffers(bs)
      ensures store && inPlace && old(NoTemplates()) && !r.Raised? ==> NoTemplates() && untracked == old(untracked)
    {
      var raised;
      if !inPlace {
        var out;
        out, raised := DetachedOrders(bs, id, spectrum, model, kernel, interp);
        r := if raised then OrdersResult.Raised else Detached(bs, out);
      } else {
        if id in registry {
          raised := PlaceOverTemplate(id, bs, spectrum, store);
        } else {
          raised := PlaceNew(id, bs, spectrum, store);
        }
        r := if raised then OrdersResult.Raised else Done;
      }
    }

    /** `compute_model_orders`: the stored orders of `id` are recomputed;
        otherwise the object is located, its orders are built and they are
        returned, added to `model` or put in a fresh frame. Unless it
        raised, the invariant is kept. */
    method ComputeModelOrders(id: int, x: Option<real>, y: Option<real>, size: Option<int>, mag: real,
                              spectrum: Option<Spectrum>, computeSize: bool, store: bool, inPlace: bool,
                              getBeams: Option<seq<string>>) returns (r: OrdersResult, ghost bs: Beams)
      requires Valid()
      modifies this, model, Repr
      ensures old(Stored(id)) ==> RefreshOutcome(id, old(registry[id].beams), spectrum, inPlace, r)
      ensures !old(Stored(id)) ==>
        var loc := LocateObject(id, x, y, size, computeSize, catalog, Direct(), seg, sh, dorigin, pad, limits);
        && (loc.Missing? ==> r == NotFound)
        && (loc.OffEdge? ==> r == Skipped)
        && (loc.NoSize? ==> r.Raised?)
        && (!loc.At? ==>
              && registry == old(registry) && order == old(order) && owner == old(owner) && Repr == old(Repr)
              && contrib == old(contrib) && untracked == old(untracked) && unchanged(model))
        && (loc.At? ==> BuildOutcome(id, loc.t, mag, spectrum, store, inPlace, getBeams, bs, r))
      ensures !r.Raised? ==> Valid()
      ensures fresh(Repr - old(Repr))
      ensures store && inPlace && old(NoTemplates()) && !r.Raised? ==> NoTemplates() && untracked == old(untracked)
    {
      if id in registry && registry[id].Computed? {
        r := RefreshStored(id, spectrum, inPlace);
        return r, [];
      }
      var loc := LocateObject(id, x, y, size, computeSize, catalog, Direct(), seg, sh, dorigin, pad, limits);
      match loc
      case Missing => return NotFound, [];
      case OffEdge => return Skipped, [];
      case NoSize => return OrdersResult.Raised, [];
      case At(t) =>
        r, bs := BuildAndPlace(id, t, mag, spectrum, store, inPlace, getBeams);
    }

    /** Every registered object has its orders stored (none was registered
        with `store=False`). */
    ghost predicate NoTemplates()
      reads this
    {
      forall i :: i in registry ==> registry[i].Computed?
    }

    /** The orders stored for the objects of `ord`, summed at one pixel. */
    ghost function OrdersSum(ord: seq<int>, r: int, c: int): real
      requires Owned() && NoTemplates()
      requires forall k :: 0 <= k < |ord| ==> ord[k] in registry
      reads this, Repr
    {
      if ord == [] then 0.0
      else
        var i := ord[|ord| - 1];
        assert registry[i].Computed?;
        OrdersSum(ord[..|ord| - 1], r, c) + SumAt(StoredFrames(i), r, c)
    }

    /** What the stored orders of `i` currently hold. */
    ghost function StoredFrames(i: int): seq<Frame>
      requires Owned() && Stored(i)
      reads this, Repr
    {
      var bs := registry[i].beams;
      assert Buffers(bs) <= Repr by {
        forall o | o in Buffers(bs) ensures o in Repr {
          var k :| 0 <= k < |bs| && o == bs[k].1.modelf;
        }
      }
      Frames(bs)
    }

    /** Without templates, the tracked contributions are what the stored
        orders hold. */
    lemma {:induction false} TotalIsOrdersSum(ord: seq<int>, r: int, c: int)
      requires Owned() && Tracked() && NoTemplates()
      requires forall k :: 0 <= k < |ord| ==> ord[k] in registry
      ensures forall k :: 0 <= k < |ord| ==> ord[k] in contrib
      ensures Total(ord, contrib, r, c) == OrdersSum(ord, r, c)
    {
      if ord != [] {
        var n := |ord| - 1;
        TotalIsOrdersSum(ord[..n], r, c);
        assert Stored(ord[n]);
        assert contrib[ord[n]] == SumFrame(StoredFrames(ord[n]));
      }
    }

    /** The key invariant: when every registered object has its orders
        stored and `model` holds nothing else, each pixel of `model` is the
        sum of what the registered orders hold there. */
    lemma ModelIsSumOfOrders(r: int, c: int)
      requires Valid() && NoTemplates() && untracked(r, c) == 0.0
      requires 0 <= r < sh.0 && 0 <= c < sh.1
      ensures model[r, c] == OrdersSum(order, r, c)
    {
      TotalIsOrdersSum(order, r, c);
    }

    /** The magnitudes `ABZP - 2.5 log10(flux)` of the segmentation regions
        of `ids` in the `thumb_extension` image, `None` when that image is
        missing (which raises as soon as there is an id to measure). */
    method MeasureMags(ids: seq<int>, image: Option<seq<seq<real>>>, log10: real -> real)
      returns (ms: seq<real>, raised: bool)
      ensures raised <==> image.None? && |ids| > 0
      ensures !raised ==> |ms| == |ids|
      ensures !raised ==> forall i :: 0 <= i < |ids| ==> ms[i] == abzp - 2.5 * log10(limits(seg, ids[i], image.value).flux)
    {
      var mags := new real[|ids|]((_) => 0.0);
      var i := 0;
      while i < |ids|
        invariant 0 <= i <= |ids|
        invariant i > 0 ==> image.Some?
        invariant forall k :: 0 <= k < i ==> image.Some? && mags[k] == abzp - 2.5 * log10(limits(seg, ids[k], image.value).flux)
      {
        if image.None? {
          return [], true;
        }
        mags[i] := abzp - 2.5 * log10(limits(seg, ids[i], image.value).flux);
        i := i + 1;
      }
      return mags[..], false;
    }

    /** The ids `compute_full_model` works through: those given, else every
        label of the segmentation image but the smallest. */
    function FullIds(ids: Option<seq<int>>): seq<int>
    {
      if ids.Some? then ids.value else DefaultIds(seg)
    }

    /** The image the magnitudes are measured on: `REF` or `SCI`, as
        `thumb_extension` says. */
    function ThumbImage(): Option<seq<seq<real>>>
    {
      if thumbRef then ref else Some(sci)
    }

    /** The magnitudes `compute_full_model` gives the ids of `list`: measured
        on the thumbnail image, one value repeated, or the list given;
        `None` where it raises (lists of different lengths, or nothing to
        measure on). */
    function FullMags(list: seq<int>, mags: Mags, log10: real -> real): (ms: Option<seq<real>>)
      ensures ms.None? <==> (mags.PerId? && |mags.ms| != |list|) || (mags.Measured? && ThumbImage().None? && list != [])
      ensures ms.Some? ==> |ms.value| == |list|
      ensures ms.Some? && mags.Scalar? ==> forall k :: 0 <= k < |list| ==> ms.value[k] == mags.m
      ensures ms.Some? && mags.PerId? ==> ms.value == mags.ms
    {
      match mags
      case Measured =>
        if list == [] then Some([])
        else if ThumbImage().None? then None
        else Some(seq(|list|, k requires 0 <= k < |list| =>
                        abzp - 2.5 * log10(limits(seg, list[k], ThumbImage().value).flux)))
      case Scalar(m) => Some(seq(|list|, _ => m))
      case PerId(given) => if |list| != |given| then None else Some(given)
    }

    /** Where `compute_model_orders` finds `id` when called from
        `compute_full_model`: no position given, the size (default 10)
        measured from the segmentation image. */
    function FullLocation(id: int): Location
      requires Shaped()
    {
      LocateObject(id, None, None, Some(10), true, catalog, Direct(), seg, sh, dorigin, pad, limits)
    }

    /** The names of the orders bright enough at `mag` for the thumbnail `t`. */
    function Bright(mag: real, t: Thumbnail): seq<string>
    {
      BeamOrder(BeamNames(None, conf), mag, GeoOf(t, conf, pad, grow, interp), conf)
    }

    /** What one in-place `compute_model_orders(id, compute_size=True, mag)`
        does to the registry, `before` to `after`: stored orders are only
        refreshed, an object that cannot be located is left alone, and any
        other is registered (over a template if it had one), with its orders
        bright enough at `mag` when `store` and its flat template otherwise. */
    ghost predicate Step(id: int, mag: real, store: bool, before: map<int, Entry>, after: map<int, Entry>)
      requires Shaped()
    {
      var loc := FullLocation(id);
      if (id in before && before[id].Computed?) || !loc.At? then after == before
      else
        && id in after && after == before[id := after[id]]
        && (store ==> after[id].Computed? && Names(after[id].beams) == Bright(mag, loc.t))
        && (!store ==> after[id] == Template(None))
    }

    /** The registry `after` has grown from `before` by ids of `ids` only:
        nothing was unregistered, stored orders stay stored, and new stored
        orders only appear with `store`. */
    ghost predicate Extends(ids: seq<int>, store: bool, before: map<int, Entry>, after: map<int, Entry>)
    {
      && (forall j :: j in before ==> j in after)
      && (forall j :: j in before && before[j].Computed? ==> j in after && after[j].Computed?)
      && (forall j :: j in after ==> j in before || j in ids)
      && (forall j :: j in after && after[j].Computed? && !(j in before && before[j].Computed?) ==> store && j in ids)
    }

    /** `ids[k]` was computed with `mags[k]`, as the registry `after` shows:
        an object that can be located is registered; without `store`, unless
        its orders were stored already, it holds its flat template; with
        `store`, at the first occurrence of an id with no stored orders, the
        orders stored are those bright enough at `mags[k]`. */
    ghost predicate Processed(ids: seq<int>, mags: seq<real>, k: int, store: bool, before: map<int, Entry>, after: map<int, Entry>)
      requires Shaped() && 0 <= k < |ids| && |mags| == |ids|
    {
      var id := ids[k];
      var loc := FullLocation(id);
      var kept := id in before && before[id].Computed?;
      && (loc.At? ==> id in after)
      && (loc.At? && !kept && !store ==> id in after && after[id] == Template(None))
      && (loc.At? && !kept && store && id !in ids[..k] ==>
            id in after && after[id].Computed? && Names(after[id].beams) == Bright(mags[k], loc.t))
    }

    /** Every id of `ids` was computed with its magnitude. */
    ghost predicate AllProcessed(ids: seq<int>, mags: seq<real>, store: bool, before: map<int, Entry>, after: map<int, Entry>)
      requires Shaped() && |mags| == |ids|
    {
      forall k :: 0 <= k < |ids| ==> Processed(ids, mags, k, store, before, after)
    }

    /** One more step of the loop keeps what the registry records of the
        ids already computed, and records the new one. */
    lemma StepKeeps(ids: seq<int>, mags: seq<real>, i: int, store: bool,
                    orig: map<int, Entry>, before: map<int, Entry>, after: map<int, Entry>)
      requires Shaped() && 0 <= i < |ids| && |mags| == |ids|
      requires Extends(ids[..i], store, orig, before)
      requires forall k :: 0 <= k < i ==> Processed(ids, mags, k, store, orig, before)
      requires Step(ids[i], mags[i], store, before, after)
      ensures Extends(ids[..i + 1], store, orig, after)
      ensures forall k :: 0 <= k < i + 1 ==> Processed(ids, mags, k, store, orig, after)
    {
      StepExtends(ids[..i], ids[i], mags[i], store, orig, before, after);
      assert ids[..i + 1] == ids[..i] + [ids[i]];
      forall k | 0 <= k < i + 1
        ensures Processed(ids, mags, k, store, orig, after)
      {
        if k < i {
          StepKeepsOne(ids, mags, k, i, store, orig, before, after);
        } else {
          StepRecords(ids, mags, i, store, orig, before, after);
        }
      }
    }

    /** A step only registers its own id, and keeps stored orders stored. */
    lemma StepExtends(done: seq<int>, id: int, mag: real, store: bool,
                      orig: map<int, Entry>, before: map<int, Entry>, after: map<int, Entry>)
      requires Shaped() && Extends(done, store, orig, before) && Step(id, mag, store, before, after)
      ensures Extends(done + [id], store, orig, after)
    {
    }

    /** A step on `ids[i]` keeps what the registry records of an earlier `ids[k]`. */
    lemma StepKeepsOne(ids: seq<int>, mags: seq<real>, k: int, i: int, store: bool,
                       orig: map<int, Entry>, before: map<int, Entry>, after: map<int, Entry>)
      requires Shaped() && 0 <= k < i < |ids| && |mags| == |ids|
      requires Extends(ids[..i], store, orig, before)
      requires Processed(ids, mags, k, store, orig, before)
      requires Step(ids[i], mags[i], store, before, after)
      ensures Processed(ids, mags, k, store, orig, after)
    {
      if ids[k] == ids[i] {
        assert ids[k] in ids[..i];
      }
    }

    /** A step on `ids[i]` records it, given what the earlier steps did. */
    lemma StepRecords(ids: seq<int>, mags: seq<real>, i: int, store: bool,
                      orig: map<int, Entry>, before: map<int, Entry>, after: map<int, Entry>)
      requires Shaped() && 0 <= i < |ids| && |mags| == |ids|
      requires Extends(ids[..i], store, orig, before)
      requires Step(ids[i], mags[i], store, before, after)
      ensures Processed(ids, mags, i, store, orig, after)
    {
    }

    /** `compute_full_model`: the magnitudes are measured, broadcast or
        checked against the ids (a `ValueError` when the lengths differ), and
        then each id is computed in place with the size measured, a
        flat spectrum and `store`. Unless something raised, the invariant is
        kept and every id was computed with its magnitude; with `store`,
        starting without templates, no template is created and the
        untracked part of `model` stays what it was. */
    method ComputeFullModel(ids: Option<seq<int>>, mags: Mags, store: bool, log10: real -> real) returns (raised: bool)
      requires Valid()
      modifies this, model, Repr
      ensures mags.PerId? && |mags.ms| != |FullIds(ids)| ==> raised && registry == old(registry) && unchanged(model)
      ensures mags.Measured? && thumbRef && ref.None? && FullIds(ids) != [] ==>
                raised && registry == old(registry) && unchanged(model)
      ensures !raised ==> Valid()
      ensures !raised ==>
                && FullMags(FullIds(ids), mags, log10).Some?
                && Extends(FullIds(ids), store, old(registry), registry)
                && AllProcessed(FullIds(ids), FullMags(FullIds(ids), mags, log10).value, store, old(registry), registry)
      ensures !raised && store && old(NoTemplates()) ==> NoTemplates() && untracked == old(untracked)
    {
      var list := FullIds(ids);
      var ms: seq<real>;
      match mags {
        case Measured =>
          ms, raised := MeasureMags(list, ThumbImage(), log10);
          if raised {
            return;
          }
        case Scalar(m) =>
          ms := seq(|list|, _ => m);
        case PerId(given) =>
          if |list| != |given| {
            return true;
          }
          ms := given;
      }
      assert ms == FullMags(list, mags, log10).value;
      raised := ComputeEach(list, ms, store);
    }

    /** The loop of `compute_full_model` over the ids and their magnitudes;
        it stops at the first exception. */
    method ComputeEach(ids: seq<int>, mags: seq<real>, store: bool) returns (raised: bool)
      requires Valid() && |mags| == |ids|
      modifies this, model, Repr
      ensures !raised ==> Valid()
      ensures !raised ==> Extends(ids, store, old(registry), registry) && AllProcessed(ids, mags, store, old(registry), registry)
      ensures !raised && store && old(NoTemplates()) ==> NoTemplates() && untracked == old(untracked)
    {
      raised := false;
      var i := 0;
      while i < |ids|
        invariant 0 <= i <= |ids|
        invariant Valid() && fresh(Repr - old(Repr))
        invariant store && old(NoTemplates()) ==> NoTemplates() && untracked == old(untracked)
        invariant Extends(ids[..i], store, old(registry), registry)
        invariant forall k :: 0 <= k < i ==> Processed(ids, mags, k, store, old(registry), registry)
      {
        ghost var before := registry;
        var r;
        ghost var bs;
        r, bs := ComputeOne(ids[i], mags[i], store);
        if r.Raised? {
          return true;
        }
        StepKeeps(ids, mags, i, store, old(registry), before, registry);
        i := i + 1;
      }
      assert ids[..i] == ids;
    }

    /** One iteration of that loop: `compute_model_orders` with the size from the
        segmentation image, in place, and no spectrum; `bs` are the orders
        built when the object was located. */
    method ComputeOne(id: int, mag: real, store: bool) returns (r: OrdersResult, ghost bs: Beams)
      requires Valid()
      modifies this, model, Repr
      ensures old(Stored(id)) ==> RefreshOutcome(id, old(registry[id].beams), None, true, r)
      ensures !old(Stored(id)) ==>
        var loc := FullLocation(id);
        && (loc.Missing? ==> r == NotFound)
        && (loc.OffEdge? ==> r == Skipped)
        && (loc.NoSize? ==> r.Raised?)
        && (!loc.At? ==>
              && registry == old(registry) && order == old(order) && owner == old(owner) && Repr == old(Repr)
              && contrib == old(contrib) && untracked == old(untracked) && unchanged(model))
        && (loc.At? ==> BuildOutcome(id, loc.t, mag, None, store, true, None, bs, r))
      ensures !r.Raised? ==> Valid() && fresh(Repr - old(Repr)) && Step(id, mag, store, old(registry), registry)
      ensures !r.Raised? && store && old(NoTemplates()) ==> NoTemplates() && untracked == old(untracked)
    {
      r, bs := ComputeModelOrders(id, None, None, Some(10), mag, None, true, store, true, None);
    }
  }
}
