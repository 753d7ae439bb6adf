/** `BeamCutout`: one spectral order of one object cut out of a grism
    exposure. It keeps the cutout's pixels flattened row by row, the masks
    built at construction, the polynomial design columns that
    `init_poly_coeffs` caches, and the fits `fit_at_z`, `fit_redshift` and
    `simple_line_fit` over templates, redshifts and line centres. */
module Cutout {
  import opened Common
  import opened Coefficients
  import Disperser

  type Spectrum = Disperser.Spectrum

  /** `self.beam.compute_model(spectrum_1d=...)` on the cutout's order: the
      flattened 2D model for a template (`None`: a flat spectrum). */
  type Renderer = Option<Spectrum> -> seq<real>

  /** A template: `templates[key].zscale(z, 1.)` as a function of `z`. */
  type Template = real -> Spectrum

  /** The least-squares solver (`numpy.linalg.lstsq` or scikit-learn's
      `LinearRegression`): the design matrix, column by column over the fit
      pixels, and the data on those pixels, to one coefficient per column. */
  type Solver = (seq<seq<real>>, seq<real>) -> seq<real>

  ghost predicate Solves(solver: Solver)
  {
    forall a, b {:trigger solver(a, b)} :: |solver(a, b)| == |a|
  }

  /** Every model the order renders covers the `n` pixels of the cutout. */
  ghost predicate Renders(render: Renderer, n: nat)
  {
    forall s {:trigger render(s)} :: |render(s)| == n
  }

  /** Bad pixels, or problems with the uncertainties: `DQ > 0`, `ERR == 0`
      or `SCI == 0`. */
  function BadPixels(dq: seq<int>, err: seq<real>, sci: seq<real>): (m: seq<bool>)
    requires |err| == |dq| && |sci| == |dq|
    ensures |m| == |dq|
    ensures forall k :: 0 <= k < |m| ==> (m[k] <==> dq[k] > 0 || err[k] == 0.0 || sci[k] == 0.0)
  {
    seq(|dq|, k requires 0 <= k < |dq| => dq[k] > 0 || err[k] == 0.0 || sci[k] == 0.0)
  }

  /** `1/ERR**2` with the masked pixels set to zero. */
  function InverseVariance(err: seq<real>, mask: seq<bool>): (v: seq<real>)
    requires |mask| == |err|
    ensures |v| == |err|
    ensures forall k :: 0 <= k < |v| ==> v[k] >= 0.0
    ensures forall k :: 0 <= k < |v| ==> (v[k] == 0.0 <==> mask[k] || err[k] == 0.0)
  {
    seq(|err|, k requires 0 <= k < |err| => if mask[k] || err[k] == 0.0 then 0.0 else 1.0 / (err[k] * err[k]))
  }

  /** Pixels worth fitting: unmasked, with a weight, and where the model `m`
      exceeds `floor` (a fraction of its maximum). */
  function FitPixels(mask: seq<bool>, ivar: seq<real>, m: seq<real>, floor: real): (ok: seq<bool>)
    requires |mask| == |m| && |ivar| == |m|
    ensures |ok| == |m|
    ensures forall k :: 0 <= k < |m| ==> (ok[k] <==> !mask[k] && ivar[k] != 0.0 && m[k] > floor)
  {
    seq(|m|, k requires 0 <= k < |m| => !mask[k] && ivar[k] != 0.0 && m[k] > floor)
  }

  /** A large residual where the model is faint: `flat < 0.05 max(flat)` and
      `|sci - flat| sqrt(ivar) > 5`, the latter written squared. */
  function LargeResiduals(sci: seq<real>, flat: seq<real>, ivar: seq<real>): (bad: seq<bool>)
    requires |flat| > 0 && |sci| == |flat| && |ivar| == |flat|
    ensures |bad| == |flat|
  {
    var top := MaxOf(flat);
    seq(|flat|, k requires 0 <= k < |flat| =>
      flat[k] < 0.05 * top && (sci[k] - flat[k]) * (sci[k] - flat[k]) * ivar[k] > 25.0)
  }

  /** `fit_mask`: the fit pixels of the flat-spectrum model (above 1% of its
      peak) without the large residuals. */
  function FitMask(mask: seq<bool>, ivar: seq<real>, flat: seq<real>, scif: seq<real>): (fm: seq<bool>)
    requires |flat| > 0 && |mask| == |flat| && |ivar| == |flat| && |scif| == |flat|
    ensures |fm| == |flat|
    ensures forall k :: 0 <= k < |flat| && fm[k] ==> !mask[k] && ivar[k] != 0.0 && flat[k] > 0.01 * MaxOf(flat)
  {
    var ok := FitPixels(mask, ivar, flat, 0.01 * MaxOf(flat));
    var bad := LargeResiduals(scif, flat, ivar);
    seq(|flat|, k requires 0 <= k < |flat| => ok[k] && !bad[k])
  }

  /** A pixel of the fit mask is unmasked, has a positive weight and lies
      where the flat model is above 1% of its peak. */
  lemma FitMaskSound(mask: seq<bool>, err: seq<real>, flat: seq<real>, scif: seq<real>, k: int)
    requires |flat| > 0 && |mask| == |flat| && |err| == |flat| && |scif| == |flat| && 0 <= k < |flat|
    requires FitMask(mask, InverseVariance(err, mask), flat, scif)[k]
    ensures !mask[k] && err[k] != 0.0 && InverseVariance(err, mask)[k] > 0.0
    ensures flat[k] > 0.01 * MaxOf(flat)
  {
  }

  /** `sci - contam`. */
  function Subtract(a: seq<real>, b: seq<real>): (d: seq<real>)
    requires |b| == |a|
    ensures |d| == |a| && forall k :: 0 <= k < |a| ==> d[k] + b[k] == a[k]
  {
    seq(|a|, k requires 0 <= k < |a| => a[k] - b[k])
  }

  /** Number of terms of a polynomial of order `p` (`range(p+1)`). */
  function Terms(p: int): nat
  {
    if p >= 0 then p + 1 else 0
  }

  /** The column of each flat pixel, rescaled: `(x - NX/2.) / scale` for the
      column `x = k % NX` of pixel `k`. */
  function Abscissa(n: nat, nx: nat, scale: real): (xs: seq<real>)
    requires nx > 0 && scale != 0.0
    ensures |xs| == n
    ensures forall k :: 0 <= k < n ==> xs[k] * scale == (k % nx) as real - nx as real / 2.0
  {
    seq(n, k requires 0 <= k < n => ((k % nx) as real - nx as real / 2.0) / scale)
  }

  /** `[xpf**order * model for order in range(p+1)]`. */
  function PolyColumns(xs: seq<real>, model: seq<real>, p: int): (cols: seq<seq<real>>)
    requires |xs| == |model|
    ensures |cols| == Terms(p) && Columns(cols, |model|)
    ensures forall o, k :: 0 <= o < |cols| && 0 <= k < |model| ==> cols[o][k] == Pow(xs[k], o) * model[k]
  {
    seq(Terms(p), o requires 0 <= o < Terms(p) =>
      seq(|model|, k requires 0 <= k < |model| => Pow(xs[k], o) * model[k]))
  }

  /** The polynomial "template" `y_poly`: `x**order` over the `nx` columns,
      `x = (arange(NX) - NX/2.) / (NX/2.)`. */
  function PolyTemplate(nx: nat, p: int): (y: seq<seq<real>>)
    requires nx > 0
    ensures |y| == Terms(p) && Columns(y, nx)
  {
    var x := Abscissa(nx, nx, nx as real / 2.0);
    seq(Terms(p), o requires 0 <= o < Terms(p) => seq(nx, c requires 0 <= c < nx => Pow(x[c], o)))
  }

  /** The state `init_poly_coeffs` caches: `poly_order`, `n_bg`, `n_poly`,
      `n_simp`, `A_poly` (column by column), `y_poly`, `xpf` and `DoF`. */
  datatype PolyCache = PolyCache(order: int, nBg: nat, nPoly: nat, nSimp: nat, aPoly: seq<seq<real>>,
                                 yPoly: seq<seq<real>>, xpf: seq<real>, dof: nat)

  /** What `init_poly_coeffs(p, fitBackground)` computes for a cutout whose
      `n` pixels span `nx` columns: `n_simp = n_poly + n_bg` design columns
      of `n` pixels, the background column first, and `DoF` fit pixels. */
  function PolyCacheFor(n: nat, nx: nat, flat: seq<real>, fitMask: seq<bool>, p: int, fitBackground: bool): (c: PolyCache)
    requires nx > 0 && |flat| == n
    ensures c.order == p && (c.nBg == 1 <==> fitBackground) && c.nBg <= 1
    ensures c.nPoly == Terms(p) && c.nSimp == c.nPoly + c.nBg
    ensures |c.aPoly| == c.nSimp && Columns(c.aPoly, n) && |c.xpf| == n
    ensures fitBackground ==> c.aPoly[0] == seq(n, _ => 1.0) && c.aPoly[1..] == PolyColumns(c.xpf, flat, p)
    ensures !fitBackground ==> c.aPoly == PolyColumns(c.xpf, flat, p)
    ensures |c.yPoly| == c.nPoly && Columns(c.yPoly, nx) && c.dof == Count(fitMask)
  {
    var xs := Abscissa(n, nx, nx as real / 2.0);
    PolyCache(p, if fitBackground then 1 else 0, Terms(p), Terms(p) + (if fitBackground then 1 else 0),
              PolyDesign(xs, flat, p, fitBackground), PolyTemplate(nx, p), xs, Count(fitMask))
  }

  /** `A_poly`: the polynomial columns, after a constant background column
      when `fitBackground`. */
  function PolyDesign(xs: seq<real>, model: seq<real>, p: int, fitBackground: bool): (a: seq<seq<real>>)
    requires |xs| == |model|
    ensures |a| == Terms(p) + (if fitBackground then 1 else 0) && Columns(a, |model|)
    ensures fitBackground ==> a[0] == seq(|model|, _ => 1.0) && a[1..] == PolyColumns(xs, model, p)
    ensures !fitBackground ==> a == PolyColumns(xs, model, p)
  {
    (if fitBackground then [seq(|model|, _ => 1.0)] else []) + PolyColumns(xs, model, p)
  }

  /** `np.ones(n, dtype=bool)`. */
  function Ones(n: nat): (m: seq<bool>)
    ensures |m| == n && forall k :: 0 <= k < n ==> m[k]
  {
    seq(n, k => true)
  }

  /** `A[mask, :]`: every column restricted to the pixels of `mask`. */
  function Restrict(cols: seq<seq<real>>, mask: seq<bool>): (r: seq<seq<real>>)
    requires Columns(cols, |mask|)
    ensures |r| == |cols| && Columns(r, Count(mask))
  {
    seq(|cols|, j requires 0 <= j < |cols| => Gather(mask, cols[j]))
  }

  /** `A[:, ok_temp]`: the usable columns. */
  function KeptColumns(ok: seq<bool>, cols: seq<seq<real>>, n: nat): (r: seq<seq<real>>)
    requires |ok| == |cols| && Columns(cols, n)
    ensures r == Gather(ok, cols) && Columns(r, n)
  {
    GatherColumns(ok, cols, n);
    Gather(ok, cols)
  }

  /** The in-mask to overall peak ratio of a template model is below 0.2.
      As in floats, a zero overall peak makes the ratio `-inf` for a
      negative in-mask peak and `nan` (never below) for a zero one. */
  predicate LowPeak(inMask: real, peak: real)
  {
    if peak != 0.0 then inMask / peak < 0.2 else inMask < 0.0
  }

  /** A design column and whether the fit may use it (`ok_temp`). */
  datatype Column = Column(values: seq<real>, usable: bool)

  /** The template's wavelengths miss those of the order:
      `wave[0] > lam_beam[-1]` or `wave[-1] < lam_beam[0]`. */
  predicate Misses(wave: seq<real>, lamBeam: seq<real>)
    requires |wave| > 0 && |lamBeam| > 0
  {
    wave[0] > lamBeam[|lamBeam| - 1] || wave[|wave| - 1] < lamBeam[0]
  }

  /** The column of one redshifted template: the flat model as a stand-in,
      never used, when the template misses the order's wavelength range;
      else its model, usable unless its in-mask peak is below 0.2 of its
      peak. Indexing an empty wavelength array, or taking the maximum over
      no fit pixel, raises. */
  function TemplateColumn(spec: Spectrum, lamBeam: seq<real>, flat: seq<real>, fitMask: seq<bool>, render: Renderer): (c: Option<Column>)
    ensures c.None? <==> (|spec.0| == 0 || |lamBeam| == 0 ||
      (!Misses(spec.0, lamBeam) && (|render(Some(spec))| != |fitMask| || Count(fitMask) == 0)))
    ensures c.Some? && Misses(spec.0, lamBeam) ==> c.value == Column(flat, false)
    ensures c.Some? && !Misses(spec.0, lamBeam) ==> var tm := render(Some(spec));
      c.value.values == tm && |Gather(fitMask, tm)| > 0 && |tm| > 0 &&
      (c.value.usable <==> !LowPeak(MaxOf(Gather(fitMask, tm)), MaxOf(tm)))
  {
    if |spec.0| == 0 || |lamBeam| == 0 then None
    else if Misses(spec.0, lamBeam) then Some(Column(flat, false))
    else
      var tm := render(Some(spec));
      if |tm| != |fitMask| || Count(fitMask) == 0 then None
      else
        assert |Gather(fitMask, tm)| > 0;
        Some(Column(tm, !LowPeak(MaxOf(Gather(fitMask, tm)), MaxOf(tm))))
  }

  /** The template columns in order and whether each is usable
      (`ok_temp`), or `None` when one of them raises. */
  function TemplateColumns(ts: seq<(string, Template)>, z: real, lamBeam: seq<real>, flat: seq<real>, fitMask: seq<bool>, render: Renderer): (r: Option<(seq<seq<real>>, seq<bool>)>)
    ensures r.Some? ==> |r.value.0| == |ts| && |r.value.1| == |ts|
  {
    if ts == [] then Some(([], []))
    else
      var n := |ts| - 1;
      var init := TemplateColumns(ts[..n], z, lamBeam, flat, fitMask, render);
      var last := TemplateColumn(ts[n].1(z), lamBeam, flat, fitMask, render);
      if init.None? || last.None? then None else Some((init.value.0 + [last.value.values], init.value.1 + [last.value.usable]))
  }

  /** The template columns raise exactly when one template's column does. */
  lemma {:induction false} TemplateColumnsRaise(ts: seq<(string, Template)>, z: real, lamBeam: seq<real>, flat: seq<real>, fitMask: seq<bool>, render: Renderer)
    ensures TemplateColumns(ts, z, lamBeam, flat, fitMask, render).Some? <==>
      forall i :: 0 <= i < |ts| ==> TemplateColumn(ts[i].1(z), lamBeam, flat, fitMask, render).Some?
  {
    if ts != [] {
      var n := |ts| - 1;
      TemplateColumnsRaise(ts[..n], z, lamBeam, flat, fitMask, render);
      assert forall i :: 0 <= i < n ==> ts[..n][i] == ts[i];
    }
  }

  /** Position `i` of the template columns holds the column of template `i`. */
  lemma {:induction false} TemplateColumnsAt(ts: seq<(string, Template)>, z: real, lamBeam: seq<real>, flat: seq<real>, fitMask: seq<bool>, render: Renderer, i: int)
    requires TemplateColumns(ts, z, lamBeam, flat, fitMask, render).Some? && 0 <= i < |ts|
    ensures var r := TemplateColumns(ts, z, lamBeam, flat, fitMask, render).value;
      TemplateColumn(ts[i].1(z), lamBeam, flat, fitMask, render) == Some(Column(r.0[i], r.1[i]))
  {
    var n := |ts| - 1;
    if i < n {
      TemplateColumnsAt(ts[..n], z, lamBeam, flat, fitMask, render, i);
    }
  }

  /** What `fit_at_z` returns: the design matrix `A` (column by column), the
      coefficients `out_coeffs`, chi-squared and the model `np.dot(A, out_coeffs)`
      (flattened). */
  datatype FitOut = FitOut(design: seq<seq<real>>, coeffs: seq<real>, chi2: real, model: seq<real>)

  /** The solver's coefficients: `A[fit_mask, :][:, ok_temp]` against
      `scif[fit_mask]`, one per usable column. */
  function Solve(cols: seq<seq<real>>, ok: seq<bool>, fitMask: seq<bool>, scif: seq<real>, solver: Solver): (c: seq<real>)
    requires |ok| == |cols| && Columns(cols, |fitMask|) && |scif| == |fitMask| && Solves(solver)
    ensures |c| == Count(ok)
  {
    solver(Restrict(KeptColumns(ok, cols, |fitMask|), fitMask), Gather(fitMask, scif))
  }

  /** One least-squares fit: the solver sees the usable columns on the fit
      pixels; its coefficients are scattered back over all columns. */
  function FitWith(cols: seq<seq<real>>, ok: seq<bool>, fitMask: seq<bool>, scif: seq<real>, ivar: seq<real>, solver: Solver): (f: FitOut)
    requires |ok| == |cols| && Columns(cols, |fitMask|) && |scif| == |fitMask| && |ivar| == |fitMask| && Solves(solver)
    ensures f.design == cols && Columns(f.design, |fitMask|) && |f.coeffs| == |cols|
    ensures f.model == Dot(f.design, f.coeffs, |fitMask|)
  {
    var out := Scatter(ok, Solve(cols, ok, fitMask, scif, solver));
    var model := Dot(cols, out, |fitMask|);
    FitOut(cols, out, Chi2(scif, model, ivar, fitMask), model)
  }

  /** The coefficients of a fit are zero on the unusable columns and the
      solver's coefficients, in order, on the usable ones. */
  lemma FitWithCoefficients(cols: seq<seq<real>>, ok: seq<bool>, fitMask: seq<bool>, scif: seq<real>, ivar: seq<real>, solver: Solver, k: int)
    requires |ok| == |cols| && Columns(cols, |fitMask|) && |scif| == |fitMask| && |ivar| == |fitMask| && Solves(solver)
    requires 0 <= k < |cols|
    ensures var f := FitWith(cols, ok, fitMask, scif, ivar, solver);
            && (!ok[k] ==> f.coeffs[k] == 0.0)
            && (ok[k] ==> Count(ok[..k]) < Count(ok) && f.coeffs[k] == Solve(cols, ok, fitMask, scif, solver)[Count(ok[..k])])
  {
    ScatterPlaces(ok, Solve(cols, ok, fitMask, scif, solver), k);
  }

  /** The model of a fit is that of the usable columns alone, and with
      non-negative weights its chi-squared is non-negative. */
  lemma FitWithModel(cols: seq<seq<real>>, ok: seq<bool>, fitMask: seq<bool>, scif: seq<real>, ivar: seq<real>, solver: Solver)
    requires |ok| == |cols| && Columns(cols, |fitMask|) && |scif| == |fitMask| && |ivar| == |fitMask| && Solves(solver)
    requires forall q :: 0 <= q < |ivar| ==> ivar[q] >= 0.0
    ensures var f := FitWith(cols, ok, fitMask, scif, ivar, solver);
            && (forall p :: 0 <= p < |fitMask| ==> f.model[p] == Combine(Gather(ok, cols), Solve(cols, ok, fitMask, scif, solver), p))
            && f.chi2 >= 0.0
  {
    var coeffs := Solve(cols, ok, fitMask, scif, solver);
    forall p | 0 <= p < |fitMask| {
      CombineScatter(ok, cols, coeffs, p);
    }
    var f := FitWith(cols, ok, fitMask, scif, ivar, solver);
    Chi2Bounds(scif, f.model, ivar, fitMask);
  }

  /** `templates.keys()`. */
  function Keys(ts: seq<(string, Template)>): (ks: seq<string>)
    ensures |ks| == |ts| && forall i :: 0 <= i < |ts| ==> ks[i] == ts[i].0
  {
    seq(|ts|, i requires 0 <= i < |ts| => ts[i].0)
  }

  /** What `fit_redshift` returns (without the figure and the 1D spectra):
      the polynomial order, `zbest`, the merged grid of redshifts with their
      chi-squared and coefficients, the fit at `zbest` (`A`, `coeffs_full`,
      `model_full`) and the continuum model `model_cont`. */
  datatype RedshiftFit = RedshiftFit(polyOrder: int, zbest: real, grid: seq<ZFit>, full: FitOut, continuum: seq<real>)

  /** What `simple_line_fit` returns: the line centres, the coefficients and
      chi-squared at each centre, `ok_data`, the best model with and without
      the line, the best centre and the line flux there. */
  datatype LineFit = LineFit(centers: seq<real>, coeffs: seq<seq<real>>, chi2: seq<real>, okData: seq<bool>,
                             bestModel: seq<real>, bestModelCont: seq<real>, bestCenter: real, bestFlux: real)

  /** `zr` and `dz` of `fit_redshift`, filled with the defaults of the G102
      and G141 grisms; for any other grism both must be given (indexing
      `None` raises). */
  function RedshiftRange(filter: string, zr: Option<(real, real)>, dz: Option<(real, real)>): (r: Option<((real, real), (real, real))>)
    ensures r.Some? <==> (filter == "G102" || filter == "G141" || (zr.Some? && dz.Some?))
    ensures r.Some? && zr.Some? ==> r.value.0 == zr.value
    ensures r.Some? && dz.Some? ==> r.value.1 == dz.value
    ensures r.Some? ==> 0.0 < r.value.0.0 < r.value.0.1 || zr.Some?
    ensures r.Some? ==> 0.0 < r.value.1.1 < r.value.1.0 || dz.Some?
  {
    var range := if filter == "G102" then Some((7800.0 / 6563.0 - 1.0, 12000.0 / 5007.0 - 1.0))
                 else if filter == "G141" then Some((11000.0 / 6563.0 - 1.0, 16500.0 / 5007.0 - 1.0))
                 else None;
    var steps := if filter == "G102" then Some((0.001, 0.0005))
                 else if filter == "G141" then Some((0.003, 0.0005))
                 else None;
    var zr' := if zr.Some? then zr else range;
    var dz' := if dz.Some? then dz else steps;
    if zr'.None? || dz'.None? then None else Some((zr'.value, dz'.value))
  }

  /** The lines of `simple_line_fit`: `waves = np.arange(l0, l1, dl)` and the
      centres `waves[skip/2::skip]` (Python 2 floor division); a zero step
      raises. */
  function LineGrid(grid: (real, real, real, int)): (r: Option<(seq<real>, seq<real>)>)
    ensures r.Some? <==> grid.2 != 0.0 && grid.3 != 0
    ensures r.Some? ==> Some(r.value.0) == RealArange(grid.0, grid.1, grid.2)
    ensures r.Some? ==> Some(r.value.1) == StepSlice(r.value.0, grid.3 / 2, grid.3)
  {
    var waves := RealArange(grid.0, grid.1, grid.2);
    if waves.None? then None
    else
      var centers := StepSlice(waves.value, grid.3 / 2, grid.3);
      if centers.None? then None else Some((waves.value, centers.value))
  }

  /** One least-squares fit of `simple_line_fit`: every column of `A` on the
      pixels of `okData`, the model `np.dot(A, coeffs)` and its chi-squared
      on those pixels. */
  function LineTrial(design: seq<seq<real>>, okData: seq<bool>, scif: seq<real>, ivar: seq<real>, solver: Solver): (t: (seq<real>, real))
    requires Columns(design, |okData|) && |scif| == |okData| && |ivar| == |okData| && Solves(solver)
    requires forall k :: 0 <= k < |ivar| ==> ivar[k] >= 0.0
    ensures |t.0| == |design| && t.1 >= 0.0
    ensures t.0 == solver(Restrict(design, okData), Gather(okData, scif))
  {
    var coeffs := solver(Restrict(design, okData), Gather(okData, scif));
    var model := Dot(design, coeffs, |okData|);
    Chi2Bounds(scif, model, ivar, okData);
    (coeffs, Chi2(scif, model, ivar, okData))
  }

  /** What a fit of a cutout sees: `lam_beam`, `flat_flam`, `fit_mask`,
      `scif`, `ivarf` and the order's renderer. */
  datatype FitData = FitData(lamBeam: seq<real>, flat: seq<real>, fitMask: seq<bool>, scif: seq<real>, ivar: seq<real>, render: Renderer)

  /** All of one pixel each, with non-negative weights. */
  ghost predicate Fits(d: FitData)
  {
    && |d.flat| == |d.fitMask| && |d.scif| == |d.fitMask| && |d.ivar| == |d.fitMask|
    && Renders(d.render, |d.fitMask|)
    && forall k :: 0 <= k < |d.ivar| ==> d.ivar[k] >= 0.0
  }

  /** The columns of the templates at `z` are one entry per pixel. */
  lemma TemplateColumnsShape(ts: seq<(string, Template)>, z: real, d: FitData)
    requires Fits(d)
    requires TemplateColumns(ts, z, d.lamBeam, d.flat, d.fitMask, d.render).Some?
    ensures Columns(TemplateColumns(ts, z, d.lamBeam, d.flat, d.fitMask, d.render).value.0, |d.fitMask|)
  {
    var tc := TemplateColumns(ts, z, d.lamBeam, d.flat, d.fitMask, d.render).value;
    forall i | 0 <= i < |tc.0| ensures |tc.0[i]| == |d.fitMask| {
      TemplateColumnsAt(ts, z, d.lamBeam, d.flat, d.fitMask, d.render, i);
    }
  }

  /** `fit_at_z` over the design `aPoly` (always usable) followed by the
      template columns at `z`; `None` when a template raises. */
  function FitTemplates(aPoly: seq<seq<real>>, ts: seq<(string, Template)>, z: real, d: FitData, solver: Solver): (r: Option<FitOut>)
    requires Fits(d) && Columns(aPoly, |d.fitMask|) && Solves(solver)
    ensures r.Some? <==> TemplateColumns(ts, z, d.lamBeam, d.flat, d.fitMask, d.render).Some?
    ensures r.Some? ==> |r.value.coeffs| == |aPoly| + |ts| && |r.value.model| == |d.fitMask|
    ensures r.Some? ==> Columns(r.value.design, |d.fitMask|) && |r.value.design| == |aPoly| + |ts|
  {
    var tc := TemplateColumns(ts, z, d.lamBeam, d.flat, d.fitMask, d.render);
    if tc.None? then None
    else
      TemplateColumnsShape(ts, z, d);
      Some(FitWith(aPoly + tc.value.0, Ones(|aPoly|) + tc.value.1, d.fitMask, d.scif, d.ivar, solver))
  }

  /** The coefficients of `fit_at_z`: the solver's on the columns of
      `aPoly` and on the usable templates, in order, and zero on the other
      templates. */
  lemma FitTemplatesCoefficients(aPoly: seq<seq<real>>, ts: seq<(string, Template)>, z: real, d: FitData, solver: Solver, k: int)
    requires Fits(d) && Columns(aPoly, |d.fitMask|) && Solves(solver)
    requires TemplateColumns(ts, z, d.lamBeam, d.flat, d.fitMask, d.render).Some?
    requires 0 <= k < |aPoly| + |ts|
    ensures var f := FitTemplates(aPoly, ts, z, d, solver).value;
      var tc := TemplateColumns(ts, z, d.lamBeam, d.flat, d.fitMask, d.render).value;
      var ok := Ones(|aPoly|) + tc.1;
      var solved := Solve(f.design, ok, d.fitMask, d.scif, solver);
      && f.design == aPoly + tc.0
      && (k < |aPoly| ==> k < |solved| && f.coeffs[k] == solved[k])
      && (|aPoly| <= k && !tc.1[k - |aPoly|] ==> f.coeffs[k] == 0.0)
      && (|aPoly| <= k && tc.1[k - |aPoly|] ==> Count(ok[..k]) < |solved| && f.coeffs[k] == solved[Count(ok[..k])])
  {
    var tc := TemplateColumns(ts, z, d.lamBeam, d.flat, d.fitMask, d.render).value;
    var ok := Ones(|aPoly|) + tc.1;
    TemplateColumnsShape(ts, z, d);
    FitWithCoefficients(aPoly + tc.0, ok, d.fitMask, d.scif, d.ivar, solver, k);
    if k < |aPoly| {
      assert ok[..k] == Ones(k);
      CountFullIff(ok[..k]);
    }
  }

  /** The model of `fit_at_z` is that of the polynomial and usable template
      columns alone, and its chi-squared is never negative. */
  lemma FitTemplatesModel(aPoly: seq<seq<real>>, ts: seq<(string, Template)>, z: real, d: FitData, solver: Solver)
    requires Fits(d) && Columns(aPoly, |d.fitMask|) && Solves(solver)
    requires TemplateColumns(ts, z, d.lamBeam, d.flat, d.fitMask, d.render).Some?
    ensures var f := FitTemplates(aPoly, ts, z, d, solver).value;
      var ok := Ones(|aPoly|) + TemplateColumns(ts, z, d.lamBeam, d.flat, d.fitMask, d.render).value.1;
      && (forall p :: 0 <= p < |d.fitMask| ==>
            f.model[p] == Combine(Gather(ok, f.design), Solve(f.design, ok, d.fitMask, d.scif, solver), p))
      && f.chi2 >= 0.0
  {
    var tc := TemplateColumns(ts, z, d.lamBeam, d.flat, d.fitMask, d.render).value;
    TemplateColumnsShape(ts, z, d);
    FitWithModel(aPoly + tc.0, Ones(|aPoly|) + tc.1, d.fitMask, d.scif, d.ivar, solver);
  }

  /** An unusable template keeps its column in the design but gets a zero
      coefficient. */
  lemma FitTemplatesUnusable(aPoly: seq<seq<real>>, ts: seq<(string, Template)>, z: real, d: FitData, solver: Solver, i: int)
    requires Fits(d) && Columns(aPoly, |d.fitMask|) && Solves(solver)
    requires TemplateColumns(ts, z, d.lamBeam, d.flat, d.fitMask, d.render).Some?
    requires 0 <= i < |ts| && !TemplateColumns(ts, z, d.lamBeam, d.flat, d.fitMask, d.render).value.1[i]
    ensures var f := FitTemplates(aPoly, ts, z, d, solver).value;
      && f.design[|aPoly| + i] == TemplateColumns(ts, z, d.lamBeam, d.flat, d.fitMask, d.render).value.0[i]
      && f.coeffs[|aPoly| + i] == 0.0
  {
    var tc := TemplateColumns(ts, z, d.lamBeam, d.flat, d.fitMask, d.render).value;
    var k := |aPoly| + i;
    var ok := Ones(|aPoly|) + tc.1;
    TemplateColumnsShape(ts, z, d);
    assert FitTemplates(aPoly, ts, z, d, solver) == Some(FitWith(aPoly + tc.0, ok, d.fitMask, d.scif, d.ivar, solver));
    FitWithCoefficients(aPoly + tc.0, ok, d.fitMask, d.scif, d.ivar, solver, k);
    assert !ok[k] && (aPoly + tc.0)[k] == tc.0[i];
  }

  /** A template that misses the order's wavelengths gets the flat model as
      its column and a zero coefficient. */
  lemma MissedTemplate(aPoly: seq<seq<real>>, ts: seq<(string, Template)>, z: real, d: FitData, solver: Solver, i: int)
    requires Fits(d) && Columns(aPoly, |d.fitMask|) && Solves(solver)
    requires TemplateColumns(ts, z, d.lamBeam, d.flat, d.fitMask, d.render).Some?
    requires 0 <= i < |ts| && |ts[i].1(z).0| > 0 && |d.lamBeam| > 0 && Misses(ts[i].1(z).0, d.lamBeam)
    ensures FitTemplates(aPoly, ts, z, d, solver).value.design[|aPoly| + i] == d.flat
    ensures FitTemplates(aPoly, ts, z, d, solver).value.coeffs[|aPoly| + i] == 0.0
  {
    TemplateColumnsAt(ts, z, d.lamBeam, d.flat, d.fitMask, d.render, i);
    FitTemplatesUnusable(aPoly, ts, z, d, solver, i);
  }

  /** The fits at each redshift of a grid, in order, as the rows of
      `zgrid`, `chi2` and `coeffs`; `None` when one raises. */
  function FitsOver(aPoly: seq<seq<real>>, zs: seq<real>, ts: seq<(string, Template)>, d: FitData, solver: Solver): (r: Option<seq<ZFit>>)
    requires Fits(d) && Columns(aPoly, |d.fitMask|) && Solves(solver)
    ensures r.Some? ==> |r.value| == |zs|
  {
    if zs == [] then Some([])
    else
      var n := |zs| - 1;
      var init := FitsOver(aPoly, zs[..n], ts, d, solver);
      var f := FitTemplates(aPoly, ts, zs[n], d, solver);
      if init.None? || f.None? then None else Some(init.value + [ZFit(zs[n], f.value.chi2, f.value.coeffs)])
  }

  /** Row `i` of a grid fit is the fit at `zs[i]`: its redshift, chi-squared
      and coefficients. */
  lemma {:induction false} FitsOverAt(aPoly: seq<seq<real>>, zs: seq<real>, ts: seq<(string, Template)>, d: FitData, solver: Solver, i: int)
    requires Fits(d) && Columns(aPoly, |d.fitMask|) && Solves(solver)
    requires FitsOver(aPoly, zs, ts, d, solver).Some? && 0 <= i < |zs|
    ensures var f := FitTemplates(aPoly, ts, zs[i], d, solver);
      f.Some? && FitsOver(aPoly, zs, ts, d, solver).value[i] == ZFit(zs[i], f.value.chi2, f.value.coeffs)
  {
    var n := |zs| - 1;
    if i < n {
      FitsOverAt(aPoly, zs[..n], ts, d, solver, i);
    }
  }

  /** A template whose model peaks mostly outside the fit mask (in-mask
      peak below 0.2 of its peak) keeps its model as its column but gets a
      zero coefficient. */
  lemma FaintTemplate(aPoly: seq<seq<real>>, ts: seq<(string, Template)>, z: real, d: FitData, solver: Solver, i: int)
    requires Fits(d) && Columns(aPoly, |d.fitMask|) && Solves(solver)
    requires TemplateColumns(ts, z, d.lamBeam, d.flat, d.fitMask, d.render).Some?
    requires 0 <= i < |ts| && |ts[i].1(z).0| > 0 && |d.lamBeam| > 0 && !Misses(ts[i].1(z).0, d.lamBeam)
    requires var tm := d.render(Some(ts[i].1(z)));
      |Gather(d.fitMask, tm)| > 0 && |tm| > 0 && LowPeak(MaxOf(Gather(d.fitMask, tm)), MaxOf(tm))
    ensures FitTemplates(aPoly, ts, z, d, solver).value.design[|aPoly| + i] == d.render(Some(ts[i].1(z)))
    ensures FitTemplates(aPoly, ts, z, d, solver).value.coeffs[|aPoly| + i] == 0.0
  {
    var tc := TemplateColumns(ts, z, d.lamBeam, d.flat, d.fitMask, d.render).value;
    TemplateColumnsAt(ts, z, d.lamBeam, d.flat, d.fitMask, d.render, i);
    var c := TemplateColumn(ts[i].1(z), d.lamBeam, d.flat, d.fitMask, d.render).value;
    assert c.values == tc.0[i] == d.render(Some(ts[i].1(z))) && !tc.1[i];
    FitTemplatesUnusable(aPoly, ts, z, d, solver, i);
  }

  /** A grid fit raises when the fit at one of its redshifts does. */
  lemma {:induction false} FitsNone(aPoly: seq<seq<real>>, zs: seq<real>, ts: seq<(string, Template)>, d: FitData, solver: Solver, i: int)
    requires Fits(d) && Columns(aPoly, |d.fitMask|) && Solves(solver)
    requires 0 <= i < |zs| && FitTemplates(aPoly, ts, zs[i], d, solver).None?
    ensures FitsOver(aPoly, zs, ts, d, solver).None?
  {
    if FitsOver(aPoly, zs, ts, d, solver).Some? {
      FitsOverAt(aPoly, zs, ts, d, solver, i);
    }
  }

  /** `model_cont` of `fit_redshift`: `np.dot(A, coeffs_full * mask)` with
      the coefficients of the line templates (after the `nSimp` polynomial
      ones) left out. */
  function ContinuumModel(f: FitOut, keys: seq<string>, nSimp: nat, n: nat): (m: seq<real>)
    requires Columns(f.design, n) && |f.coeffs| == |f.design| == nSimp + |keys|
    ensures |m| == n
  {
    Dot(f.design, Keep(f.coeffs, ContinuumMask(keys, nSimp)), n)
  }

  /** The models of the continuum and of the lines add up to the fit's model:
      splitting the coefficients by a mask splits `np.dot(A, coeffs)`. */
  lemma ContinuumSplit(f: FitOut, mask: seq<bool>, n: nat)
    requires Columns(f.design, n) && |f.coeffs| == |f.design| && |mask| == |f.design|
    requires f.model == Dot(f.design, f.coeffs, n)
    ensures forall q :: 0 <= q < n ==>
      Dot(f.design, Keep(f.coeffs, mask), n)[q] + Dot(f.design, Keep(f.coeffs, Invert(mask)), n)[q] == f.model[q]
  {
    forall q | 0 <= q < n {
      CombineSplit(f.design, f.coeffs, mask, q);
    }
  }

  /** The template loop of `fit_at_z`: after the columns `a0` (usable as
      `ok0` says), one column per template, in order; `None` when one of
      them raises. */
  method TemplateDesign(ts: seq<(string, Template)>, z: real, lamBeam: seq<real>, flat: seq<real>, fitMask: seq<bool>,
                        render: Renderer, a0: seq<seq<real>>, ok0: seq<bool>) returns (r: Option<(seq<seq<real>>, seq<bool>)>)
    ensures r.None? <==> TemplateColumns(ts, z, lamBeam, flat, fitMask, render).None?
    ensures r.Some? ==> var tc := TemplateColumns(ts, z, lamBeam, flat, fitMask, render).value;
      r.value == (a0 + tc.0, ok0 + tc.1)
  {
    var a, ok := a0, ok0;
    var i := 0;
    while i < |ts|
      invariant 0 <= i <= |ts|
      invariant TemplateColumns(ts[..i], z, lamBeam, flat, fitMask, render).Some?
      invariant var tc := TemplateColumns(ts[..i], z, lamBeam, flat, fitMask, render).value;
        a == a0 + tc.0 && ok == ok0 + tc.1
    {
      assert ts[..i + 1][..i] == ts[..i];
      var column := TemplateColumn(ts[i].1(z), lamBeam, flat, fitMask, render);
      if column.None? {
        TemplateColumnsRaise(ts, z, lamBeam, flat, fitMask, render);
        return None;
      }
      a := a + [column.value.values];
      ok := ok + [column.value.usable];
      i := i + 1;
    }
    assert ts[..i] == ts;
    r := Some((a, ok));
  }

  /** A line's flux in units of 1e-17 from its coefficient and the
      object's total flux. */
  function LineFlux(coeff: real, totalFlux: real): real
  {
    coeff * totalFlux / 1e-17
  }

  /** The order's model of a normalised line profile centred at `c` on
      the wavelengths `waves` (`compute_model(spectrum_1d=[waves, line])`). */
  function LineModel(render: Renderer, waves: seq<real>, profile: (real, seq<real>) -> seq<real>, c: real): seq<real>
  {
    render(Some((waves, profile(c, waves))))
  }

  /** The loop of `simple_line_fit`: at every centre, the continuum columns
      `base` and the line's model as the last column, fitted on `okData`. */
  method LineTrials(base: seq<seq<real>>, waves: seq<real>, centers: seq<real>, okData: seq<bool>, d: FitData,
                    solver: Solver, profile: (real, seq<real>) -> seq<real>) returns (coeffs: seq<seq<real>>, chi2: seq<real>)
    requires Fits(d) && Columns(base, |d.fitMask|) && |okData| == |d.fitMask| && Solves(solver)
    ensures |coeffs| == |centers| && |chi2| == |centers|
    ensures forall k :: 0 <= k < |centers| ==> Columns(base + [LineModel(d.render, waves, profile, centers[k])], |okData|)
    ensures forall k :: 0 <= k < |centers| ==>
      (coeffs[k], chi2[k]) == LineTrial(base + [LineModel(d.render, waves, profile, centers[k])], okData, d.scif, d.ivar, solver)
  {
    coeffs, chi2 := [], [];
    for i := 0 to |centers|
      invariant |coeffs| == i && |chi2| == i
      invariant forall k :: 0 <= k < i ==> Columns(base + [LineModel(d.render, waves, profile, centers[k])], |okData|)
      invariant forall k :: 0 <= k < i ==>
        (coeffs[k], chi2[k]) == LineTrial(base + [LineModel(d.render, waves, profile, centers[k])], okData, d.scif, d.ivar, solver)
    {
      var design := base + [LineModel(d.render, waves, profile, centers[i])];
      assert Columns(design, |okData|);
      var t := LineTrial(design, okData, d.scif, d.ivar, solver);
      coeffs := coeffs + [t.0];
      chi2 := chi2 + [t.1];
    }
  }

  /** `model` is `cont` plus `a` times `line`, pixel by pixel. */
  ghost predicate LineSplit(model: seq<real>, cont: seq<real>, a: real, line: seq<real>)
  {
    |model| == |cont| == |line| && forall q :: 0 <= q < |model| ==> model[q] == cont[q] + a * line[q]
  }

  /** Zeroing the last coefficient removes exactly the last column's share
      of the model. */
  lemma ZeroLastSplit(design: seq<seq<real>>, c: seq<real>, n: nat)
    requires Columns(design, n) && |c| == |design| > 0
    ensures LineSplit(Dot(design, c, n), Dot(design, ZeroLast(c), n), c[|c| - 1], design[|design| - 1])
  {
    forall q | 0 <= q < n
      ensures Dot(design, c, n)[q] == Dot(design, ZeroLast(c), n)[q] + c[|c| - 1] * design[|design| - 1][q]
    {
      ContinuumPlusLine(design, c, q);
    }
  }

  class BeamCutout {
    /** `beam.sh_beam`. */
    const rows: nat
    const cols: nat
    /** `beam.lam_beam` and `beam.total_flux`. */
    const lamBeam: seq<real>
    const totalFlux: real
    /** The cutout's `SCI`, `ERR` and `DQ` and the contamination `contam`,
        flattened row by row. */
    const sci: seq<real>
    const err: seq<real>
    const dq: seq<int>
    const contam: seq<real>
    const render: Renderer
    /** `mask`, `ivar` (also `ivarf`), `flat_flam`, `scif` and `fit_mask`. */
    const mask: seq<bool>
    const ivar: seq<real>
    const flatFlam: seq<real>
    const scif: seq<real>
    const fitMask: seq<bool>
    /** The order's current model (`self.model`, a view of `beam.model`)
        and the copy `self.modelf`. */
    var beamModel: seq<real>
    var modelf: seq<real>
    /** The cache of `init_poly_coeffs` (`None` while `poly_order` is). */
    var poly: Option<PolyCache>

    ghost predicate Valid()
      reads this
    {
      && Inputs()
      && |beamModel| == |sci| && |modelf| == |sci|
      && (poly.Some? ==> poly.value == PolyCacheFor(|sci|, cols, flatFlam, fitMask, poly.value.order, poly.value.nBg == 1))
    }

    /** What the constructor derives from the cutout; it involves only
        constants, so no update of the fit state can disturb it. */
    ghost predicate Inputs()
    {
      && |sci| == rows * cols && |sci| > 0 && cols > 0
      && |err| == |sci| && |dq| == |sci| && |contam| == |sci|
      && Renders(render, |sci|)
      && mask == BadPixels(dq, err, sci) && ivar == InverseVariance(err, mask)
      && flatFlam == render(None) && scif == Subtract(sci, contam)
      && fitMask == FitMask(mask, ivar, flatFlam, scif)
      && Fits(Data())
    }

    /** A cutout of `rows` x `cols` pixels: bad pixels are masked and get no
        weight, and the fit mask keeps the pixels where the flat-spectrum
        model is bright and the residual is not large. */
    constructor (rows: nat, cols: nat, lamBeam: seq<real>, totalFlux: real, sci: seq<real>, err: seq<real>,
                 dq: seq<int>, contam: seq<real>, beamModel: seq<real>, render: Renderer)
      requires |sci| == rows * cols && |sci| > 0
      requires |err| == |sci| && |dq| == |sci| && |contam| == |sci| && |beamModel| == |sci|
      requires Renders(render, |sci|)
      ensures Valid() && poly == None
      ensures this.rows == rows && this.cols == cols && this.lamBeam == lamBeam && this.totalFlux == totalFlux
      ensures this.sci == sci && this.err == err && this.dq == dq && this.contam == contam && this.render == render
      ensures this.beamModel == beamModel && modelf == beamModel
    {
      this.rows := rows;
      this.cols := cols;
      this.lamBeam := lamBeam;
      this.totalFlux := totalFlux;
      this.sci := sci;
      this.err := err;
      this.dq := dq;
      this.contam := contam;
      this.render := render;
      var m := BadPixels(dq, err, sci);
      var iv := InverseVariance(err, m);
      var flat := render(None);
      var sf := Subtract(sci, contam);
      mask := m;
      ivar := iv;
      flatFlam := flat;
      scif := sf;
      fitMask := FitMask(m, iv, flat, sf);
      this.beamModel := beamModel;
      modelf := beamModel;
      poly := None;
    }

    /** `init_poly_coeffs`: nothing to do when the cache already holds
        `poly_order`, whatever `fit_background` was then and is now;
        otherwise the cache is rebuilt. */
    method InitPolyCoeffs(p: int, fitBackground: bool)
      requires Valid()
      modifies this
      ensures Valid() && poly.Some? && poly.value.order == p
      ensures old(poly).Some? && old(poly).value.order == p ==> unchanged(this)
      ensures !(old(poly).Some? && old(poly).value.order == p) ==>
        poly == Some(PolyCacheFor(|sci|, cols, flatFlam, fitMask, p, fitBackground))
      ensures beamModel == old(beamModel) && modelf == old(modelf)
    {
      if poly.Some? && poly.value.order == p {
        return;
      }
      poly := Some(PolyCacheFor(|sci|, cols, flatFlam, fitMask, p, fitBackground));
    }

    /** The data the fits see. */
    function Data(): FitData
    {
      FitData(lamBeam, flatFlam, fitMask, scif, ivar, render)
    }

    /** `fit_at_z` on the cached design. */
    ghost function FitAt(z: real, ts: seq<(string, Template)>, solver: Solver): (r: Option<FitOut>)
      reads this
      requires Valid() && poly.Some? && Solves(solver)
      ensures r.Some? ==> |r.value.coeffs| == poly.value.nSimp + |ts| && |r.value.model| == |sci|
    {
      FitTemplates(poly.value.aPoly, ts, z, Data(), solver)
    }

    /** `fit_at_z` once the cache holds the order: the design with the
        template columns after the polynomial ones, then one fit. */
    method FitCached(z: real, ts: seq<(string, Template)>, solver: Solver) returns (r: Option<FitOut>)
      requires Valid() && poly.Some? && Solves(solver)
      ensures r == FitAt(z, ts, solver)
    {
      var design := TemplateDesign(ts, z, lamBeam, flatFlam, fitMask, render, poly.value.aPoly, Ones(|poly.value.aPoly|));
      if design.None? {
        return None;
      }
      TemplateColumnsShape(ts, z, Data());
      r := Some(FitWith(design.value.0, design.value.1, fitMask, scif, ivar, solver));
    }

    /** `fit_at_z`: the polynomial design for `p` with a background column
        (cached by order), then the fit over the templates at `z`. */
    method FitAtZ(z: real, ts: seq<(string, Template)>, p: int, solver: Solver) returns (r: Option<FitOut>)
      requires Valid() && Solves(solver)
      modifies this
      ensures Valid() && poly.Some? && poly.value.order == p
      ensures old(poly).Some? && old(poly).value.order == p ==> unchanged(this)
      ensures !(old(poly).Some? && old(poly).value.order == p) ==>
        poly == Some(PolyCacheFor(|sci|, cols, flatFlam, fitMask, p, true))
      ensures beamModel == old(beamModel) && modelf == old(modelf)
      ensures r == FitAt(z, ts, solver)
    {
      InitPolyCoeffs(p, true);
      r := FitCached(z, ts, solver);
    }

    /** The loop of `fit_redshift` over a grid of redshifts; each
        `fit_at_z` finds the order's design in the cache. */
    method FitGrid(zs: seq<real>, ts: seq<(string, Template)>, solver: Solver) returns (r: Option<seq<ZFit>>)
      requires Valid() && poly.Some? && Solves(solver)
      ensures r == FitsOver(poly.value.aPoly, zs, ts, Data(), solver)
    {
      var pts := [];
      var i := 0;
      while i < |zs|
        invariant 0 <= i <= |zs|
        invariant FitsOver(poly.value.aPoly, zs[..i], ts, Data(), solver) == Some(pts)
      {
        assert zs[..i + 1][..i] == zs[..i];
        var f := FitCached(zs[i], ts, solver);
        if f.None? {
          FitsNone(poly.value.aPoly, zs, ts, Data(), solver, i);
          return None;
        }
        pts := pts + [ZFit(zs[i], f.value.chi2, f.value.coeffs)];
        i := i + 1;
      }
      assert zs[..i] == zs;
      r := Some(pts);
    }

    /** `fit_redshift`: the redshift range of the grism, the coarse grid in
        it, one fit at `z = 0` that fills the cache for `p`, then the grid
        search. */
    method FitRedshift(filter: string, zr: Option<(real, real)>, dz: Option<(real, real)>,
                       logZgrid: ((real, real), real) -> seq<real>, countPeaks: (seq<real>, nat) -> int,
                       zoomZgrid: (seq<real>, seq<real>, nat, real) -> seq<real>,
                       templates: seq<(string, Template)>, lineFree: seq<(string, Template)>, p: int, solver: Solver)
      returns (r: Option<RedshiftFit>)
      requires Valid() && Solves(solver)
      modifies this
      ensures Valid() && beamModel == old(beamModel) && modelf == old(modelf)
      ensures RedshiftRange(filter, zr, dz).None? ==> r.None?
      ensures r.Some? ==> RedshiftRange(filter, zr, dz).Some? && poly.Some? && poly.value.order == p && r.value.polyOrder == p
      ensures r.Some? ==> var range := RedshiftRange(filter, zr, dz).value;
        Searched(r.value, logZgrid(range.0, range.1.0), countPeaks, zoomZgrid, templates, lineFree, solver)
    {
      var range := RedshiftRange(filter, zr, dz);
      if range.None? {
        return None;
      }
      var zs := logZgrid(range.value.0, range.value.1.0);
      var first := FitAtZ(0.0, templates, p, solver);
      if first.None? {
        return None;
      }
      r := Search(zs, countPeaks, zoomZgrid, templates, lineFree, solver);
    }

    /** What the grid search of `fit_redshift` finds on `zgrid`: the coarse
        grid fits (not empty), the zoomed grid fits around the minima of
        chi-squared with the threshold 0.01 or 0.001, both merged in order
        of redshift, the best redshift (no worse than the best coarse
        point), and there the fit with separate line templates and its
        continuum without them. */
    ghost predicate Searched(rf: RedshiftFit, zgrid: seq<real>,
                             countPeaks: (seq<real>, nat) -> int, zoomZgrid: (seq<real>, seq<real>, nat, real) -> seq<real>,
                             templates: seq<(string, Template)>, lineFree: seq<(string, Template)>, solver: Solver)
      reads this
      requires Valid() && poly.Some? && Solves(solver)
    {
      var c := poly.value;
      var co := FitsOver(c.aPoly, zgrid, templates, Data(), solver);
      && co.Some? && |co.value| > 0
      && var coarse := co.value;
         var t := ZoomThreshold(Chis(coarse), c.dof, countPeaks(Chis(coarse), c.dof));
         var zo := FitsOver(c.aPoly, zoomZgrid(zgrid, Chis(coarse), c.dof, t), templates, Data(), solver);
         && zo.Some?
         && rf.polyOrder == c.order
         && rf.grid == MergeGrids(coarse, zo.value) && |rf.grid| > 0 && rf.zbest == BestPoint(rf.grid).z
         && BestPoint(rf.grid).chi2 <= MinOf(Chis(coarse))
         && FitTemplates(c.aPoly, lineFree, rf.zbest, Data(), solver) == Some(rf.full)
         && |rf.full.coeffs| == c.nSimp + |lineFree|
         && rf.continuum == ContinuumModel(rf.full, Keys(lineFree), c.nSimp, |sci|)
    }

    /** The grid search of `fit_redshift` once the cache holds the order. */
    method Search(zgrid: seq<real>, countPeaks: (seq<real>, nat) -> int, zoomZgrid: (seq<real>, seq<real>, nat, real) -> seq<real>,
                  templates: seq<(string, Template)>, lineFree: seq<(string, Template)>, solver: Solver)
      returns (r: Option<RedshiftFit>)
      requires Valid() && poly.Some? && Solves(solver)
      ensures r.Some? ==> Searched(r.value, zgrid, countPeaks, zoomZgrid, templates, lineFree, solver)
    {
      var c := FitGrid(zgrid, templates, solver);
      if c.None? || |c.value| == 0 {
        return None;
      }
      var dof := poly.value.dof;
      var chis := Chis(c.value);
      var t := ZoomThreshold(chis, dof, countPeaks(chis, dof));
      var zm := FitGrid(zoomZgrid(zgrid, chis, dof, t), templates, solver);
      if zm.None? {
        return None;
      }
      var merged := MergeGrids(c.value, zm.value);
      MergedNoWorse(c.value, zm.value);
      var best := BestPoint(merged);
      var full := FitCached(best.z, lineFree, solver);
      if full.None? {
        return None;
      }
      var continuum := ContinuumModel(full.value, Keys(lineFree), poly.value.nSimp, |sci|);
      r := Some(RedshiftFit(poly.value.order, best.z, merged, full.value, continuum));
    }

    /** `ok_data` of `simple_line_fit`: unmasked pixels with a weight where
        the flat-spectrum model exceeds 3% of its peak. */
    function OkData(): (ok: seq<bool>)
      requires Inputs()
      ensures |ok| == |sci|
    {
      FitPixels(mask, ivar, flatFlam, 0.03 * MaxOf(flatFlam))
    }

    /** The continuum columns of `simple_line_fit`: `xpf**order * modelf`
        with `xpf = (x - NX/2.) / (NX/2)` (integer division). */
    function LineBase(p: int): (base: seq<seq<real>>)
      requires Inputs() && cols >= 2
      ensures |base| == Terms(p) && Columns(base, |sci|)
    {
      PolyColumns(Abscissa(|sci|, cols, (cols / 2) as real), flatFlam, p)
    }

    /** What `simple_line_fit` returns for the line grid `grid`: the fit at
        every centre, and at the first centre of least chi-squared the best
        model, the same without the line and the line's flux. */
    ghost predicate LineFitted(rf: LineFit, grid: (real, real, real, int), p: int, solver: Solver, profile: (real, seq<real>) -> seq<real>)
      requires Inputs() && cols >= 2 && Solves(solver)
    {
      var lg := LineGrid(grid);
      && lg.Some? && rf.centers == lg.value.1 && |rf.centers| > 0 && rf.okData == OkData()
      && |rf.coeffs| == |rf.centers| && |rf.chi2| == |rf.centers|
      && (forall k :: 0 <= k < |rf.centers| ==> Columns(LineBase(p) + [LineModel(render, lg.value.0, profile, rf.centers[k])], |sci|))
      && (forall k :: 0 <= k < |rf.centers| ==>
            (rf.coeffs[k], rf.chi2[k]) == LineTrial(LineBase(p) + [LineModel(render, lg.value.0, profile, rf.centers[k])], OkData(), scif, ivar, solver))
      && var ix := ArgMin(rf.chi2);
         var design := LineBase(p) + [LineModel(render, lg.value.0, profile, rf.centers[ix])];
         && rf.bestCenter == rf.centers[ix]
         && rf.bestModel == Dot(design, rf.coeffs[ix], |sci|)
         && rf.bestModelCont == Dot(design, ZeroLast(rf.coeffs[ix]), |sci|)
         && rf.bestFlux == LineFlux(rf.coeffs[ix][Terms(p)], totalFlux)
    }

    /** `simple_line_fit`: the flat-spectrum model becomes the order's model
        and `modelf`; then a continuum polynomial times that model plus one
        line, fitted at every centre of the grid; the order's model is left
        at the best line. With no centre, `np.argmin` raises. */
    method SimpleLineFit(grid: (real, real, real, int), p: int, solver: Solver, profile: (real, seq<real>) -> seq<real>)
      returns (r: Option<LineFit>)
      requires Valid() && Solves(solver) && cols >= 2
      modifies this
      ensures Valid() && poly == old(poly) && modelf == flatFlam
      ensures r.None? <==> LineGrid(grid).None? || |LineGrid(grid).value.1| == 0
      ensures r.None? ==> beamModel == flatFlam
      ensures r.Some? ==> LineFitted(r.value, grid, p, solver, profile)
      ensures r.Some? ==> beamModel == LineModel(render, LineGrid(grid).value.0, profile, r.value.bestCenter)
    {
      beamModel := flatFlam;
      modelf := beamModel;
      r := LineSearch(grid, p, solver, profile);
      if r.Some? {
        beamModel := LineModel(render, LineGrid(grid).value.0, profile, r.value.bestCenter);
      }
    }

    /** The fits of `simple_line_fit` over the line grid, on the pixels where
        the flat-spectrum model is bright. */
    method LineSearch(grid: (real, real, real, int), p: int, solver: Solver, profile: (real, seq<real>) -> seq<real>)
      returns (r: Option<LineFit>)
      requires Inputs() && Solves(solver) && cols >= 2
      ensures r.None? <==> LineGrid(grid).None? || |LineGrid(grid).value.1| == 0
      ensures r.Some? ==> LineFitted(r.value, grid, p, solver, profile)
    {
      var ok := FitPixels(mask, ivar, flatFlam, 0.03 * MaxOf(flatFlam));
      var base := PolyColumns(Abscissa(|sci|, cols, (cols / 2) as real), flatFlam, p);
      var lines := LineGrid(grid);
      if lines.None? {
        return None;
      }
      var waves, centers := lines.value.0, lines.value.1;
      var coeffs, chi2 := LineTrials(base, waves, centers, ok, Data(), solver, profile);
      if |centers| == 0 {
        return None;
      }
      assert base == LineBase(p) && ok == OkData();
      var ix := ArgMin(chi2);
      var design := base + [LineModel(render, waves, profile, centers[ix])];
      var best := coeffs[ix];
      assert (best, chi2[ix]) == LineTrial(design, ok, scif, ivar, solver);
      assert |best| == Terms(p) + 1;
      r := Some(LineFit(centers, coeffs, chi2, ok, Dot(design, best, |sci|), Dot(design, ZeroLast(best), |sci|),
                        centers[ix], LineFlux(best[|best| - 1], totalFlux)));
    }

    /** At the best centre the line has the least chi-squared of all
        centres, and the best model is the continuum-only model plus the
        line's coefficient times the line's model. */
    lemma BestLine(rf: LineFit, grid: (real, real, real, int), p: int, solver: Solver, profile: (real, seq<real>) -> seq<real>)
      requires Inputs() && cols >= 2 && Solves(solver) && LineFitted(rf, grid, p, solver, profile)
      ensures var ix := ArgMin(rf.chi2);
        && (forall k :: 0 <= k < |rf.chi2| ==> rf.chi2[ix] <= rf.chi2[k])
        && rf.bestCenter == rf.centers[ix]
        && LineSplit(rf.bestModel, rf.bestModelCont, rf.coeffs[ix][Terms(p)],
                     LineModel(render, LineGrid(grid).value.0, profile, rf.bestCenter))
    {
      var ix := ArgMin(rf.chi2);
      var design := LineBase(p) + [LineModel(render, LineGrid(grid).value.0, profile, rf.centers[ix])];
      ZeroLastSplit(design, rf.coeffs[ix], |sci|);
    }
  }
}
