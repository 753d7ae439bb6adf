# grizli: dispersed-model core in Dafny

This project models the forward-modelling core of grizli's `grizli/model.py`, in exact arithmetic:

- **`GrismDisperser`**: one spectral order of one object:
  - builds the order's geometry: the trace, the wavelength and sensitivity curves, and a flat index into a padded beam buffer;
  - raytraces the object's direct-image thumbnail into that buffer (`compute_model`);
  - places the buffer into, or cuts it out of, a full detector frame.
- **`ImageData`**: one detector image (SCI/ERR/DQ/REF):
  - flags negative pixels in the data-quality image;
  - pads the image;
  - cuts a sub-image.
- **`unset_dq_bits`**: clears chosen data-quality bits.
- **`GrismFLT`**: one grism exposure:
  - has a contamination frame, `model`, and a registry, `object_dispersers`;
  - `compute_model_orders` locates an object and builds its bright-enough orders;
  - it then adds those orders to `model` and stores them, or refreshes orders already stored;
  - `compute_full_model` does this for every object.

  Every operation keeps the class invariant: `model` is an untracked part plus what each registered object contributed. The untracked part holds what `store=False` entries added and what an out-of-place refresh left behind. Only with no templates and nothing untracked is `model` the sum of the stored orders (`ModelIsSumOfOrders`).
- **`BeamCutout`**: fits one cut-out order:
  - the pixel masks and the inverse variance;
  - the cached polynomial design of `init_poly_coeffs`;
  - template fits at one redshift (`fit_at_z`);
  - the coarse-then-zoomed redshift search (`fit_redshift`);
  - the single-emission-line search (`simple_line_fit`).

Detector frames that are changed in place are `array2<real>`. The beam buffer `modelf` is a flat `array<real>`. Beam data that is only read is a rectangular `seq<seq<real>>`.

The outside numerics are function-valued parameters:
- the compiled raytracer;
- the segmentation-limits helper;
- the flux-conserving resampler;
- the trace solver of the configuration;
- the least-squares solver;
- the redshift-grid helpers and the peak counter;
- the redshifted templates and their rendering;
- the line profile;
- `log10`.

The contracts state what the model does in terms of those parameters.

## Model

| member | source | states |
|---|---|---|
| Common.Trunc | grizli/model.py:212 | truncation toward zero, as numpy's integer cast: the result is within one of `x` on the side of zero |
| Common.Ceil | grizli/model.py:1571 | the least integer not below `x` |
| Common.RoundHalfEven | grizli/model.py:1591 | numpy rounding: the nearest integer, with ties going to the even one |
| Common.ClipBound | grizli/model.py:1058-1060 | Python's clamping of a slice bound into `[0, n]`, counting negative bounds from the end |
| Common.SliceRange | grizli/model.py:1058-1060 | the index range a numpy slice selects always lies in `[0, n]`, and a forward in-range slice selects itself |
| Common.Reshape | grizli/model.py:237-238 | the row-major 2D view of the flat buffer: entry `(i, j)` is flat entry `i*cols + j` |
| Common.CountZeroIff | grizli/model.py:476 | `mask.sum() == 0` exactly when no entry is set |
| Common.MinOf | grizli/model.py:2571-2582 | the minimum of a non-empty sequence is a lower bound that is attained |
| Common.MaxOf | grizli/model.py:2084 | the maximum of a non-empty sequence is an upper bound that is attained |
| BeamGeometry.TraceRow | grizli/model.py:212 | `dyc = int(y+20)-20+1` equals `floor(y)+1` for every `y >= -20`, and below that exactly where `y` is an integer |
| BeamGeometry.TraceRowBelowBias | grizli/model.py:212 | below -20 the biased truncation and the floor disagree, e.g. at -20.5 |
| BeamGeometry.TraceFraction | grizli/model.py:215 | `yfrac = y - floor(y)` lies in `[0, 1)` and removing it leaves the floor |
| BeamGeometry.TraceFractions | grizli/model.py:215 | elementwise `yfrac_beam` over the whole trace |
| BeamGeometry.BeamOffsets | grizli/model.py:198-200 | `dx` is the configuration's offsets, or their `grow`-scaled `arange` when `grow > 1`; it is defined exactly when the order is configured and the range is non-empty |
| BeamGeometry.OffsetsAt | grizli/model.py:205 | the trace is evaluated at `(dx - 0.5)/grow`, as an exact quotient |
| BeamGeometry.Unscaled | grizli/model.py:203-204 | the trace anchor is at `(pixel + centre - pad)/grow`, as an exact quotient |
| BeamGeometry.ScaledTrace | grizli/model.py:202-208 | the solver's trace rows are multiplied by `grow` and its wavelengths are kept; defined exactly when the solver returns one value per offset |
| BeamGeometry.ArgSort | grizli/model.py:219 | `argsort` returns a permutation of the indices that orders the wavelengths |
| BeamGeometry.Permute | grizli/model.py:220 | `lam[so]`: position `k` holds `lam[so[k]]` |
| BeamGeometry.ScatterInto | grizli/model.py:220 | `ysens[so] = v`: each indexed position receives its value and the others keep theirs |
| BeamGeometry.ResampleSorted | grizli/model.py:218-222 | the resampled curve is defined exactly when the resampler returns one value per wavelength, and it lands back in the unsorted order |
| BeamGeometry.BinWidths | grizli/model.py:226-227 | `dl` is the absolute difference of neighbouring wavelengths, with the first width repeated |
| BeamGeometry.WidthScaled | grizli/model.py:228 | the sensitivity is multiplied by `1e-17 * dl` elementwise |
| BeamGeometry.SensitivityOn | grizli/model.py:218-230 | a computed sensitivity has one value per wavelength, from a sorting permutation of at least two wavelengths |
| BeamGeometry.WrapIndex | grizli/model.py:244-247 | numpy indexing of one axis: in range exactly for `-n <= i < n`, negative indices wrap, otherwise `IndexError` |
| BeamGeometry.FlatPosition | grizli/model.py:238-244 | `idx[row, col]` is defined exactly when both indices are in numpy range, and equals `row*cols + col` for non-negative indices |
| BeamGeometry.FlatIndices | grizli/model.py:241-247 | `flat_index` exists exactly when every trace pixel is indexable, and each entry is that pixel's flat position |
| BeamGeometry.FlatIndicesInRange | grizli/model.py:241-247 | every flat index found lies inside the beam buffer, at the trace pixel's position |
| BeamGeometry.FullAt | grizli/model.py:250-259 | one solver offset per buffer column, each `(k + dx[0] - x0[1] + xcenter - 0.5) / grow` |
| BeamGeometry.IntArange | grizli/model.py:250-251 | `np.arange(lo, hi)` for integers: `hi - lo` consecutive values from `lo` (none when `hi <= lo`) |
| BeamGeometry.Assemble | grizli/model.py:233-281 | the assembled geometry is well formed and trace-consistent, and it keeps the given shape, origin, offsets and curves |
| BeamGeometry.GeometryFromAnchors | grizli/model.py:241-273 | fails exactly when a trace pixel is outside the beam buffer, the full-width trace has the wrong length, or its sensitivity cannot be computed; otherwise the geometry is well formed and consistent, keeps shape, origin, offsets and the anchor curves, and its flat index, full-width trace and sensitivity are those lookups' results |
| BeamGeometry.GeometryFromOffsets | grizli/model.py:198-273 | fails exactly when the anchor trace has the wrong length, its sensitivity cannot be computed, or the anchors step fails; otherwise the geometry is well formed and consistent, its anchor trace and wavelengths are the scaled trace at `(dx - 0.5) / grow` from the unpadded, ungrown centre, and its sensitivity is computed on those wavelengths |
| BeamGeometry.MakeGeometry | grizli/model.py:75-283 | fails exactly when `BeamOffsets` fails or the offsets step fails; a geometry it builds is well formed and consistent, its offsets are `BeamOffsets`, and its anchor trace, wavelengths and sensitivity are those of the scaled trace from the thumbnail centre |
| Disperser.SegmentFluxEmpty | grizli/model.py:275 | `total_flux` is zero when no segmentation pixel carries the id |
| Disperser.FootprintOf | grizli/model.py:278-281 | the order's rectangle in the full frame is `sly_parent` by `slx_parent`, of the beam's shape |
| Disperser.BeamWeights | grizli/model.py:323-333 | without a spectrum, the weights are the sensitivity; with one, they are the sensitivity times the spectrum resampled in wavelength order (undefined when the resampler returns the wrong length) |
| Disperser.GrismDisperser.Init | grizli/model.py:236-283 | a new order keeps its inputs, has no template, has `total_flux` equal to the segment flux, and has a zeroed buffer |
| Disperser.GrismDisperser.Create | grizli/model.py:158-283 | the constructor fails exactly at the raise points `MakeGeometry` names; a missing segmentation image becomes zeros |
| Disperser.GrismDisperser.Model | grizli/model.py:237 | `model` is the beam-shaped view of `modelf` |
| Disperser.GrismDisperser.ComputeModel | grizli/model.py:285-364 | a given id replaces the stored one; it raises exactly when the spectrum cannot be resampled, and then nothing changes; in place, `modelf` becomes the raytraced flux (zero when a wrongly shaped thumbnail is refused after the clear) and the template is recorded; otherwise the flux is added into `outdata` or into a fresh zero buffer |
| Disperser.GrismDisperser.AddToFullImage | grizli/model.py:443-485 | `add_to_full_image` as written, including the `oky` test against the frame's width |
| Disperser.GrismDisperser.AddToFullImageClipped | grizli/model.py:443-485 | the intended placement: reports whether the order overlaps the frame, and adds exactly the overlapping beam pixels |
| Placement.ContainedFits | grizli/model.py:431-442 | an order that passes `contained_in_full_array` lies entirely inside the frame |
| Placement.ContainedRejectsExactFit | grizli/model.py:438-439 | the `stop >= sh` test sends an order that exactly fills the frame down the partial path |
| Placement.OkRange | grizli/model.py:473-474 | the `okx`/`oky` masks select one contiguous local range, which is exactly the axis indices that fall inside the frame |
| Placement.OverlapsIff | grizli/model.py:476-477 | both masks are non-empty exactly when some beam pixel falls in the frame |
| Placement.PlacedClipped | grizli/model.py:479-481 | clipping both axes adds, at each frame pixel, exactly the beam pixel that lands there |
| Placement.AsWrittenRows | grizli/model.py:474 | the number of rows the as-written mask selects (tested against the width), and numpy's clipped frame slice is never longer |
| Placement.AsWrittenDeltaAt | grizli/model.py:479-481 | the as-written partial add clips rows against the width |
| Placement.AddAsWrittenSquare | grizli/model.py:465-484 | on a square frame the as-written add never raises, and it adds exactly the overlap |
| Placement.AddAsWrittenLocal | grizli/model.py:479-481 | the as-written add changes nothing away from the order's rectangle |
| Placement.AddAsWrittenDropsTallRows | grizli/model.py:474-477 | a counterexample: an overlapping order on a tall frame is dropped |
| Placement.AddAsWrittenRaisesOnWideFrame | grizli/model.py:474-481 | a counterexample: an overlapping order on a wide frame makes numpy raise a broadcast error |
| Placement.AddPlaced | grizli/model.py:463 | adding an order to a frame adds its placed value at every pixel |
| Placement.AddPlacedCommutes | grizli/model.py:1656-1665 | the order in which orders are added does not change the frame |
| Placement.AddPlacedNegate | grizli/model.py:1660-1665 | adding `-model` and then `model` back restores the frame |
| Placement.Window | grizli/model.py:509 | the cutout window holds the frame's pixel where inside the frame, and zero elsewhere |
| Placement.Cutout | grizli/model.py:486-531 | the intended cutout: none exactly when there is no overlap, otherwise the window |
| Placement.CutoutAsWritten | grizli/model.py:486-531 | the cutout as written: the window when contained, and all zeros on the partial path |
| Placement.CutoutAsWrittenLosesData | grizli/model.py:528-529 | a counterexample: a partly outside order on a frame of ones comes back as zeros |
| Placement.CutoutAfterAdd | grizli/model.py:463-509 | a cutout after an add shows the added data inside the frame |
| Placement.AddBlockAsWritten | grizli/model.py:443-485 | the in-place as-written add: the outcome, and the new frame as old frame plus the as-written delta |
| Placement.AddPartialAsWritten | grizli/model.py:465-484 | the same for the partial path alone |
| Placement.AddBlockClipped | grizli/model.py:443-485 | the corrected in-place add: it reports overlap, and the new frame is the old one plus the placed order |
| Images.BadRow | grizli/model.py:785 | a pixel is bad exactly when `SCI < sigma * ERR` |
| Images.BadMask | grizli/model.py:785 | the bad mask, row by row |
| Images.CountRowsZeroIff | grizli/model.py:787 | `bad.sum()` is zero exactly when no pixel is bad |
| Images.GridMax | grizli/model.py:782 | `ERR.max()` of a non-empty image is an attained upper bound |
| Images.MaxUnique | grizli/model.py:782 | the maximum is unique |
| Images.ImageData.Init | grizli/model.py:604-744 | a new image keeps its arrays, shape, origin, pad, header and `photflam` |
| Images.ImageData.FlagNegative | grizli/model.py:767-787 | returns the number of bad pixels and or-s the flag value 4 into DQ on each of them, leaves DQ alone when `ERR` is all zero, and raises on an empty image |
| Images.ImageData.FlagBelow | grizli/model.py:785-786 | the flag value 4 is or-ed into DQ on the bad pixels, and every other bit and pixel is kept |
| Images.ImageData.AddPadding | grizli/model.py:804-841 | each array grows by `pad` on every side and is zero-padded around its old contents; NAXIS grows by `2*pad`, CRPIX by `pad`, and `pad` accumulates |
| Images.ImageData.PaddedArrays | grizli/model.py:808-819 | the padded copies of SCI, ERR, DQ and REF |
| Images.PadReal | grizli/model.py:816-818 | a zero-padded copy of a real array |
| Images.PadWord | grizli/model.py:816-818 | a zero-padded copy of a DQ array |
| Images.ImageData.GetSlice | grizli/model.py:993-1083 | raises exactly when a slice bound is out of the image; otherwise the new image holds the numpy windows, its origin is shifted, its NAXIS is `stop - start`, its CRPIX is shifted, and pad and `photflam` are kept |
| Images.ImageData.CutArrays | grizli/model.py:1058-1074 | the windows of SCI, ERR, DQ and REF |
| Images.Window | grizli/model.py:1058-1059 | a fresh window of a real array |
| Images.WindowWord | grizli/model.py:1060 | a fresh window of the DQ array |
| Images.Rescaled | grizli/model.py:1058 | dividing by `photflam` and multiplying back is the identity |
| Images.ForwardSliceSelects | grizli/model.py:1018-1027 | an in-range forward slice selects exactly its range, and NAXIS is its length |
| Images.NegativeStopMismatch | grizli/model.py:1019-1044 | a negative stop passes the range check, and numpy's array slice then disagrees with the written NAXIS |
| Images.ReversedSliceFits | grizli/model.py:1018-1027 | a reversed slice passes the range check and gives an empty image |
| DataQuality.SetFlag | grizli/model.py:786 | or-ing `2**i` into a word gives exactly the bits of the word plus bit `i` |
| DataQuality.UnsetKeepsOthers | grizli/model.py:3335-3351 | after `unset_dq_bits`, a bit is set exactly when it was set and is not one of `okbits` |
| DataQuality.UnsetIdempotent | grizli/model.py:3335-3351 | unsetting the same bits twice is the same as unsetting them once |
| DataQuality.ClearNextDigit | grizli/model.py:3344-3349 | each loop step `dq -= dq & 2**i` clears that one digit and nothing else |
| DataQuality.ClearedAll | grizli/model.py:3342-3351 | running the loop over all digits of `okbits` gives the bitwise `dq & ~okbits` |
| DataQuality.UnsetDqBits | grizli/model.py:3335-3351 | every DQ pixel ends holding the old value with the bits of `okbits` cleared |
| DataQuality.AsInt16 | grizli/model.py:643 | the signed 16-bit reading of a DQ word: negative exactly when bit 15 is set, and equal to the word minus 65536 then |
| Locate.OffImageDiffers | grizli/model.py:1563-1566 | the written edge test misses only the `ymin == 0` case |
| Locate.OffImageAsWrittenKeepsBottomEdge | grizli/model.py:1563-1567 | a counterexample: an object on the bottom edge passes the written test |
| Locate.Max4 | grizli/model.py:1571-1572 | the attained maximum of the four distances |
| Locate.HalfSizeBounds | grizli/model.py:1569-1585 | the half size is at most `x-2` and `y-2`, reaches one of those bounds or else covers every distance plus 4 with a minimum of 26 |
| Locate.Centre | grizli/model.py:1590-1597 | rounding the centre leaves a sub-pixel offset in `[-0.5, 0.5]`, and the offset and pixel rebuild the coordinate |
| Locate.SubGrid | grizli/model.py:1602-1603 | a 2D numpy slice of a grid: its shape and contents after clamping |
| Locate.SubGridInside | grizli/model.py:1602-1603 | when the box lies inside the image the thumbnail is exactly that square |
| Locate.ThumbnailAt | grizli/model.py:1590-1603 | the thumbnail origin, sub-pixel centre, direct and segmentation cutouts |
| Locate.Aiming | grizli/model.py:1550-1585 | given x, y and size it aims there directly; otherwise an empty or non-finite segment is missing, an object off the image is skipped, and a computed half size below 4 is skipped |
| Locate.LocateObject | grizli/model.py:1530-1611 | an id absent from the catalogue is missing; a located object uses the catalogue's centre (0-based) or the measured one, and its segmentation thumbnail is not empty |
| Locate.Flatten | grizli/model.py:1692 | the values in a flattened grid are exactly those of the grid |
| Locate.InsertSorted | grizli/model.py:1692 | insertion keeps the list strictly increasing and adds the value |
| Locate.Unique | grizli/model.py:1692 | `np.unique`: strictly increasing, holding the same values |
| Locate.DefaultIdsContents | grizli/model.py:1691-1692 | `np.unique(seg)[1:]` is every label of the image except the smallest |
| Locate.DefaultIdsAreObjects | grizli/model.py:1691-1692 | with background 0 and no negative labels, the default ids are exactly the positive labels |
| Locate.DefaultIdsDropSmallestObject | grizli/model.py:1691-1692 | a counterexample: with no background pixel the smallest object is dropped |
| Locate.Put | grizli/model.py:1630 | dictionary assignment replaces an existing key's value in place or appends a new key, and keeps every other key |
| Registry.PlacedNegate | grizli/model.py:1660-1661 | placing the negated model subtracts what placing the model adds |
| Registry.ProcessBeam | grizli/model.py:1656-1665 | one order is recomputed (or raises exactly when its template cannot be resampled), and the frame loses its old model and gains its new one |
| Registry.ProcessNext | grizli/model.py:1656-1665 | the loop step over orders keeps the running frame equal to start minus old plus new models so far |
| Registry.ProcessBeams | grizli/model.py:1656-1665 | the loop raises exactly when some order cannot be resampled; otherwise the frame changes by the new total minus, when subtracting, the old total |
| Registry.PutShape | grizli/model.py:1630 | the keys after an assignment are the old keys plus, when new, the key at the end |
| Registry.BeamOrder | grizli/model.py:1614-1630 | the order keys of `beams` are no more than the configured orders |
| Registry.BeamOrderContents | grizli/model.py:1614-1630 | the keys are distinct and are exactly the configured orders that are bright enough and build |
| Registry.AnyFailsSome | grizli/model.py:1620-1634 | the loop raises exactly when some order has no magnitude limit or cannot resample a prior template |
| Registry.AnyFailsPrefix | grizli/model.py:1620-1634 | a failure among the first orders is a failure of the loop |
| Registry.BuildBeam | grizli/model.py:1620-1634 | one order raises exactly when it fails; otherwise it is built exactly when admitted, fresh, valid and primed with any prior template |
| Registry.Stepped | grizli/model.py:1630 | an order that is not built leaves the dictionary as it was |
| Registry.PutBuilt | grizli/model.py:1630 | storing a built order extends the built-so-far invariant by one name |
| Registry.Insert | grizli/model.py:1614-1634 | one loop step of the build keeps the built-so-far and primed invariants |
| Registry.BuildNext | grizli/model.py:1614-1634 | one pass of the build loop: it raises only on a failure, and keeps earlier orders and adds fresh ones |
| Registry.BuildBeams | grizli/model.py:1614-1634 | the build raises exactly on a failure; otherwise it has the keys `BeamOrder`, and its orders are fresh, valid, built from the thumbnail and primed |
| Flt.ZerosLike | grizli/model.py:1652 | `np.zeros_like(model)`: a fresh zero frame of the model's shape |
| Flt.DetachedOrders | grizli/model.py:1650-1670 | out of place: a fresh frame holding the sum of the recomputed orders, raising exactly when an order cannot be resampled |
| Flt.GrismFLT.constructor | grizli/model.py:1272-1281 | a new exposure has a zero `model` and an empty registry, and holds the invariant |
| Flt.GrismFLT.Direct | grizli/model.py:1530-1533 | the thumbnails come from REF when it exists, else from SCI |
| Flt.GrismFLT.OwnedBy | grizli/model.py:1639-1645 | the registered orders and their buffers are owned by the id stored |
| Flt.GrismFLT.RefreshStored | grizli/model.py:1523-1670 | for a stored object: in place, `model` trades the object's old contribution for the new one; otherwise a fresh frame receives it; no other object's orders change, and the invariant holds unless it raised |
| Flt.GrismFLT.RefreshInPlace | grizli/model.py:1656-1667 | the in-place refresh of a stored object |
| Flt.GrismFLT.RefreshDetached | grizli/model.py:1647-1670 | the out-of-place refresh of a stored object |
| Flt.GrismFLT.InPlaceValid | grizli/model.py:1656-1665 | trading an object's contribution in `model` keeps the invariant |
| Flt.GrismFLT.DetachedValid | grizli/model.py:1647-1670 | refreshing orders out of place keeps the invariant, with the untracked part absorbing the change |
| Flt.GrismFLT.PlaceNew | grizli/model.py:1639-1665 | a new object is registered at the end of the order, and `model` gains exactly its orders' sum; the invariant holds unless it raised |
| Flt.GrismFLT.Append | grizli/model.py:1639-1665 | the registry transaction for a new object |
| Flt.GrismFLT.AppendedValid | grizli/model.py:1639-1665 | appending a new object's contribution keeps the invariant |
| Flt.GrismFLT.PlaceOverTemplate | grizli/model.py:1631-1665 | for an object registered only with a template, the new orders take its place in the registry, and `model` gains their new sum less their old |
| Flt.GrismFLT.Replace | grizli/model.py:1631-1665 | the registry transaction for such an object |
| Flt.GrismFLT.ReplacedValid | grizli/model.py:1631-1665 | replacing a template entry keeps the invariant |
| Flt.GrismFLT.BuildAndPlace | grizli/model.py:1613-1670 | for an object not stored: raises on any failing order and changes nothing then; with `get_beams` it only returns the orders; otherwise it places them |
| Flt.GrismFLT.PlaceBuilt | grizli/model.py:1639-1670 | orders just built go out of place into a fresh frame, or into `model` and the registry |
| Flt.GrismFLT.ComputeModelOrders | grizli/model.py:1459-1670 | a stored object is refreshed as in `RefreshStored`; a missing, off-edge or unsized object changes nothing; a located one is built and placed as in `BuildAndPlace`; unless it raised the invariant holds, and with `store` no template appears |
| Flt.GrismFLT.TotalIsOrdersSum | grizli/model.py:1639-1665 | without templates, the registered contributions are what the stored orders hold |
| Flt.GrismFLT.ModelIsSumOfOrders | grizli/model.py:1639-1665 | the key invariant: without templates and nothing untracked, each `model` pixel is the sum over registered objects of their stored orders |
| Flt.GrismFLT.MeasureMags | grizli/model.py:1696-1704 | one magnitude per id, `ABZP - 2.5 log10(flux)`, raising when there is no REF image to measure on |
| Flt.GrismFLT.FullMags | grizli/model.py:1696-1711 | the magnitudes are missing exactly when the lists' lengths differ or there is no image to measure on; otherwise one per id, a scalar repeated, or the given list |
| Flt.GrismFLT.ComputeFullModel | grizli/model.py:1672-1718 | a magnitude list whose length differs from that of the ids, or a missing REF when measuring, raises before anything changes; unless it raised, the invariant holds, the registry grew only by the ids (the given ones, else the segmentation's labels), and each id was computed with its magnitude from `FullMags`; with `store` no template appears |
| Flt.GrismFLT.ComputeEach | grizli/model.py:1713-1718 | unless a call raised, the invariant holds, only the listed ids were added, stored orders stay stored, every locatable id is registered, and an id newly stored keeps the orders bright enough at its own magnitude (without `store`, its flat template) |
| Flt.GrismFLT.StepKeeps | grizli/model.py:1713-1718 | one more call keeps everything the loop recorded about earlier ids and records the new one |
| Flt.GrismFLT.ComputeOne | grizli/model.py:1717-1718 | `compute_model_orders(id, compute_size=True, mag, in_place=True, store)`: the outcome of `ComputeModelOrders` for these arguments, and its effect on the registry as one `Step` |
| Coefficients.Scatter | grizli/model.py:2504 | `out[ok] = v` has one entry per flag |
| Coefficients.Gather | grizli/model.py:2494 | `x[ok]` has one entry per set flag |
| Coefficients.ScatterPlaces | grizli/model.py:2504 | an unset position of `out[ok] = v` is zero, and a set one holds the next unused entry of `v` |
| Coefficients.GatherPlaces | grizli/model.py:2494 | a set position's value appears in `x[ok]` at its rank among the set flags |
| Coefficients.GatherScatter | grizli/model.py:2494-2504 | gathering after scattering returns the solved coefficients |
| Coefficients.ScatterGather | grizli/model.py:2494-2504 | scattering after gathering returns a vector that is zero off the mask |
| Coefficients.Dot | grizli/model.py:2505 | `np.dot(A, coeffs)`: each pixel is the coefficient-weighted sum of the columns |
| Coefficients.CombineScatter | grizli/model.py:2504-2505 | the model from the scattered coefficients on all columns equals the solved coefficients on the kept columns |
| Coefficients.Keep | grizli/model.py:2622 | `coeffs*mask` zeroes the unmasked coefficients |
| Coefficients.Invert | grizli/model.py:2617-2620 | the complementary mask |
| Coefficients.CombineSplit | grizli/model.py:2622 | the continuum model plus the line model is the full model |
| Coefficients.Chi2Bounds | grizli/model.py:2508 | chi-squared is non-negative, and zero when the model matches the data on the mask |
| Coefficients.ArgMin | grizli/model.py:2915 | `np.argmin` gives the first position of the minimum |
| Coefficients.Insert | grizli/model.py:2603-2606 | insertion into a list sorted by redshift keeps it sorted and adds exactly the point |
| Coefficients.SortByZ | grizli/model.py:2603-2606 | the merged grid sorted by redshift is a permutation of its input |
| Coefficients.MergeGrids | grizli/model.py:2599-2606 | the merged grid is sorted by redshift and holds exactly the coarse and zoomed points |
| Coefficients.BestPoint | grizli/model.py:2610 | the best point is a merged point with the least chi-squared |
| Coefficients.MergedNoWorse | grizli/model.py:2599-2610 | the merged best is no worse than the coarse best or any zoomed point, and it comes from one of the grids |
| Coefficients.BestOfAnyOrder | grizli/model.py:2603-2610 | sorting does not change the least chi-squared |
| Coefficients.ZoomThreshold | grizli/model.py:2571-2582 | the threshold is 0.01 exactly when there are fewer than five peaks and the chi-squared range exceeds 1% of the degrees of freedom, else 0.001 |
| Coefficients.ContinuumMask | grizli/model.py:2617-2620 | the continuum mask keeps the polynomial terms and every template that is not a line |
| Coefficients.ZeroLast | grizli/model.py:2922-2923 | the coefficients with the line's zeroed and the rest kept |
| Coefficients.ContinuumPlusLine | grizli/model.py:2918-2925 | the best model is the continuum model plus the line coefficient times the line column |
| Coefficients.RealArange | grizli/model.py:2881 | `np.arange(start, stop, step)`: `ceil((stop-start)/step)` evenly spaced values, and an error for a zero step |
| Coefficients.RealArangeWithin | grizli/model.py:2881 | with a positive step every value lies in `[start, stop)` |
| Coefficients.StepFrom | grizli/model.py:2882 | a strided slice is empty exactly when the start is out of range |
| Coefficients.StepFromAt | grizli/model.py:2882 | the `m`-th entry of `s[i::step]` is `s[i + m*step]` |
| Coefficients.StepSlice | grizli/model.py:2882 | `s[start::step]` raises for a zero step and is the strided run for a positive one |
| Coefficients.LineCentersSelect | grizli/model.py:2882 | `waves[skip/2::skip]` has every `skip`-th wavelength from `skip/2` at its place |
| Cutout.BadPixels | grizli/model.py:2068-2070 | a pixel is masked exactly when DQ is set, or ERR or SCI is zero |
| Cutout.InverseVariance | grizli/model.py:2072-2073 | the inverse variance is non-negative, and zero exactly on masked or zero-error pixels |
| Cutout.FitPixels | grizli/model.py:2083-2084 | a pixel is fitted exactly when it is unmasked, weighted and above the floor |
| Cutout.LargeResiduals | grizli/model.py:2092-2093 | one residual flag per pixel |
| Cutout.FitMask | grizli/model.py:2083-2094 | every fitted pixel is unmasked, weighted and above 1% of the flat model's peak |
| Cutout.FitMaskSound | grizli/model.py:2072-2094 | a fitted pixel has a non-zero error and a positive inverse variance |
| Cutout.Subtract | grizli/model.py:2088 | `SCI - contam` pixel by pixel |
| Cutout.BeamCutout.constructor | grizli/model.py:2036-2101 | a new cutout keeps its arrays, takes the order's model as `modelf`, and has no polynomial cache |
| Cutout.Abscissa | grizli/model.py:2358-2361 | `xpf` is the pixel column centred on the middle and divided by `NX/2` |
| Cutout.PolyColumns | grizli/model.py:2364-2372 | polynomial column `o` is `xpf**o` times the flat model |
| Cutout.PolyTemplate | grizli/model.py:2375-2377 | one polynomial row per term over the columns |
| Cutout.PolyDesign | grizli/model.py:2364-2372 | the design is the polynomial columns, after a column of ones when fitting a background |
| Cutout.PolyCacheFor | grizli/model.py:2348-2380 | the cache holds the order, the column counts, the design and `DoF = fit_mask.sum()` |
| Cutout.BeamCutout.InitPolyCoeffs | grizli/model.py:2348-2380 | a cache for the same order is left alone; otherwise it is rebuilt for that order |
| Cutout.Restrict | grizli/model.py:2494 | the design restricted to the fitted pixels keeps its column count |
| Cutout.KeptColumns | grizli/model.py:2494 | the kept columns are `A[:, ok_temp]` |
| Cutout.TemplateColumn | grizli/model.py:2462-2487 | a template that misses the order's wavelengths gives the flat model and is unusable; otherwise its rendered model, usable unless its fitted peak is faint; undefined exactly where the source raises |
| Cutout.TemplateColumns | grizli/model.py:2460-2487 | one column and one usable flag per template |
| Cutout.TemplateColumnsRaise | grizli/model.py:2460-2487 | the template loop raises exactly when some template's column does |
| Cutout.TemplateColumnsAt | grizli/model.py:2460-2487 | column `i` and flag `i` are template `i`'s |
| Cutout.TemplateDesign | grizli/model.py:2458-2487 | the loop builds the template columns and flags after the polynomial ones |
| Cutout.Solve | grizli/model.py:2493-2502 | the solver gives one coefficient per kept column |
| Cutout.FitWith | grizli/model.py:2489-2508 | one coefficient per column, and the model is the design times the coefficients |
| Cutout.FitWithCoefficients | grizli/model.py:2490-2504 | unusable columns get a zero coefficient, and usable ones get their solved value |
| Cutout.FitWithModel | grizli/model.py:2504-2508 | the model is the solved coefficients on the kept columns, and chi-squared is non-negative |
| Cutout.FitTemplates | grizli/model.py:2448-2510 | the fit at one redshift exists exactly when the template loop does not raise, with one coefficient per column |
| Cutout.FitTemplatesCoefficients | grizli/model.py:2456-2504 | the polynomial and usable template coefficients are solved, and unusable ones are zero |
| Cutout.FitTemplatesModel | grizli/model.py:2504-2508 | the fitted model uses only the kept columns, and chi-squared is non-negative |
| Cutout.FitTemplatesUnusable | grizli/model.py:2483-2504 | an unusable template's coefficient is zero |
| Cutout.MissedTemplate | grizli/model.py:2467-2473 | a template outside the order's wavelengths gets the flat model as its column and a zero coefficient |
| Cutout.FaintTemplate | grizli/model.py:2483-2487 | a template whose fitted peak is faint keeps its column and gets a zero coefficient |
| Cutout.BeamCutout.FitAt | grizli/model.py:2448-2510 | a fit from the cache has one coefficient per polynomial and template term, and one model value per pixel |
| Cutout.BeamCutout.FitCached | grizli/model.py:2462-2510 | `fit_at_z` once the cache holds the order |
| Cutout.BeamCutout.FitAtZ | grizli/model.py:2448-2510 | the cache is initialised for the order, with a background term, and the result is the fit at `z` |
| Cutout.FitsOver | grizli/model.py:2558-2565 | one fit per redshift of the grid |
| Cutout.FitsOverAt | grizli/model.py:2558-2565 | entry `i` of the grid is the redshift, chi-squared and coefficients of the fit there |
| Cutout.FitsNone | grizli/model.py:2558-2565 | a fit that raises anywhere on the grid makes the grid raise |
| Cutout.BeamCutout.FitGrid | grizli/model.py:2558-2565 | the coarse loop computes exactly `FitsOver` |
| Cutout.RedshiftRange | grizli/model.py:2535-2545 | the redshift range and steps are the given ones or the G102/G141 defaults, and fail for any other filter |
| Cutout.ContinuumModel | grizli/model.py:2617-2623 | one continuum value per pixel |
| Cutout.ContinuumSplit | grizli/model.py:2617-2623 | the continuum and the line models add up to the full model |
| Cutout.BeamCutout.Search | grizli/model.py:2553-2623 | the coarse grid, the zoomed grid at threshold 0.01 or 0.001, and their merge sorted by redshift; the best point is no worse than the coarse best; then the full fit there and its continuum |
| Cutout.BeamCutout.FitRedshift | grizli/model.py:2512-2664 | an unsupported filter without ranges fails, and a result comes from the logarithmic grid over the range, as in `Search` |
| Cutout.LineGrid | grizli/model.py:2881-2882 | the wavelengths are `arange(grid)` and the centres are every `grid[3]`-th of them from `grid[3]/2`; a zero step raises |
| Cutout.LineTrial | grizli/model.py:2899-2909 | one coefficient per column from the solver on the kept pixels, and a non-negative chi-squared |
| Cutout.LineTrials | grizli/model.py:2895-2909 | the loop fits the polynomial plus one line at each centre |
| Cutout.BeamCutout.OkData | grizli/model.py:2861-2862 | one flag per pixel |
| Cutout.BeamCutout.LineBase | grizli/model.py:2869-2878 | one polynomial column per term, built from `xpf` with `NX/2` integer division |
| Cutout.ZeroLastSplit | grizli/model.py:2918-2925 | the best model is the continuum model plus the line part |
| Cutout.BeamCutout.BestLine | grizli/model.py:2915-2928 | the best centre has the least chi-squared, and its model is the continuum plus the line |
| Cutout.BeamCutout.LineSearch | grizli/model.py:2861-2932 | the line search fails exactly for a bad grid or no centres, and otherwise returns the fit at every centre and the best one |
| Cutout.BeamCutout.SimpleLineFit | grizli/model.py:2795-2932 | the flat model becomes `modelf`, the fit is as in `LineSearch`, and the order's model is left at the best line |

## Left out

- FITS I/O, WCS and headers: `ImageData` keeps only the NAXIS and CRPIX keywords that `add_padding` and `get_slice` change. Header copies, photometric keywords and units are not modelled.
- The compiled helpers are function parameters, and the model does not say what they compute:
  - `disperse_grism_object` (the kernel);
  - `get_seg_limits`;
  - `interp_conserve_c`;
  - the trace solver of the configuration.
- Floating point: all arithmetic is exact `real`. NaN and infinity appear only as the `finite` flag of the segment limits, where the code tests for them.
- Images.ImageData.GetSlice: requires `photflam != 0`. The source divides SCI and ERR by `photflam` (grizli/model.py:1058), which with numpy gives infinities or NaN at zero.
- Plotting, `verbose` output and printing are left out, because they do not affect results.
- `OldGrismFLT` is not part of this model, except `unset_dq_bits`. `unset_dq`, which supplies the per-instrument bits, is not modelled.
- The unused `add` parameter of `compute_model_orders` and its `refine_maglim` handling are not modelled. `add` has no effect.
- BeamGeometry.ArgSort: the order of ties in `np.argsort` is not modelled; any sorting permutation is accepted.
- Cutout.BeamCutout.FitRedshift: it does not compute `model1d`, `cont1d` or `line_flux`, which are 1D products from further helpers.
- Cutout.BeamCutout.constructor: `contam_mask` is not modelled. The constructor also requires a non-empty cutout, because the source's `flat_flam.max()` raises on an empty one.
- Cutout.LargeResiduals: its contract states only the length of the mask. The model has no square root, so the test `abs(sci - flat) * sqrt(ivar) > 5` is written squared in the body.
- These are parameters:
  - `peakutils`, `log_zgrid` and `zoom_zgrid`;
  - template loading;
  - redshifting and rendering of templates;
  - the Gaussian line profile.
- Cutout.Solve: the `lstsq` and `sklearn` solvers are one `Solver` parameter that returns one coefficient per kept column.
- The 2D reshapes of fitted models are kept flat; `Common.Reshape` gives the 2D view.
- Cutout.BeamCutout.SimpleLineFit: requires `cols >= 2`. This is because `NX/2` is an integer division and the source divides by it: with one column it divides by zero.
- Cutout.BeamCutout.FitGrid: it requires a filled polynomial cache. `fit_redshift` fills it with its first `fit_at_z` call, before the loop.
- The unused `chi2min` of `simple_line_fit` is not modelled.
- Intermediate in-place states are not modelled. Within one numpy expression, only the state after the whole expression is stated.
- Flt.GrismFLT.ComputeModelOrders: it places orders with the corrected add (Disperser.GrismDisperser.AddToFullImageClipped), which agrees with the source's `add_to_full_image` only on square frames (Placement.AddAsWrittenSquare). It locates objects with the corrected edge test, so an object touching the bottom edge is skipped where the source keeps it. Both are in Findings.
- An out-of-place refresh of stored orders (`in_place=False`, grizli/model.py:1647-1667) recomputes the stored orders while `self.model` keeps their old contribution, so `model` is then out of step with the registry. The model records the difference as untracked.
- Flt.GrismFLT.ComputeEach: for an id whose orders were stored before the loop, it states only that they stay stored. Their refresh is stated per call by ComputeOne.
- Placement.Cutout and Placement.CutoutAsWritten return a value. On the contained path the source returns a numpy view of `full_array` (grizli/model.py:509), so writes to the cutout reach the frame. This aliasing is not modelled.
- Registry entries created with `store=False` hold only a template. What they added to `model` is tracked as the untracked part, not as orders.

## Findings

| source | as written | input that shows it | evidently intended | confidence | as-written member | corrected member |
|---|---|---|---|---|---|---|
| grizli/model.py:474 | `oky` bounds the row indices by `sh[1]`, the frame's width | an order at `Footprint(0, 0, 3, 1)` on a 2x4 frame raises a broadcast error. An order at `Footprint(2, 0, 2, 2)` on a 4x2 frame is dropped although it overlaps | rows bounded by `sh[0]` | not executed | Placement.AddBlockAsWritten | Placement.AddBlockClipped |
| grizli/model.py:528-529 | the partial cutout adds into `data[oky,:][:,okx]`, a boolean-indexed copy, so `data` stays zero | a 2x2 frame of ones with an order at `Footprint(0, 1, 2, 2)` is cut out as zeros | the window of the frame | not executed | Placement.CutoutAsWritten | Placement.Cutout |
| grizli/model.py:1563-1566 | the off-image test checks `xmin == 0` twice and never `ymin == 0` | segment limits with `ymin == 0` and every other bound inside a 100x100 image pass the test | also skip objects touching the bottom edge | not executed | Locate.OffImageAsWritten | Locate.Aiming |

The first finding is also shown by Placement.AddAsWrittenRaisesOnWideFrame and Placement.AddAsWrittenDropsTallRows.
- Disperser.GrismDisperser.AddToFullImage models the method as written.
- The registry uses the corrected add, Disperser.GrismDisperser.AddToFullImageClipped.

The second finding is shown by Placement.CutoutAsWrittenLosesData.

The third finding is shown by Locate.OffImageAsWrittenKeepsBottomEdge.
- Locate.OffImageDiffers states that the two tests differ only in `ymin == 0`.
- Locate.Aiming uses the corrected test.
