# Gamut compression kernel, modelled in Dafny

This project models the `GamutCompression` pixel kernel (`GamutCompress.cpp`),
a Nuke Blink kernel that pulls out-of-gamut RGB values back toward the gamut
boundary with a rational ("Reinhard") curve. It can also run in reverse to
expand them again. The kernel has three parts:

- **init()** derives two per-pass locals. The protected threshold is
  `thr = 1 - threshold`. The per-channel limit is `lim = headroom + 1`, for
  the cyan, magenta and yellow headrooms.
- **compress(dist, lim)** is the identity below `thr`. From `thr` on, it
  applies the forward curve `thr + 1/(1/(dist-thr) + 1/(1-thr) - 1/(lim-thr))`
  or, with `invert`, the inverse curve `thr + 1/(1/(dist-thr) - 1/(1-thr) + 1/(lim-thr))`.
- **process()** works on one pixel. It takes the achromatic anchor
  `ach = max(r, g, b)`. It measures each channel's distance `|c - ach| / ach`
  (0 when `ach == 0`) and compresses that distance with the channel's limit.
  It rebuilds the channel as `ach - cdist*ach` and copies alpha unchanged.

The model is written over `real`. The per-pass context is an immutable
`Context` value built by `Init`; `Compress`, `Channel` and `Process` are pure
functions. Where the kernel's float arithmetic would produce an infinity,
the model returns `None` for that channel. This happens only in the inverse
direction, when the inverse curve's denominator is exactly zero.

Files:

- `gamut_compress.dfy` (module `GamutCompress`): the data types, `Init`,
  `Compress`, `Anchor`, `Distance`, `Rebuild`, `Channel` and `Process`.
- `curve_properties.dfy` (module `CurveProperties`): the curve's closed form
  and its properties. Writing `u = dist - thr` and
  `k = 1/(1-thr) - 1/(lim-thr)`, the forward curve is `thr + u/(1 + k*u)` and
  the inverse curve is `thr + u/(1 - k*u)`. Here `k >= 0`, `k = 0` exactly
  at headroom 0, and `thr + 1/k` is the forward curve's asymptote.
- `pixel_properties.dfy` (module `PixelProperties`): properties of `Init` and
  of the per-pixel transform.
- `real_algebra.dfy` (module `RealAlgebra`): small facts about reciprocals and
  products of reals.

Choices where the code leaves a case open:

- **`dist == thr`.** The test at line 30 is `dist < thr`, so this point takes
  the curve branch. There the kernel evaluates `1/(dist - thr) = 1/0`. In
  IEEE arithmetic that is an infinity, whose reciprocal is 0, so the result
  is `thr` in both directions. The model defines the point as `thr`.
- **Definedness.** `WellFormed(ctx)` requires `thr < 1` and every `lim >= 1`,
  i.e. threshold > 0 and no negative headroom. The kernel does not guard
  these. `thr = 1` (threshold 0) divides by zero in `1/(1-thr)`, and
  `lim < 1` can make the forward denominator vanish.
  `PixelProperties.InitWellFormed` states exactly which parameters give a
  well-formed context. A threshold of 0 is a value a user can set, but the
  code divides by zero there, so the model excludes it.
- **Distance.** The distance is taken with `fabs`, as in the code.
  `ach` is the maximum, so `|c - ach| = ach - c`, and `Distance` states that
  rebuilding from it gives the channel back.
- **Inverse past the asymptote.** The forward curve never reaches
  `thr + 1/k`, so the inverse is only a true inverse below that value. Beyond
  it, line 36's denominator is negative, and the kernel returns a finite
  value below `thr`. The inverse transfer function therefore jumps at the
  asymptote and is not monotone there. The model keeps this behaviour of the
  code. `CurveProperties.InverseIncreasing` covers the forward curve's range,
  where the inverse undoes the forward curve, and
  `CurveProperties.InverseBeyondAsymptote` covers the part beyond it. `PixelProperties.ExampleExpansionPastAsymptote` gives a pixel
  whose expanded channel ends up above the anchor.

## Model

| member | source | states |
|---|---|---|
| `GamutCompress.Init` | GamutCompress.cpp:17-24 | `thr` is the complement of `threshold`; each channel's `lim` is its headroom plus one; the direction flag is carried over |
| `PixelProperties.InitWellFormed` | GamutCompress.cpp:17-24 | the context is well-formed exactly when threshold > 0 and no headroom is negative; `thr >= 0` exactly when threshold <= 1 |
| `GamutCompress.Compress` | GamutCompress.cpp:28-40 | the forward direction always gives a finite value, and that value is above `thr` exactly when the input distance is |
| `CurveProperties.ForwardClosedForm` | GamutCompress.cpp:34 | past `thr` the forward curve equals `thr + u/(1 + k*u)` |
| `CurveProperties.InverseClosedForm` | GamutCompress.cpp:36 | past `thr` the inverse curve equals `thr + u/(1 - k*u)`, and it is non-finite exactly where `k*u == 1` |
| `CurveProperties.CompressFixedPoints` | GamutCompress.cpp:30-37 | in either direction a distance is returned unchanged exactly when `dist <= thr` or `lim == 1` (headroom 0 is a no-op) |
| `CurveProperties.ForwardBounds` | GamutCompress.cpp:34 | for `dist > thr`: `thr < compress(dist) <= dist`, so a distance is never pushed outward, and the result stays below the asymptote `thr + 1/k` |
| `CurveProperties.ForwardLimitToBoundary` | GamutCompress.cpp:21-34 | the forward curve maps `dist == lim` exactly to 1, the gamut boundary |
| `CurveProperties.ForwardIncreasing` | GamutCompress.cpp:30-34 | the forward transfer function, identity region included, is strictly increasing |
| `CurveProperties.ForwardWithinBoundary` | GamutCompress.cpp:21-34 | the forward result is at most 1 (inside the gamut) exactly when `dist <= lim` |
| `CurveProperties.RoundTrip` | GamutCompress.cpp:30-37 | for every distance, the inverse of the forward result is finite and equals the original distance |
| `CurveProperties.ForwardRange` | GamutCompress.cpp:30-34 | a value is produced by the forward curve exactly when it is `<= thr` or below the asymptote |
| `CurveProperties.InverseRoundTrip` | GamutCompress.cpp:30-37 | for every value in the forward curve's range, the inverse is finite and the forward curve maps it back |
| `CurveProperties.InverseIncreasing` | GamutCompress.cpp:30-36 | over the forward curve's range, identity region included, the inverse is finite and strictly increasing |
| `CurveProperties.InverseBeyondAsymptote` | GamutCompress.cpp:36 | past the asymptote (`k*(dist-thr) > 1`) the inverse is finite but falls below `thr` |
| `GamutCompress.Anchor` | GamutCompress.cpp:47 | the anchor is at least every channel and equals one of them |
| `GamutCompress.Distance` | GamutCompress.cpp:50 | 0 for a zero anchor; it has the anchor's sign; for a channel at or below a non-zero anchor, rebuilding gives the channel back |
| `PixelProperties.DistanceOfRebuilt` | GamutCompress.cpp:50-60 | rebuilding a channel from a distance of the anchor's sign and measuring it again gives the same distance, and the rebuilt channel is at most the anchor |
| `PixelProperties.RebuildInjective` | GamutCompress.cpp:60 | with a non-zero anchor, two distances rebuild the same channel exactly when they are equal |
| `GamutCompress.Rebuild` | GamutCompress.cpp:60 | the rebuilt channel lies `cdist` anchors from the anchor; for a positive anchor it is at or below the anchor exactly when `cdist >= 0` |
| `GamutCompress.Channel` | GamutCompress.cpp:50-60 | the forward direction always gives a finite channel; a zero anchor rebuilds every finite channel as 0 |
| `GamutCompress.Process` | GamutCompress.cpp:42-64 | alpha is copied; the forward direction gives finite colour channels |
| `PixelProperties.ChannelPassThrough` | GamutCompress.cpp:50-60 | with a non-zero anchor, a channel comes out equal to its input exactly when its distance is `<= thr` or its headroom is 0 |
| `PixelProperties.AnchorChannelUnchanged` | GamutCompress.cpp:47-60 | when `thr >= 0`, the channel that is the anchor (distance 0) comes out unchanged |
| `PixelProperties.ProcessPassThrough` | GamutCompress.cpp:42-64 | with a non-zero anchor, a pixel comes out unchanged exactly when every channel is in the protected zone or has zero headroom |
| `PixelProperties.ZeroHeadroomIsNoOp` | GamutCompress.cpp:21-23 | with all headrooms 0, every pixel with a non-zero anchor passes through unchanged, in both directions |
| `PixelProperties.AchromaticUnchanged` | GamutCompress.cpp:47-63 | when `thr >= 0`, an achromatic pixel (r = g = b) comes out unchanged, alpha included |
| `PixelProperties.ZeroDistanceFinite` | GamutCompress.cpp:30-37 | on every well-formed context, in both directions, distance 0 has a finite image, even when `thr < 0` puts it on the curve |
| `PixelProperties.ZeroAnchorIsBlack` | GamutCompress.cpp:50-63 | a pixel whose largest channel is 0 comes out as (0, 0, 0) with its alpha, even if some channels were negative |
| `PixelProperties.ForwardDistanceSign` | GamutCompress.cpp:30-34 | when `thr >= 0`, the forward curve keeps a distance's sign |
| `PixelProperties.ForwardChannelBounds` | GamutCompress.cpp:52-60 | when `thr >= 0` and for a channel at or below a positive anchor, forward compression moves a channel toward the anchor without passing it (`c <= out <= ach`), and the result is non-negative exactly when the distance is at most `lim` |
| `PixelProperties.ChannelRoundTrip` | GamutCompress.cpp:50-60 | when `thr >= 0`, with a non-zero anchor and a channel at or below it, expanding a compressed channel with the same anchor restores it exactly |
| `PixelProperties.ProcessRoundTrip` | GamutCompress.cpp:42-64 | when `thr >= 0`, running the inverse kernel on the forward kernel's output restores every pixel with a non-zero anchor, alpha included |
| `PixelProperties.ExamplePixelInsideProtectedZone` | GamutCompress.cpp:42-64 | threshold 0.2, headroom 0.2: (1.5, 0.5, 0.5, 1) has distances (0, 2/3, 2/3), all below `thr = 0.8`, and comes out unchanged |
| `PixelProperties.ExamplePixelCompressed` | GamutCompress.cpp:42-64 | threshold 0.2, headroom 0.2: (1, 0, 0.1, 1) comes out as (1, 1/15, 0.12, 1) |
| `PixelProperties.ExampleExpansionPastAsymptote` | GamutCompress.cpp:28-63 | inverse with threshold 0.2, headroom 0.2: distance 1.3 expands to -1.2, so in (1, -0.3, 1, 1) green comes out as 2.2, above the anchor |

## Left out

- Blink image access is not modelled: the `src`/`dst` images, edge-clamped
  addressing and the `ImageComputationKernel` framework. The model takes and
  returns plain pixel values.
- The per-pixel parallel execution is not modelled. Each pixel is an
  independent pure function of the pixel and the context.
- IEEE float rounding, NaN and signed infinities are not modelled. Arithmetic
  is exact over `real`, and a non-finite channel is represented only as
  `None`, without its sign or NaN-ness.
- Contexts with `thr >= 1` (threshold <= 0) or a limit below 1 (negative
  headroom) are excluded by `WellFormed`. For these the kernel divides by
  zero, or its forward denominator can vanish.
- The round trip does not cover a zero anchor. A pixel with `max(r,g,b) == 0`
  and a negative channel comes out black, so it cannot be restored;
  `ZeroAnchorIsBlack` states this.
- The logarithmic, exponential, arctangent and hyperbolic-tangent curves and
  the bisection limit calibrator are not part of this model. They are not in
  this kernel, which has only the rational curve with the closed-form
  `lim = headroom + 1`.
- The kernel-local fields `thr` and `lim`, which init() assigns once per
  pass, are modelled as the immutable `Context` value that `Init` returns.
  Nothing reads them before init() runs or changes them after.
