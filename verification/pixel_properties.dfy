/**
  Properties of the context set-up and of the per-pixel transform: which
  parameters give a usable context, which channels pass through unchanged,
  the zero anchor, forward compression pulling channels toward the anchor
  and into the gamut, and the pixel-level round trip.
*/
module PixelProperties {
  import opened RealAlgebra
  import opened GamutCompress
  import opened CurveProperties

  /** init() yields a context on which every curve evaluation is defined
      exactly when the threshold is positive and no headroom is negative. */
  lemma InitWellFormed(p: Params)
    ensures WellFormed(Init(p)) <==> 0.0 < p.threshold && 0.0 <= p.cyan && 0.0 <= p.magenta && 0.0 <= p.yellow
    ensures 0.0 <= Init(p).thr <==> p.threshold <= 1.0
  {
  }

  /** Rebuilding a channel from a distance of the anchor's sign and measuring
      its distance again gives that distance back. */
  lemma DistanceOfRebuilt(cdist: real, ach: real)
    requires ach != 0.0
    requires ach > 0.0 ==> cdist >= 0.0
    requires ach < 0.0 ==> cdist <= 0.0
    ensures Rebuild(ach, cdist) <= ach
    ensures Distance(Rebuild(ach, cdist), ach) == cdist
  {
    assert Rebuild(ach, cdist) - ach == -(cdist * ach);
    assert Abs(Rebuild(ach, cdist) - ach) == cdist * ach;
    assert cdist * ach / ach == cdist;
  }

  /** A channel passes through unchanged exactly when its distance lies in
      the protected zone or its headroom is zero. */
  lemma ChannelPassThrough(ctx: Context, c: real, ach: real, lim: real)
    requires ctx.thr < 1.0 <= lim && ach != 0.0 && c <= ach
    ensures Channel(ctx, c, ach, lim) == Some(c) <==> Distance(c, ach) <= ctx.thr || lim == 1.0
  {
    CompressFixedPoints(ctx, Distance(c, ach), lim);
    match Compress(ctx, Distance(c, ach), lim)
    case None =>
    case Some(cdist) => RebuildInjective(ach, cdist, Distance(c, ach));
  }

  /** With a non-zero anchor, distinct distances rebuild distinct channels. */
  lemma RebuildInjective(ach: real, x: real, y: real)
    requires ach != 0.0
    ensures Rebuild(ach, x) == Rebuild(ach, y) <==> x == y
  {
    if Rebuild(ach, x) == Rebuild(ach, y) {
      MulCancel(x, y, ach);
    }
  }

  /** The channel that is the anchor comes out unchanged. */
  lemma AnchorChannelUnchanged(ctx: Context, ach: real, lim: real)
    requires 0.0 <= ctx.thr < 1.0 <= lim
    ensures Channel(ctx, ach, ach, lim) == Some(ach)
  {
    assert Distance(ach, ach) == 0.0;
  }

  /** With a non-zero anchor, a pixel passes through unchanged exactly when
      every channel's distance lies in the protected zone or has zero
      headroom. */
  lemma ProcessPassThrough(ctx: Context, px: Rgba)
    requires WellFormed(ctx) && Anchor(px.r, px.g, px.b) != 0.0
    ensures var ach := Anchor(px.r, px.g, px.b);
      Process(ctx, px) == Output(Some(px.r), Some(px.g), Some(px.b), px.a) <==>
        && (Distance(px.r, ach) <= ctx.thr || ctx.limR == 1.0)
        && (Distance(px.g, ach) <= ctx.thr || ctx.limG == 1.0)
        && (Distance(px.b, ach) <= ctx.thr || ctx.limB == 1.0)
  {
    var ach := Anchor(px.r, px.g, px.b);
    ChannelPassThrough(ctx, px.r, ach, ctx.limR);
    ChannelPassThrough(ctx, px.g, ach, ctx.limG);
    ChannelPassThrough(ctx, px.b, ach, ctx.limB);
  }

  /** Zero headroom on every channel makes the kernel a no-op on every pixel
      with a non-zero anchor, in both directions. */
  lemma ZeroHeadroomIsNoOp(p: Params, px: Rgba)
    requires 0.0 < p.threshold && p.cyan == 0.0 && p.magenta == 0.0 && p.yellow == 0.0
    requires Anchor(px.r, px.g, px.b) != 0.0
    ensures Process(Init(p), px) == Output(Some(px.r), Some(px.g), Some(px.b), px.a)
  {
    ProcessPassThrough(Init(p), px);
  }

  /** An achromatic pixel passes through unchanged. */
  lemma AchromaticUnchanged(ctx: Context, px: Rgba)
    requires WellFormed(ctx) && 0.0 <= ctx.thr && px.r == px.g == px.b
    ensures Process(ctx, px) == Output(Some(px.r), Some(px.g), Some(px.b), px.a)
  {
    AnchorChannelUnchanged(ctx, px.r, ctx.limR);
    AnchorChannelUnchanged(ctx, px.r, ctx.limG);
    AnchorChannelUnchanged(ctx, px.r, ctx.limB);
  }

  /** A pixel whose largest channel is zero comes out black, whatever its
      negative channels were; alpha is kept. */
  lemma ZeroAnchorIsBlack(ctx: Context, px: Rgba)
    requires WellFormed(ctx)
    requires Anchor(px.r, px.g, px.b) == 0.0
    ensures Process(ctx, px) == Output(Some(0.0), Some(0.0), Some(0.0), px.a)
  {
    ZeroDistanceFinite(ctx, ctx.limR);
    ZeroDistanceFinite(ctx, ctx.limG);
    ZeroDistanceFinite(ctx, ctx.limB);
  }

  /** Distance 0 always has a finite image: for `thr < 0` it lies past the
      threshold but below the asymptote. */
  lemma ZeroDistanceFinite(ctx: Context, lim: real)
    requires ctx.thr < 1.0 <= lim
    ensures Compress(ctx, 0.0, lim).Some?
  {
    if ctx.thr < 0.0 {
      ZeroDistanceBelowAsymptote(ctx.thr, lim);
      InverseRoundTrip(ctx, 0.0, lim);
    }
  }

  /** For `thr < 0` the distance 0 lies below the asymptote `thr + 1/k`. */
  lemma ZeroDistanceBelowAsymptote(thr: real, lim: real)
    requires thr < 0.0 && 1.0 <= lim
    ensures BelowAsymptote(RollOff(thr, lim), 0.0 - thr)
  {
    SlopeBelowAsymptote(RollOff(thr, lim), thr);
  }

  /** Every slope below `1/(1 - thr)`, which bounds `RollOff`, keeps the
      distance 0 below the asymptote when `thr < 0`. */
  lemma SlopeBelowAsymptote(k: real, thr: real)
    requires thr < 0.0 && 0.0 <= k < 1.0 / (1.0 - thr)
    ensures BelowAsymptote(k, 0.0 - thr)
  {
    assert (1.0 / (1.0 - thr) - k) * (0.0 - thr) >= 0.0;
    assert 1.0 / (1.0 - thr) * (0.0 - thr) == 1.0 - 1.0 / (1.0 - thr);
    assert 0.0 < 1.0 / (1.0 - thr);
  }

  /** Rebuilding from a larger distance gives a smaller channel value. */
  lemma RebuildAntitone(ach: real, x: real, y: real)
    requires 0.0 < ach && x <= y
    ensures Rebuild(ach, y) <= Rebuild(ach, x)
  {
    MulMonotone(y, x, ach);
    assert Rebuild(ach, y) == ach - y * ach && Rebuild(ach, x) == ach - x * ach;
  }

  /** Rebuilding from a distance stays non-negative exactly up to distance 1,
      the gamut boundary. */
  lemma RebuildNonNegative(ach: real, x: real)
    requires 0.0 < ach
    ensures 0.0 <= Rebuild(ach, x) <==> x <= 1.0
  {
    if x <= 1.0 {
      MulMonotone(1.0, x, ach);
    } else {
      MulMonotone(x, 1.0, ach);
      assert x * ach != 1.0 * ach;
    }
  }

  /** Forward compression moves a channel toward a positive anchor without
      passing it, and leaves it non-negative (inside the gamut) exactly when
      its distance is at most the limit. */
  lemma ForwardChannelBounds(ctx: Context, c: real, ach: real, lim: real)
    requires 0.0 <= ctx.thr < 1.0 <= lim && !ctx.invert && 0.0 < ach && c <= ach
    ensures c <= Channel(ctx, c, ach, lim).value <= ach
    ensures 0.0 <= Channel(ctx, c, ach, lim).value <==> Distance(c, ach) <= lim
  {
    ForwardDistanceSign(ctx, Distance(c, ach), ach, lim);
    if ctx.thr < Distance(c, ach) {
      ForwardBounds(ctx, Distance(c, ach), lim);
    }
    RebuildAntitone(ach, Compress(ctx, Distance(c, ach), lim).value, Distance(c, ach));
    RebuildAntitone(ach, 0.0, Compress(ctx, Distance(c, ach), lim).value);
    ForwardWithinBoundary(ctx, Distance(c, ach), lim);
    RebuildNonNegative(ach, Compress(ctx, Distance(c, ach), lim).value);
  }

  /** Expanding a compressed channel with the same anchor restores it. */
  lemma ChannelRoundTrip(ctx: Context, c: real, ach: real, lim: real)
    requires 0.0 <= ctx.thr < 1.0 <= lim && ach != 0.0 && c <= ach
    ensures Channel(ctx.(invert := false), c, ach, lim).value <= ach
    ensures Channel(ctx.(invert := true), Channel(ctx.(invert := false), c, ach, lim).value, ach, lim) == Some(c)
  {
    ForwardDistanceSign(ctx.(invert := false), Distance(c, ach), ach, lim);
    DistanceOfRebuilt(Compress(ctx.(invert := false), Distance(c, ach), lim).value, ach);
    RoundTrip(ctx, Distance(c, ach), lim);
  }

  /** Forward compression keeps a distance's sign relative to the anchor. */
  lemma ForwardDistanceSign(ctx: Context, dist: real, ach: real, lim: real)
    requires 0.0 <= ctx.thr < 1.0 <= lim && !ctx.invert
    requires ach > 0.0 ==> dist >= 0.0
    requires ach < 0.0 ==> dist <= 0.0
    ensures ach > 0.0 ==> Compress(ctx, dist, lim).value >= 0.0
    ensures ach < 0.0 ==> Compress(ctx, dist, lim).value <= 0.0
  {
    if ctx.thr < dist {
      ForwardBounds(ctx, dist, lim);
    }
  }

  /** Expanding a compressed pixel restores it, for every pixel with a
      non-zero anchor. */
  lemma ProcessRoundTrip(ctx: Context, px: Rgba)
    requires WellFormed(ctx) && 0.0 <= ctx.thr && Anchor(px.r, px.g, px.b) != 0.0
    ensures var out := Process(ctx.(invert := false), px);
      Process(ctx.(invert := true), Rgba(out.r.value, out.g.value, out.b.value, out.a))
      == Output(Some(px.r), Some(px.g), Some(px.b), px.a)
  {
    var ach := Anchor(px.r, px.g, px.b);
    var fwd := ctx.(invert := false);
    var out := Process(fwd, px);
    ChannelRoundTrip(ctx, px.r, ach, ctx.limR);
    ChannelRoundTrip(ctx, px.g, ach, ctx.limG);
    ChannelRoundTrip(ctx, px.b, ach, ctx.limB);
    if ach == px.r {
      AnchorChannelUnchanged(fwd, ach, ctx.limR);
    } else if ach == px.g {
      AnchorChannelUnchanged(fwd, ach, ctx.limG);
    } else {
      AnchorChannelUnchanged(fwd, ach, ctx.limB);
    }
    assert Anchor(out.r.value, out.g.value, out.b.value) == ach;
  }

  /** Threshold 0.2 and headroom 0.2 everywhere (thr = 0.8, lim = 1.2): the
      pixel (1.5, 0.5, 0.5) has distances (0, 2/3, 2/3), all below thr, so it
      passes through unchanged. */
  lemma ExamplePixelInsideProtectedZone()
    ensures Process(Init(Params(0.2, 0.2, 0.2, 0.2, false)), Rgba(1.5, 0.5, 0.5, 1.0))
      == Output(Some(1.5), Some(0.5), Some(0.5), 1.0)
  {
  }

  /** With the same parameters the pixel (1, 0, 0.1) has distances
      (0, 1, 0.9); green and blue are compressed to 14/15 and 0.88 and come
      back as 1/15 and 0.12, pulled toward the anchor and kept in gamut. */
  lemma ExamplePixelCompressed()
    ensures Process(Init(Params(0.2, 0.2, 0.2, 0.2, false)), Rgba(1.0, 0.0, 0.1, 1.0))
      == Output(Some(1.0), Some(1.0 / 15.0), Some(0.12), 1.0)
  {
    var ctx := Init(Params(0.2, 0.2, 0.2, 0.2, false));
    assert Anchor(1.0, 0.0, 0.1) == 1.0;
    assert Distance(0.0, 1.0) == 1.0 && Distance(0.1, 1.0) == 0.9;
    assert 1.0 / (1.0 - 0.8) == 5.0 && 1.0 / (1.2 - 0.8) == 2.5 && 1.0 / (0.9 - 0.8) == 10.0;
    assert Compress(ctx, 1.0, 1.2) == Some(14.0 / 15.0);
    assert Compress(ctx, 0.9, 1.2) == Some(0.88);
  }

  /** Expansion (thr = 0.8, lim = 1.2, so the asymptote is at distance 1.2):
      in (1, -0.3, 1, 1) the green distance 1.3 lies past the asymptote, so
      the inverse curve returns -1.2 and green comes out at 2.2, above the
      anchor. */
  lemma ExampleExpansionPastAsymptote()
    ensures Compress(Context(0.8, 1.2, 1.2, 1.2, true), 1.3, 1.2) == Some(-1.2)
    ensures Process(Context(0.8, 1.2, 1.2, 1.2, true), Rgba(1.0, -0.3, 1.0, 1.0)).g == Some(2.2)
  {
    assert 1.0 / (1.3 - 0.8) == 2.0;
    assert 1.0 / (1.0 - 0.8) == 5.0;
    assert 1.0 / (1.2 - 0.8) == 2.5;
    assert Anchor(1.0, -0.3, 1.0) == 1.0;
    assert Distance(-0.3, 1.0) == 1.3;
  }
}
