/**
  Properties of the compression curve: the identity region, the fixed
  points, the gamut boundary reached at `lim`, the bounds and monotonicity of
  the forward curve, its range, and the two round trips between the forward
  and the inverse curve.

  The proofs go through a closed form. Writing `u = dist - thr` and
  `k = RollOff(thr, lim) = 1/(1-thr) - 1/(lim-thr)`, the forward curve is
  `thr + u/(1 + k*u)` and the inverse curve is `thr + u/(1 - k*u)`.
*/
module CurveProperties {
  import opened RealAlgebra
  import opened GamutCompress

  /** The constant part of the forward curve's reciprocal denominator. It is
      zero exactly at headroom zero, and `thr + 1/k` is the forward curve's
      asymptote when it is positive. */
  function RollOff(thr: real, lim: real): (k: real)
    requires thr < 1.0 <= lim
    ensures 0.0 <= k < 1.0 / (1.0 - thr)
    ensures k == 0.0 <==> lim == 1.0
  {
    RollOffSign(thr, lim);
    1.0 / (1.0 - thr) - 1.0 / (lim - thr)
  }

  lemma RollOffSign(thr: real, lim: real)
    requires thr < 1.0 <= lim
    ensures 0.0 <= 1.0 / (1.0 - thr) - 1.0 / (lim - thr) < 1.0 / (1.0 - thr)
    ensures 1.0 / (1.0 - thr) - 1.0 / (lim - thr) == 0.0 <==> lim == 1.0
  {
    ReciprocalAntitone(1.0 - thr, lim - thr);
    if lim != 1.0 {
      assert 1.0 / (1.0 - thr) != 1.0 / (lim - thr) by {
        assert (1.0 - thr) * (1.0 / (1.0 - thr)) == 1.0;
        assert (lim - thr) * (1.0 / (lim - thr)) == 1.0;
      }
    }
  }

  /** The forward curve's shape past the threshold, as a function of
      `u = dist - thr`. */
  function Shape(k: real, u: real): real
    requires 0.0 <= k && 0.0 <= u
  {
    u / (1.0 + k * u)
  }

  /** The inverse curve's shape past the threshold; it has no value on the
      asymptote. */
  function Unshape(k: real, w: real): real
    requires !OnAsymptote(k, w)
  {
    w / (1.0 - k * w)
  }

  /** `w` lies on the asymptote `1/k` of the shape. */
  predicate OnAsymptote(k: real, w: real) {
    k * w == 1.0
  }

  /** `w` lies below the asymptote `1/k` of the shape. */
  predicate BelowAsymptote(k: real, w: real) {
    k * w < 1.0
  }

  /** `w` lies beyond the asymptote `1/k` of the shape. */
  predicate BeyondAsymptote(k: real, w: real) {
    1.0 < k * w
  }

  /** Past the threshold the forward curve is `thr + Shape(k, dist - thr)`. */
  lemma ForwardClosedForm(ctx: Context, dist: real, lim: real)
    requires ctx.thr < 1.0 <= lim && ctx.thr < dist && !ctx.invert
    ensures Compress(ctx, dist, lim) == Some(ctx.thr + Shape(RollOff(ctx.thr, lim), dist - ctx.thr))
  {
    ForwardDenominator(RollOff(ctx.thr, lim), dist - ctx.thr);
    assert 1.0 / (dist - ctx.thr) + 1.0 / (1.0 - ctx.thr) - 1.0 / (lim - ctx.thr)
        == 1.0 / (dist - ctx.thr) + RollOff(ctx.thr, lim);
  }

  /** The reciprocal of the forward curve's denominator `1/u + k` is the
      shape. */
  lemma ForwardDenominator(k: real, u: real)
    requires 0.0 <= k && 0.0 < u
    ensures 1.0 / (1.0 / u + k) == Shape(k, u)
  {
    assert 1.0 / u + k == (1.0 + k * u) / u;
  }

  /** Past the threshold the inverse curve is `thr + Unshape(k, dist - thr)`;
      it has no finite value where `k*(dist - thr) == 1`. */
  lemma InverseClosedForm(ctx: Context, dist: real, lim: real)
    requires ctx.thr < 1.0 <= lim && ctx.thr < dist && ctx.invert
    ensures Compress(ctx, dist, lim) ==
      if OnAsymptote(RollOff(ctx.thr, lim), dist - ctx.thr) then None
      else Some(ctx.thr + Unshape(RollOff(ctx.thr, lim), dist - ctx.thr))
  {
    InverseDenominator(RollOff(ctx.thr, lim), dist - ctx.thr);
  }

  /** The inverse curve's denominator `1/u - k` vanishes exactly on the
      asymptote, and elsewhere its reciprocal is the inverse shape. */
  lemma InverseDenominator(k: real, u: real)
    requires 0.0 < u
    ensures 1.0 / u - k == 0.0 <==> OnAsymptote(k, u)
    ensures !OnAsymptote(k, u) ==> 1.0 / (1.0 / u - k) == Unshape(k, u)
  {
    assert 1.0 / u - k == (1.0 - k * u) / u;
  }

  /** The shape lies in `(0, u]`, equals `u` only when `k` is zero, and stays
      below the asymptote. */
  lemma ShapeBounds(k: real, u: real)
    requires 0.0 <= k && 0.0 < u
    ensures 0.0 < Shape(k, u) <= u
    ensures Shape(k, u) == u <==> k == 0.0
    ensures BelowAsymptote(k, Shape(k, u))
  {
    assert Shape(k, u) * (1.0 + k * u) == u;
    assert u - Shape(k, u) == k * u * Shape(k, u);
    assert (1.0 - k * Shape(k, u)) * (1.0 + k * u) == 1.0;
    PositiveFactor(1.0 - k * Shape(k, u), 1.0 + k * u);
  }

  /** The shape is strictly increasing. */
  lemma ShapeIncreasing(k: real, u1: real, u2: real)
    requires 0.0 <= k && 0.0 < u1 < u2
    ensures Shape(k, u1) < Shape(k, u2)
  {
    assert Shape(k, u1) * (1.0 + k * u1) == u1 && Shape(k, u2) * (1.0 + k * u2) == u2;
    assert u1 * (1.0 + k * u2) < u2 * (1.0 + k * u1);
    if Shape(k, u1) >= Shape(k, u2) {
      MulMonotone(Shape(k, u1), Shape(k, u2), (1.0 + k * u1) * (1.0 + k * u2));
    }
  }

  /** The inverse shape undoes the shape. */
  lemma ShapeUndone(k: real, u: real)
    requires 0.0 <= k && 0.0 < u
    ensures BelowAsymptote(k, Shape(k, u)) && Unshape(k, Shape(k, u)) == u
  {
    ShapeBounds(k, u);
    assert Shape(k, u) * (1.0 + k * u) == u;
    assert (1.0 - k * Shape(k, u)) * (1.0 + k * u) == 1.0;
    assert Shape(k, u) / (1.0 - k * Shape(k, u)) == u;
  }

  /** The shape undoes the inverse shape below the asymptote. */
  lemma ShapeRedone(k: real, w: real)
    requires 0.0 <= k && 0.0 < w && BelowAsymptote(k, w)
    ensures 0.0 < Unshape(k, w) && Shape(k, Unshape(k, w)) == w
  {
    assert Unshape(k, w) * (1.0 - k * w) == w;
    assert (1.0 + k * Unshape(k, w)) * (1.0 - k * w) == 1.0;
    assert Unshape(k, w) / (1.0 + k * Unshape(k, w)) == w;
  }

  /** A distance is left unchanged, in either direction, exactly when it is in
      the protected zone (or at its edge) or the headroom is zero. */
  lemma CompressFixedPoints(ctx: Context, dist: real, lim: real)
    requires ctx.thr < 1.0 <= lim
    ensures Compress(ctx, dist, lim) == Some(dist) <==> dist <= ctx.thr || lim == 1.0
  {
    if ctx.thr < dist {
      ShapeBounds(RollOff(ctx.thr, lim), dist - ctx.thr);
      if ctx.invert {
        InverseClosedForm(ctx, dist, lim);
        if !OnAsymptote(RollOff(ctx.thr, lim), dist - ctx.thr) {
          UnshapeFixedPoints(RollOff(ctx.thr, lim), dist - ctx.thr);
        }
      } else {
        ForwardClosedForm(ctx, dist, lim);
      }
    }
  }

  /** The inverse shape leaves `w` unchanged only when `k` is zero. */
  lemma UnshapeFixedPoints(k: real, w: real)
    requires 0.0 <= k && 0.0 < w && !OnAsymptote(k, w)
    ensures Unshape(k, w) == w <==> k == 0.0
  {
    assert Unshape(k, w) * (1.0 - k * w) == w;
    if Unshape(k, w) == w {
      assert w * (1.0 - k * w) == w;
      assert k * w * w == 0.0;
    }
  }

  /** Forward compression never pushes a distance outward: past the threshold
      it lands strictly above `thr`, at most at `dist`, and below the
      asymptote `thr + 1/k`. */
  lemma ForwardBounds(ctx: Context, dist: real, lim: real)
    requires ctx.thr < 1.0 <= lim && ctx.thr < dist && !ctx.invert
    ensures ctx.thr < Compress(ctx, dist, lim).value <= dist
    ensures BelowAsymptote(RollOff(ctx.thr, lim), Compress(ctx, dist, lim).value - ctx.thr)
  {
    ForwardClosedForm(ctx, dist, lim);
    ShapeBounds(RollOff(ctx.thr, lim), dist - ctx.thr);
    assert Compress(ctx, dist, lim).value - ctx.thr == Shape(RollOff(ctx.thr, lim), dist - ctx.thr);
  }

  /** The forward curve maps the limit exactly onto the gamut boundary. */
  lemma ForwardLimitToBoundary(ctx: Context, lim: real)
    requires ctx.thr < 1.0 <= lim && !ctx.invert
    ensures Compress(ctx, lim, lim) == Some(1.0)
  {
    assert 1.0 / (lim - ctx.thr) + 1.0 / (1.0 - ctx.thr) - 1.0 / (lim - ctx.thr) == 1.0 / (1.0 - ctx.thr);
    assert 1.0 / (1.0 / (1.0 - ctx.thr)) == 1.0 - ctx.thr;
  }

  /** The whole forward transfer function, identity region included, is
      strictly increasing. */
  lemma ForwardIncreasing(ctx: Context, d1: real, d2: real, lim: real)
    requires ctx.thr < 1.0 <= lim && !ctx.invert && d1 < d2
    ensures Compress(ctx, d1, lim).value < Compress(ctx, d2, lim).value
  {
    if ctx.thr < d1 {
      ForwardClosedForm(ctx, d1, lim);
      ForwardClosedForm(ctx, d2, lim);
      ShapeIncreasing(RollOff(ctx.thr, lim), d1 - ctx.thr, d2 - ctx.thr);
    } else if ctx.thr < d2 {
      ForwardBounds(ctx, d2, lim);
    }
  }

  /** Forward compression keeps a distance inside the gamut boundary exactly
      when it is no farther out than the limit. */
  lemma ForwardWithinBoundary(ctx: Context, dist: real, lim: real)
    requires ctx.thr < 1.0 <= lim && !ctx.invert
    ensures Compress(ctx, dist, lim).value <= 1.0 <==> dist <= lim
  {
    ForwardLimitToBoundary(ctx, lim);
    if dist < lim {
      ForwardIncreasing(ctx, dist, lim, lim);
    } else if lim < dist {
      ForwardIncreasing(ctx, lim, dist, lim);
    }
  }

  /** Expanding a compressed distance gives the original distance back, for
      every distance. */
  lemma RoundTrip(ctx: Context, dist: real, lim: real)
    requires ctx.thr < 1.0 <= lim
    ensures Compress(ctx.(invert := true), Compress(ctx.(invert := false), dist, lim).value, lim) == Some(dist)
  {
    if ctx.thr < dist {
      ForwardClosedForm(ctx.(invert := false), dist, lim);
      ShapeBounds(RollOff(ctx.thr, lim), dist - ctx.thr);
      ShapeUndone(RollOff(ctx.thr, lim), dist - ctx.thr);
      InverseClosedForm(ctx.(invert := true), ctx.thr + Shape(RollOff(ctx.thr, lim), dist - ctx.thr), lim);
      assert ctx.thr + Shape(RollOff(ctx.thr, lim), dist - ctx.thr) - ctx.thr == Shape(RollOff(ctx.thr, lim), dist - ctx.thr);
    }
  }

  /** The values the forward curve takes are exactly those in the protected
      zone and those below the asymptote `thr + 1/k`. */
  lemma ForwardRange(ctx: Context, cdist: real, lim: real)
    requires ctx.thr < 1.0 <= lim && !ctx.invert
    ensures (exists dist :: Compress(ctx, dist, lim) == Some(cdist))
        <==> cdist <= ctx.thr || BelowAsymptote(RollOff(ctx.thr, lim), cdist - ctx.thr)
  {
    if cdist <= ctx.thr {
      assert Compress(ctx, cdist, lim) == Some(cdist);
    } else if BelowAsymptote(RollOff(ctx.thr, lim), cdist - ctx.thr) {
      ShapeRedone(RollOff(ctx.thr, lim), cdist - ctx.thr);
      ForwardClosedForm(ctx, ctx.thr + Unshape(RollOff(ctx.thr, lim), cdist - ctx.thr), lim);
      assert ctx.thr + Unshape(RollOff(ctx.thr, lim), cdist - ctx.thr) - ctx.thr == Unshape(RollOff(ctx.thr, lim), cdist - ctx.thr);
      assert Compress(ctx, ctx.thr + Unshape(RollOff(ctx.thr, lim), cdist - ctx.thr), lim) == Some(cdist);
    } else {
      forall dist | Compress(ctx, dist, lim) == Some(cdist)
        ensures false
      {
        if ctx.thr < dist {
          ForwardBounds(ctx, dist, lim);
        }
      }
    }
  }

  /** Compressing an expanded distance gives it back, for every distance the
      forward curve can produce. */
  lemma InverseRoundTrip(ctx: Context, cdist: real, lim: real)
    requires ctx.thr < 1.0 <= lim
    requires cdist <= ctx.thr || BelowAsymptote(RollOff(ctx.thr, lim), cdist - ctx.thr)
    ensures Compress(ctx.(invert := true), cdist, lim).Some?
    ensures Compress(ctx.(invert := false), Compress(ctx.(invert := true), cdist, lim).value, lim) == Some(cdist)
  {
    if ctx.thr < cdist {
      InverseClosedForm(ctx.(invert := true), cdist, lim);
      ShapeRedone(RollOff(ctx.thr, lim), cdist - ctx.thr);
      ForwardClosedForm(ctx.(invert := false), ctx.thr + Unshape(RollOff(ctx.thr, lim), cdist - ctx.thr), lim);
      assert ctx.thr + Unshape(RollOff(ctx.thr, lim), cdist - ctx.thr) - ctx.thr == Unshape(RollOff(ctx.thr, lim), cdist - ctx.thr);
    }
  }

  /** Inside the forward curve's range the inverse curve, identity region
      included, is finite and strictly increasing. */
  lemma InverseIncreasing(ctx: Context, d1: real, d2: real, lim: real)
    requires ctx.thr < 1.0 <= lim && ctx.invert && d1 < d2
    requires d2 <= ctx.thr || BelowAsymptote(RollOff(ctx.thr, lim), d2 - ctx.thr)
    ensures Compress(ctx, d1, lim).Some? && Compress(ctx, d2, lim).Some?
    ensures Compress(ctx, d1, lim).value < Compress(ctx, d2, lim).value
  {
    if ctx.thr < d1 && 0.0 < RollOff(ctx.thr, lim) {
      MulMonotone(d2 - ctx.thr, d1 - ctx.thr, RollOff(ctx.thr, lim));
    }
    assert d1 <= ctx.thr || BelowAsymptote(RollOff(ctx.thr, lim), d1 - ctx.thr);
    InverseRoundTrip(ctx, d1, lim);
    InverseRoundTrip(ctx, d2, lim);
    if Compress(ctx, d2, lim).value < Compress(ctx, d1, lim).value {
      ForwardIncreasing(ctx.(invert := false), Compress(ctx, d2, lim).value, Compress(ctx, d1, lim).value, lim);
    }
  }

  /** Beyond the asymptote the inverse shape is negative. */
  lemma UnshapeBeyondAsymptote(k: real, w: real)
    requires 0.0 < w && BeyondAsymptote(k, w)
    ensures Unshape(k, w) < 0.0
  {
    assert Unshape(k, w) * (1.0 - k * w) == w;
  }

  /** Past the asymptote `thr + 1/k`, where no forward result lies, the
      inverse curve is finite but falls back below the threshold: the
      inverse transfer function jumps there and is not monotone. */
  lemma InverseBeyondAsymptote(ctx: Context, dist: real, lim: real)
    requires ctx.thr < 1.0 <= lim && ctx.invert && ctx.thr < dist
    requires BeyondAsymptote(RollOff(ctx.thr, lim), dist - ctx.thr)
    ensures Compress(ctx, dist, lim).Some? && Compress(ctx, dist, lim).value < ctx.thr
  {
    InverseClosedForm(ctx, dist, lim);
    UnshapeBeyondAsymptote(RollOff(ctx.thr, lim), dist - ctx.thr);
  }
}
