/**
  The GamutCompression pixel kernel: a per-pass context derived from the
  user parameters, the rational ("Reinhard") compression curve applied to a
  channel's distance from the achromatic axis, and the per-pixel transform
  that rebuilds each channel from its compressed distance.

  Arithmetic is over `real`. Where the kernel's float arithmetic would
  produce an infinity (the inverse curve's denominator reaching zero), the
  model returns `None` instead of a number.
*/
module GamutCompress {
  import opened RealAlgebra

  datatype Option<T> = None | Some(value: T)

  /** The kernel's user parameters. */
  datatype Params = Params(threshold: real, cyan: real, magenta: real, yellow: real, invert: bool)

  /** The kernel-local values `thr` and `lim` computed once per pass by init(),
      together with the direction flag read by compress(). */
  datatype Context = Context(thr: real, limR: real, limG: real, limB: real, invert: bool)

  /** A source pixel. */
  datatype Rgba = Rgba(r: real, g: real, b: real, a: real)

  /** An output pixel; a colour channel is `None` where the kernel would
      write a non-finite value. */
  datatype Output = Output(r: Option<real>, g: Option<real>, b: Option<real>, a: real)

  /** The contexts for which every curve evaluation is defined: `1 - thr` and
      `lim - thr` are positive and the forward denominator cannot vanish. */
  predicate WellFormed(ctx: Context) {
    ctx.thr < 1.0 && ctx.limR >= 1.0 && ctx.limG >= 1.0 && ctx.limB >= 1.0
  }

  /** init(): `thr` is the complement of the threshold (the protected share of
      the core gamut) and each channel's limit is its headroom plus one. */
  function Init(p: Params): (ctx: Context)
    ensures ctx.thr + p.threshold == 1.0
    ensures ctx.limR - p.cyan == 1.0 && ctx.limG - p.magenta == 1.0 && ctx.limB - p.yellow == 1.0
    ensures ctx.invert == p.invert
  {
    Context(1.0 - p.threshold, p.cyan + 1.0, p.magenta + 1.0, p.yellow + 1.0, p.invert)
  }

  /** compress(): the identity below `thr`; from `thr` on, the forward or the
      inverse rational curve. At `dist == thr` the kernel's `1/(dist - thr)` is
      an infinity whose reciprocal is zero, so the result is `thr`. */
  function Compress(ctx: Context, dist: real, lim: real): (cdist: Option<real>)
    requires ctx.thr < 1.0 <= lim
    ensures !ctx.invert ==> cdist.Some? && (ctx.thr < cdist.value <==> ctx.thr < dist)
  {
    if dist < ctx.thr then Some(dist)
    else if dist == ctx.thr then Some(ctx.thr)
    else if !ctx.invert then
      ForwardDenominatorPositive(ctx.thr, lim, dist);
      Some(ctx.thr + 1.0 / (1.0 / (dist - ctx.thr) + 1.0 / (1.0 - ctx.thr) - 1.0 / (lim - ctx.thr)))
    else
      var den := 1.0 / (dist - ctx.thr) - 1.0 / (1.0 - ctx.thr) + 1.0 / (lim - ctx.thr);
      if den == 0.0 then None else Some(ctx.thr + 1.0 / den)
  }

  /** The forward curve's denominator is positive past the threshold. */
  lemma ForwardDenominatorPositive(thr: real, lim: real, dist: real)
    requires thr < 1.0 <= lim && thr < dist
    ensures 1.0 / (dist - thr) + 1.0 / (1.0 - thr) - 1.0 / (lim - thr) > 0.0
  {
    ReciprocalAntitone(1.0 - thr, lim - thr);
    ReciprocalAntitone(dist - thr, dist - thr);
  }

  function Max(x: real, y: real): real {
    if x >= y then x else y
  }

  function Abs(x: real): real {
    if x < 0.0 then -x else x
  }

  /** The achromatic anchor: the largest of the three channels. */
  function Anchor(r: real, g: real, b: real): (ach: real)
    ensures r <= ach && g <= ach && b <= ach
    ensures ach == r || ach == g || ach == b
  {
    Max(r, Max(g, b))
  }

  /** A channel's distance from the achromatic axis, as a fraction of the
      anchor; zero when the anchor is zero. For a channel at or below a
      non-zero anchor, rebuilding from the distance gives the channel back. */
  function Distance(c: real, ach: real): (dist: real)
    ensures ach == 0.0 ==> dist == 0.0
    ensures ach != 0.0 && c <= ach ==> Rebuild(ach, dist) == c
    ensures ach > 0.0 ==> dist >= 0.0
    ensures ach < 0.0 ==> dist <= 0.0
  {
    if ach == 0.0 then 0.0 else Abs(c - ach) / ach
  }

  /** The channel value lying `cdist` anchors below the anchor: measured from
      the anchor in units of the anchor it is `cdist` away, and for a positive
      anchor it lies at or below the anchor exactly when `cdist` is not
      negative. */
  function Rebuild(ach: real, cdist: real): (c: real)
    ensures ach != 0.0 ==> (ach - c) / ach == cdist
    ensures ach > 0.0 ==> (c <= ach <==> 0.0 <= cdist)
  {
    ach - cdist * ach
  }

  /** One colour channel of process(): distance, compression, reconstruction. */
  function Channel(ctx: Context, c: real, ach: real, lim: real): (out: Option<real>)
    requires ctx.thr < 1.0 <= lim
    ensures !ctx.invert ==> out.Some?
    ensures ach == 0.0 && out.Some? ==> out.value == 0.0
  {
    match Compress(ctx, Distance(c, ach), lim)
    case None => None
    case Some(cdist) => Some(Rebuild(ach, cdist))
  }

  /** process(): every colour channel is compressed toward the anchor with its
      own limit; alpha is copied. The forward direction always yields numbers. */
  function Process(ctx: Context, px: Rgba): (out: Output)
    requires WellFormed(ctx)
    ensures out.a == px.a
    ensures !ctx.invert ==> out.r.Some? && out.g.Some? && out.b.Some?
  {
    var ach := Anchor(px.r, px.g, px.b);
    Output(
      Channel(ctx, px.r, ach, ctx.limR),
      Channel(ctx, px.g, ach, ctx.limG),
      Channel(ctx, px.b, ach, ctx.limB),
      px.a)
  }
}
