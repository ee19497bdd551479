/**
 The content-size resolver of the aligned image view: the size its inner
 image view is given, from the view's bounds size, its image (if any), its
 content mode and its scaling option.
 */
module ContentSize {
  import opened Geometry

  /** The scaling option. As the resolver is written, `Up` forbids scale
      factors above 1 and `Down` forbids scale factors below 1; `None`
      forbids neither. */
  datatype Scaling = None | Up | Down

  /** The host library's content modes. Only the first three scale the
      image; the rest show it at its own size. */
  datatype ContentMode =
    | ScaleToFill | ScaleAspectFit | ScaleAspectFill
    | Redraw | Center | Top | Bottom | Left | Right
    | TopLeft | TopRight | BottomLeft | BottomRight

  /** The view's image, reduced to its size. */
  datatype Image = NoImage | Image(size: Size)

  /** A content mode that scales the image to the bounds. */
  predicate ScalesImage(mode: ContentMode)
  {
    mode.ScaleToFill? || mode.ScaleAspectFit? || mode.ScaleAspectFill?
  }

  /** An image the resolver can divide by when the mode needs the scale
      factors: both dimensions positive. The quotients are used only by the
      scaling modes; every other mode returns the image size unchanged. */
  predicate ValidImage(image: Image, mode: ContentMode)
  {
    image.Image? && ScalesImage(mode) ==> image.size.width > 0.0 && image.size.height > 0.0
  }

  /** The scale factor `s` is one the scaling option resets to 1. */
  predicate Forbidden(s: real, scaling: Scaling)
  {
    (s > 1.0 && scaling == Up) || (s < 1.0 && scaling == Down)
  }

  /** The scale factor after the scaling option is applied: `Up` caps it at
      1, `Down` raises it to at least 1, `None` leaves it alone. */
  function ClampScale(s: real, scaling: Scaling): (k: real)
    ensures scaling == None ==> k == s
    ensures scaling == Up ==> k == Min(s, 1.0)
    ensures scaling == Down ==> k == Max(s, 1.0)
  {
    if Forbidden(s, scaling) then 1.0 else s
  }

  /** The uniform scale of the aspect-fit mode. */
  function FitScale(bounds: Size, image: Size): real
    requires image.width > 0.0 && image.height > 0.0
  {
    Min(bounds.width / image.width, bounds.height / image.height)
  }

  /** The uniform scale of the aspect-fill mode. */
  function FillScale(bounds: Size, image: Size): real
    requires image.width > 0.0 && image.height > 0.0
  {
    Max(bounds.width / image.width, bounds.height / image.height)
  }

  /** The size the inner image view is given. Without an image it is the
      bounds size; the aspect modes scale the image uniformly; the stretch
      mode gives either the bounds size or the image's own size, and every
      other mode gives the image's own size. */
  function RealContentSize(bounds: Size, image: Image, mode: ContentMode, scaling: Scaling): (r: Size)
    requires ValidImage(image, mode)
    ensures image.NoImage? ==> r == bounds
    ensures image.Image? && (mode.ScaleAspectFit? || mode.ScaleAspectFill?) ==>
              SameAspect(r, image.size)
    ensures image.Image? && mode.ScaleToFill? ==>
              r == (if Forbidden(bounds.width / image.size.width, scaling) then image.size else bounds)
    ensures image.Image? && !ScalesImage(mode) ==> r == image.size
  {
    match image
    case NoImage => bounds
    case Image(img) =>
      match mode
      case ScaleAspectFill =>
        var scale := ClampScale(Max(bounds.width / img.width, bounds.height / img.height), scaling);
        Scaled(img, scale)
      case ScaleAspectFit =>
        var scale := ClampScale(Min(bounds.width / img.width, bounds.height / img.height), scaling);
        Scaled(img, scale)
      case ScaleToFill =>
        var scaleX := bounds.width / img.width;
        var scaleY := bounds.height / img.height;
        if Forbidden(scaleX, scaling) then
          Size(img.width * 1.0, img.height * 1.0)
        else
          Size(img.width * scaleX, img.height * scaleY)
      case _ => img
  }

  /** The aspect-fit scale is the largest uniform scale at which the image
      fits inside the bounds. */
  lemma FitScaleIsLargestFitting(bounds: Size, image: Size, t: real)
    requires image.width > 0.0 && image.height > 0.0
    ensures FitsIn(Scaled(image, t), bounds) <==> t <= FitScale(bounds, image)
  {
  }

  /** The aspect-fill scale is the smallest uniform scale at which the image
      covers the bounds. */
  lemma FillScaleIsSmallestCovering(bounds: Size, image: Size, t: real)
    requires image.width > 0.0 && image.height > 0.0
    ensures Covers(Scaled(image, t), bounds) <==> t >= FillScale(bounds, image)
  {
  }

  /** A scaling mode: aspect fit or aspect fill. */
  predicate IsAspect(mode: ContentMode)
  {
    mode.ScaleAspectFit? || mode.ScaleAspectFill?
  }

  /** The uniform scale an aspect mode starts from, before the scaling
      option is applied. */
  function NaturalScale(bounds: Size, image: Size, mode: ContentMode): real
    requires image.width > 0.0 && image.height > 0.0
    requires IsAspect(mode)
  {
    if mode.ScaleAspectFit? then FitScale(bounds, image) else FillScale(bounds, image)
  }

  lemma AspectUnfold(bounds: Size, image: Size, mode: ContentMode, scaling: Scaling)
    requires image.width > 0.0 && image.height > 0.0
    requires IsAspect(mode)
    ensures RealContentSize(bounds, Image(image), mode, scaling) ==
              Scaled(image, ClampScale(NaturalScale(bounds, image, mode), scaling))
  {
  }

  /** Uniform scaling is monotone in the factor, on each axis, and the
      order of the widths gives back the order of the factors. */
  lemma ScaledMonotone(image: Size, k1: real, k2: real)
    requires image.width > 0.0 && image.height > 0.0
    ensures k1 <= k2 <==> Scaled(image, k1).width <= Scaled(image, k2).width
    ensures k1 <= k2 <==> Scaled(image, k1).height <= Scaled(image, k2).height
  {
    assert Scaled(image, k2).width - Scaled(image, k1).width == image.width * (k2 - k1);
    assert Scaled(image, k2).height - Scaled(image, k1).height == image.height * (k2 - k1);
  }

  /** A uniformly scaled image keeps its own size exactly at factor 1. */
  lemma ScaledIsImageIff(image: Size, k: real)
    requires image.width > 0.0 && image.height > 0.0
    ensures Scaled(image, k) == image <==> k == 1.0
  {
    ScaledMonotone(image, k, 1.0);
    ScaledMonotone(image, 1.0, k);
    assert Scaled(image, 1.0) == image;
  }

  /** With no scaling restriction, aspect fit gives the largest uniformly
      scaled image that fits in the bounds, touching them on at least one
      axis. */
  lemma AspectFitFits(bounds: Size, image: Size, t: real)
    requires image.width > 0.0 && image.height > 0.0
    ensures var r := RealContentSize(bounds, Image(image), ScaleAspectFit, None);
            && FitsIn(r, bounds)
            && (r.width == bounds.width || r.height == bounds.height)
            && (FitsIn(Scaled(image, t), bounds) ==> Scaled(image, t).width <= r.width)
  {
  }

  /** With no scaling restriction, aspect fill gives the smallest uniformly
      scaled image that covers the bounds, matching them on at least one
      axis. */
  lemma AspectFillCovers(bounds: Size, image: Size, t: real)
    requires image.width > 0.0 && image.height > 0.0
    ensures var r := RealContentSize(bounds, Image(image), ScaleAspectFill, None);
            && Covers(r, bounds)
            && (r.width == bounds.width || r.height == bounds.height)
            && (Covers(Scaled(image, t), bounds) ==> Scaled(image, t).width >= r.width)
  {
  }

  /** In an aspect mode the image is shown at exactly its own size when,
      and only when, the natural scale is 1 or the scaling option forbids
      it. */
  lemma AspectKeepsImageSizeExactly(bounds: Size, image: Size, mode: ContentMode, scaling: Scaling)
    requires image.width > 0.0 && image.height > 0.0
    requires IsAspect(mode)
    ensures var s := NaturalScale(bounds, image, mode);
            RealContentSize(bounds, Image(image), mode, scaling) == image <==> (s == 1.0 || Forbidden(s, scaling))
  {
    AspectUnfold(bounds, image, mode, scaling);
    ScaledIsImageIff(image, ClampScale(NaturalScale(bounds, image, mode), scaling));
  }

  /** With `Up`, an aspect mode never shows the image larger than its own
      size; with `Down`, never smaller. */
  lemma AspectRespectsScalingDirection(bounds: Size, image: Size, mode: ContentMode, scaling: Scaling)
    requires image.width > 0.0 && image.height > 0.0
    requires IsAspect(mode)
    ensures var r := RealContentSize(bounds, Image(image), mode, scaling);
            && (scaling == Up ==> r.width <= image.width && r.height <= image.height)
            && (scaling == Down ==> r.width >= image.width && r.height >= image.height)
  {
    var k := ClampScale(NaturalScale(bounds, image, mode), scaling);
    AspectUnfold(bounds, image, mode, scaling);
    ScaledMonotone(image, k, 1.0);
    ScaledMonotone(image, 1.0, k);
  }

  /** Aspect fit under `Up` gives the largest uniformly scaled image that
      fits both in the bounds and within the image's own size. */
  lemma AspectFitUpFitsBoundsAndImage(bounds: Size, image: Size, t: real)
    requires image.width > 0.0 && image.height > 0.0
    ensures var r := RealContentSize(bounds, Image(image), ScaleAspectFit, Up);
            && FitsIn(r, bounds) && FitsIn(r, image)
            && (FitsIn(Scaled(image, t), bounds) && FitsIn(Scaled(image, t), image) ==>
                  Scaled(image, t).width <= r.width)
  {
    var fit := FitScale(bounds, image);
    var k := ClampScale(fit, Up);
    AspectUnfold(bounds, image, ScaleAspectFit, Up);
    FitScaleIsLargestFitting(bounds, image, k);
    FitScaleIsLargestFitting(bounds, image, t);
    ScaledMonotone(image, k, 1.0);
    ScaledMonotone(image, t, 1.0);
    ScaledMonotone(image, t, k);
  }

  /** Aspect fill under `Down` gives the smallest uniformly scaled image that
      covers both the bounds and the image's own size. */
  lemma AspectFillDownCoversBoundsAndImage(bounds: Size, image: Size, t: real)
    requires image.width > 0.0 && image.height > 0.0
    ensures var r := RealContentSize(bounds, Image(image), ScaleAspectFill, Down);
            && Covers(r, bounds) && Covers(r, image)
            && (Covers(Scaled(image, t), bounds) && Covers(Scaled(image, t), image) ==>
                  Scaled(image, t).width >= r.width)
  {
    var fill := FillScale(bounds, image);
    var k := ClampScale(fill, Down);
    AspectUnfold(bounds, image, ScaleAspectFill, Down);
    FillScaleIsSmallestCovering(bounds, image, k);
    FillScaleIsSmallestCovering(bounds, image, t);
    ScaledMonotone(image, 1.0, k);
    ScaledMonotone(image, 1.0, t);
    ScaledMonotone(image, k, t);
  }

  /** Under `Up` an aspect mode gives the unrestricted result when that is no
      larger than the image, and the image's own size otherwise; under `Down`
      it gives the unrestricted result when that is no smaller than the
      image, and the image's own size otherwise. */
  lemma AspectClampAgainstUnrestricted(bounds: Size, image: Size, mode: ContentMode)
    requires image.width > 0.0 && image.height > 0.0
    requires IsAspect(mode)
    ensures var free := RealContentSize(bounds, Image(image), mode, None);
            && RealContentSize(bounds, Image(image), mode, Up) ==
                 (if free.width <= image.width then free else image)
            && RealContentSize(bounds, Image(image), mode, Down) ==
                 (if free.width >= image.width then free else image)
  {
    var natural := NaturalScale(bounds, image, mode);
    AspectUnfold(bounds, image, mode, None);
    AspectUnfold(bounds, image, mode, Up);
    AspectUnfold(bounds, image, mode, Down);
    ScaledMonotone(image, natural, 1.0);
    ScaledMonotone(image, 1.0, natural);
  }

  /** Without a scaling restriction the stretch mode gives exactly the bounds
      size, scaling the two axes independently. */
  lemma StretchUnrestrictedGivesBounds(bounds: Size, image: Size)
    requires image.width > 0.0 && image.height > 0.0
    ensures RealContentSize(bounds, Image(image), ScaleToFill, None) == bounds
  {
  }

  /** The stretch mode decides on the horizontal scale alone: it keeps the
      image size exactly when the horizontal scale is forbidden or the bounds
      already have the image's size, so two bounds of equal width (each other
      than the image size) are treated alike whatever their heights. */
  lemma StretchDecidesOnWidthOnly(b1: Size, b2: Size, image: Size, scaling: Scaling)
    requires image.width > 0.0 && image.height > 0.0
    ensures RealContentSize(b1, Image(image), ScaleToFill, scaling) == image <==>
              (Forbidden(b1.width / image.width, scaling) || b1 == image)
    ensures b1.width == b2.width && b1 != image && b2 != image ==>
              (RealContentSize(b1, Image(image), ScaleToFill, scaling) == image <==>
               RealContentSize(b2, Image(image), ScaleToFill, scaling) == image)
  {
  }

  /** Under `Up`, a 100 by 100 image stretched into 50 by 200 bounds is
      doubled in height, while in 200 by 50 bounds it keeps its own size even
      though only its height would have shrunk. */
  lemma StretchUpExample()
    ensures RealContentSize(Size(50.0, 200.0), Image(Size(100.0, 100.0)), ScaleToFill, Up) == Size(50.0, 200.0)
    ensures RealContentSize(Size(200.0, 50.0), Image(Size(100.0, 100.0)), ScaleToFill, Up) == Size(100.0, 100.0)
  {
  }
}
