/** The source crop that `drawImageCover` hands to the canvas: the part of an
    image of size iw x ih that, scaled onto a w x h target, fills it without
    distortion (CSS "object-fit: cover"). Arithmetic is exact on reals. */
module CoverCrop {

  /** A source rectangle (sx, sy, sw, sh) in image pixels. */
  datatype Crop = Crop(sx: real, sy: real, sw: real, sh: real)

  /** The crop lies inside the iw x ih image. */
  predicate InsideImage(c: Crop, iw: real, ih: real) {
    0.0 <= c.sx && 0.0 <= c.sy && c.sx + c.sw <= iw && c.sy + c.sh <= ih
  }

  /** The crop has the aspect ratio of a w x h target (sw / sh == w / h). */
  predicate SameAspect(c: Crop, w: real, h: real) {
    c.sw * h == c.sh * w
  }

  /** The crop is centred in the image on both axes. */
  predicate Centred(c: Crop, iw: real, ih: real) {
    2.0 * c.sx + c.sw == iw && 2.0 * c.sy + c.sh == ih
  }

  /** A reference description of a cover crop, independent of how it is computed:
      non-empty, inside the image, of the target's shape, centred, and keeping
      the full extent of the image on at least one axis. */
  predicate IsCover(c: Crop, iw: real, ih: real, w: real, h: real) {
    c.sw > 0.0 && c.sh > 0.0 &&
    InsideImage(c, iw, ih) && SameAspect(c, w, h) && Centred(c, iw, ih) &&
    (c.sw == iw || c.sh == ih)
  }

  /** The crop computed by `drawImageCover`: when the image is wider than the
      target it keeps the full height and trims both sides equally, otherwise it
      keeps the full width and trims top and bottom equally. */
  function Cover(iw: real, ih: real, w: real, h: real): (c: Crop)
    requires iw > 0.0 && ih > 0.0 && w > 0.0 && h > 0.0
    ensures IsCover(c, iw, ih, w, h)
    ensures iw / ih > w / h ==> c.sh == ih && c.sy == 0.0 && c.sw < iw
    ensures iw / ih <= w / h ==> c.sw == iw && c.sx == 0.0 && c.sh <= ih
  {
    var imgRatio := iw / ih;
    var targetRatio := w / h;
    if imgRatio > targetRatio then
      var sw := ih * targetRatio;
      assert sw < iw by { WiderBound(iw, ih, w, h); }
      assert sw * h == ih * w;
      Crop((iw - sw) / 2.0, 0.0, sw, ih)
    else
      var sh := iw / targetRatio;
      assert sh <= ih by { TallerBound(iw, ih, w, h); }
      assert sh * w == iw * h;
      Crop(0.0, (ih - sh) / 2.0, iw, sh)
  }

  /** Trimming the sides of a wider image leaves a strictly narrower crop. */
  lemma WiderBound(iw: real, ih: real, w: real, h: real)
    requires iw > 0.0 && ih > 0.0 && w > 0.0 && h > 0.0
    requires iw / ih > w / h
    ensures ih * (w / h) < iw
  {
    assert iw == (iw / ih) * ih;
    assert ih * (w / h) < ih * (iw / ih);
  }

  /** Trimming top and bottom of a taller image never exceeds its height. */
  lemma TallerBound(iw: real, ih: real, w: real, h: real)
    requires iw > 0.0 && ih > 0.0 && w > 0.0 && h > 0.0
    requires iw / ih <= w / h
    ensures iw / (w / h) <= ih
  {
    assert iw == (iw / ih) * ih;
    assert iw / (w / h) == (iw / ih) * ih / (w / h);
    assert (iw / ih) / (w / h) <= 1.0;
  }

  /** No crop of the target's shape that fits inside the image is larger than
      the cover crop: the one `drawImageCover` picks loses as
      little of the image as possible. */
  lemma CoverIsLargest(iw: real, ih: real, w: real, h: real, other: Crop)
    requires iw > 0.0 && ih > 0.0 && w > 0.0 && h > 0.0
    requires 0.0 < other.sw <= iw && 0.0 < other.sh <= ih
    requires SameAspect(other, w, h)
    ensures other.sw <= Cover(iw, ih, w, h).sw && other.sh <= Cover(iw, ih, w, h).sh
  {
    var c := Cover(iw, ih, w, h);
    if c.sh == ih {
      // other.sw * h == other.sh * w <= ih * w == c.sw * h
      assert other.sw * h <= c.sw * h;
    } else {
      assert c.sw == iw;
      assert other.sh * w <= c.sh * w;
    }
  }

  /** The cover crop is the only crop meeting the reference description:
      together with the postcondition of Cover this makes IsCover and Cover
      equivalent. */
  lemma CoverUnique(iw: real, ih: real, w: real, h: real, other: Crop)
    requires iw > 0.0 && ih > 0.0 && w > 0.0 && h > 0.0
    requires IsCover(other, iw, ih, w, h)
    ensures other == Cover(iw, ih, w, h)
  {
    var c := Cover(iw, ih, w, h);
    CoverIsLargest(iw, ih, w, h, other);
    if other.sw == iw {
      assert c.sw == iw;
      assert other.sh * w == c.sh * w;
    } else {
      assert other.sh == ih;
      assert c.sh == ih;
      assert other.sw * h == c.sw * h;
    }
  }

  /** An 800 x 600 picture drawn into a 352 x 440 slot loses 160 pixels on each side. */
  lemma CoverLandscapeIntoPortrait()
    ensures Cover(800.0, 600.0, 352.0, 440.0) == Crop(160.0, 0.0, 480.0, 600.0)
  {
  }
}
