/** `buildStrip`: lays the captured stills out one under another on a
    400-pixel-wide black canvas and draws each one, cover-cropped, into its
    slot. Pixels are not modelled; the strip is the list of draw commands the
    canvas receives, in the order it receives them. */
module StripComposer {
  import opened CoverCrop

  const Width: int := 400
  const Margin: int := 24
  const PhotoWidth: int := Width - Margin * 2
  /** Math.round(PhotoWidth * 1.25); 352 * 1.25 is exactly 440, so no rounding happens. */
  const PhotoHeight: int := PhotoWidth * 5 / 4
  /** Distance from the top of one photo slot to the top of the next. */
  const Pitch: int := PhotoHeight + Margin

  /** A rectangle on the strip canvas, in pixels. */
  datatype Rect = Rect(x: int, y: int, w: int, h: int)

  /** A captured still: `frame` stands for its pixel content, which is opaque here. */
  datatype Still = Still(frame: nat, width: int, height: int)

  /** One `ctx.drawImage(img, sx, sy, sw, sh, x, y, w, h)` call. */
  datatype Draw = Draw(image: Still, src: Crop, dest: Rect)

  /** The finished strip: the canvas size and the photos drawn on it. */
  datatype Strip = Strip(width: int, height: int, draws: seq<Draw>)

  /** A still that loads as an image with a non-empty bitmap. */
  predicate Decodable(s: Still) {
    s.width > 0 && s.height > 0
  }

  predicate AllDecodable(images: seq<Still>) {
    forall k | 0 <= k < |images| :: Decodable(images[k])
  }

  /** Canvas height for n photos: top border, n photos, the n - 1 gaps between
      them, bottom border. */
  function StripHeight(n: nat): (height: int)
    ensures height == Margin + n * Pitch
    ensures n > 0 ==> height == SlotTop(n - 1) + PhotoHeight + Margin
    ensures n == 4 ==> height == 1880
  {
    Margin + n * PhotoHeight + (n - 1) * Margin + Margin
  }

  /** The y coordinate at which photo i is drawn. */
  function SlotTop(i: nat): int {
    Margin + i * Pitch
  }

  /** The destination rectangle of photo i. */
  function Slot(i: nat): Rect {
    Rect(Margin, SlotTop(i), PhotoWidth, PhotoHeight)
  }

  /** r lies inside a width x height canvas with at least `border` pixels to spare on every side. */
  predicate Within(r: Rect, width: int, height: int, border: int) {
    border <= r.x && r.x + r.w <= width - border &&
    border <= r.y && r.y + r.h <= height - border
  }

  /** `drawImageCover(ctx, img, x, y, w, h)`: the cover crop of the image drawn into (x, y, w, h). */
  function DrawImageCover(img: Still, dest: Rect): (d: Draw)
    requires Decodable(img) && dest.w > 0 && dest.h > 0
    ensures d.image == img && d.dest == dest
    ensures IsCover(d.src, img.width as real, img.height as real, dest.w as real, dest.h as real)
  {
    Draw(img, Cover(img.width as real, img.height as real, dest.w as real, dest.h as real), dest)
  }

  /** The strip `buildStrip` produces from `images`, as a specification. */
  function Layout(images: seq<Still>): Strip
    requires AllDecodable(images)
  {
    Strip(Width, StripHeight(|images|),
          seq(|images|, k requires 0 <= k < |images| => DrawImageCover(images[k], Slot(k))))
  }

  /** Builds the strip: sets the canvas size, then draws photo i into slot i
      for i = 0, 1, ..., in order (each draw waits for its image to load). */
  method BuildStrip(images: seq<Still>) returns (strip: Strip)
    requires AllDecodable(images)
    ensures strip == Layout(images)
  {
    var width := Width;
    var margin := Margin;
    var imgWidth := width - margin * 2;
    var imgHeight := imgWidth * 5 / 4;
    var height := margin + |images| * imgHeight + (|images| - 1) * margin + margin;
    var draws: seq<Draw> := [];
    for i := 0 to |images|
      invariant |draws| == i
      invariant forall k | 0 <= k < i :: draws[k] == DrawImageCover(images[k], Slot(k))
    {
      var y := margin + i * (imgHeight + margin);
      draws := draws + [DrawImageCover(images[i], Rect(margin, y, imgWidth, imgHeight))];
    }
    strip := Strip(width, height, draws);
  }

  /** Every photo slot lies on the canvas with a full margin around it. */
  lemma SlotsInsideCanvas(images: seq<Still>)
    requires AllDecodable(images)
    ensures var s := Layout(images);
      s.width == Width && s.height == StripHeight(|images|) && |s.draws| == |images| &&
      forall k | 0 <= k < |s.draws| :: Within(s.draws[k].dest, s.width, s.height, Margin)
  {
    var s := Layout(images);
    forall k | 0 <= k < |s.draws|
      ensures Within(s.draws[k].dest, s.width, s.height, Margin)
    {
      assert s.draws[k].dest == Slot(k);
      assert (k + 1) * Pitch <= |images| * Pitch;
    }
  }

  /** Photo k + 1 starts exactly one margin below the bottom of photo k, so no
      two photos overlap. */
  lemma SlotsStacked(images: seq<Still>)
    requires AllDecodable(images)
    ensures var s := Layout(images);
      forall k | 0 <= k < |s.draws| - 1 ::
        s.draws[k + 1].dest.x == s.draws[k].dest.x &&
        s.draws[k + 1].dest.y == s.draws[k].dest.y + s.draws[k].dest.h + Margin
  {
  }

  /** Slots further down the strip never overlap earlier ones. */
  lemma SlotsDisjoint(i: nat, j: nat)
    requires i < j
    ensures Slot(i).y + Slot(i).h + Margin <= Slot(j).y
  {
    assert (i + 1) * Pitch <= j * Pitch;
  }

  /** The strip draws each input image exactly once, in index order, and
      scales every crop onto its slot without distortion. */
  lemma DrawsFollowImages(images: seq<Still>)
    requires AllDecodable(images)
    ensures var s := Layout(images);
      |s.draws| == |images| &&
      forall k | 0 <= k < |images| ::
        s.draws[k].image == images[k] && s.draws[k].dest == Slot(k) &&
        InsideImage(s.draws[k].src, images[k].width as real, images[k].height as real) &&
        SameAspect(s.draws[k].src, PhotoWidth as real, PhotoHeight as real)
  {
  }
}
