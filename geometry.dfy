/** The region of interest of the digit scanner: a box 70% of the frame wide
    and 25% of it high, centred in the frame, and the size of the canvas the
    box is drawn into before conditioning. All pixel quantities are natural
    numbers; `Math.floor(v * 0.7)` is taken exactly as `v * 7 / 10`. */
module Geometry {
  import opened Wrappers

  /** The native pixel size of the video element (`videoWidth`, `videoHeight`),
      both 0 until the stream's metadata has arrived. */
  datatype Video = Video(width: nat, height: nat)

  /** A rectangle in frame coordinates. */
  datatype Rect = Rect(x: nat, y: nat, w: nat, h: nat)

  /** A canvas size in pixels. */
  datatype Size = Size(width: nat, height: nat)

  /** Widest canvas the region is scaled down to before recognition. */
  const MaxCanvasWidth: nat := 640

  /** The region of interest of the current frame; `None` when there is no video
      element or the frame is not yet sized. */
  function GetROI(video: Option<Video>): (roi: Option<Rect>)
    ensures roi.None? <==> video.None? || video.value.width == 0 || video.value.height == 0
    ensures roi.Some? ==> Inside(roi.value, video.value)
  {
    match video
    case None => None
    case Some(v) =>
      if v.width == 0 || v.height == 0 then None
      else
        var w := v.width * 7 / 10;
        var h := v.height * 25 / 100;
        Some(Rect((v.width - w) / 2, (v.height - h) / 2, w, h))
  }

  /** `r` lies in the frame of `v`. */
  predicate Inside(r: Rect, v: Video) {
    r.x + r.w <= v.width && r.y + r.h <= v.height
  }

  /** The box is centred: the margin on the right (below) is the margin on the
      left (above), or one pixel more when the slack is odd. */
  predicate Centred(r: Rect, v: Video) {
    Inside(r, v) &&
    var right, bottom := v.width - (r.x + r.w), v.height - (r.y + r.h);
    (right == r.x || right == r.x + 1) && (bottom == r.y || bottom == r.y + 1)
  }

  /** The region of any sized frame is centred, has the floored proportions
      0.7 and 0.25, starts inside the frame, and has positive width exactly
      when the frame is at least 2 pixels wide and positive height exactly when
      it is at least 4 pixels high. A frame 1 pixel wide therefore yields a
      region of width 0, which the canvas size then divides by. */
  lemma ROIShape(v: Video)
    requires v.width > 0 && v.height > 0
    ensures GetROI(Some(v)).Some?
    ensures var r := GetROI(Some(v)).value;
      && Centred(r, v)
      && r.x < v.width && r.y < v.height
      && 10 * r.w <= 7 * v.width < 10 * (r.w + 1)
      && 4 * r.h <= v.height < 4 * (r.h + 1)
      && (r.w > 0 <==> v.width >= 2)
      && (r.h > 0 <==> v.height >= 4)
  {
  }

  /** The canvas the region is drawn into: at most `MaxCanvasWidth` wide, with
      the height scaled by the same factor and truncated to a whole pixel.
      For a region of width 0 the page's height is 0/0, which the canvas
      also takes as 0. */
  function CanvasSize(r: Rect): (c: Size)
    ensures c.width <= MaxCanvasWidth && c.width <= r.w && c.height <= r.h
    ensures c.width > 0 <==> r.w > 0
    ensures 0 < r.w <= MaxCanvasWidth ==> c == Size(r.w, r.h)
    ensures r.w >= MaxCanvasWidth ==> c.width == MaxCanvasWidth
  {
    var cw := if r.w < MaxCanvasWidth then r.w else MaxCanvasWidth;
    var ch := if r.w == 0 then 0 else ScaledHeight(r.h, cw, r.w);
    Size(cw, ch)
  }

  /** `h * cw / w`, the height of a `w`-wide region scaled to width `cw`. */
  function ScaledHeight(h: nat, cw: nat, w: nat): (ch: nat)
    requires cw <= w && w > 0
    ensures ch <= h
    ensures cw == w ==> ch == h
  {
    ScaledHeightBound(h, cw, w);
    h * cw / w
  }

  lemma ScaledHeightBound(h: nat, cw: nat, w: nat)
    requires cw <= w && w > 0
    ensures h * cw / w <= h
    ensures cw == w ==> h * cw / w == h
  {
    assert h * cw <= h * w by { MulMonotone(h, cw, w); }
    DivMonotone(h * cw, h * w, w);
    assert h * w / w == h;
  }

  lemma MulMonotone(a: nat, b: nat, c: nat)
    requires b <= c
    ensures a * b <= a * c
  {
  }

  lemma DivMonotone(x: nat, y: nat, d: nat)
    requires x <= y && d > 0
    ensures x / d <= y / d
  {
    var q, s := x / d, y / d;
    assert q * d <= x;
    assert y < (s + 1) * d;
    MulCancel(q, s + 1, d);
  }

  lemma MulCancel(a: nat, b: nat, d: nat)
    requires a * d < b * d
    ensures a < b
  {
    if a >= b {
      MulMonotone(d, b, a);
    }
  }

  /** The canvas keeps the region's aspect ratio up to truncation of the height:
      `c.height / c.width` is the largest whole height not above
      `r.h / r.w`-times the width. */
  lemma CanvasAspect(r: Rect)
    requires r.w > 0
    ensures var c := CanvasSize(r);
      c.height * r.w <= r.h * c.width < (c.height + 1) * r.w
  {
    var c := CanvasSize(r);
    var p := r.h * c.width;
    assert c.height == p / r.w;
    assert (p / r.w) * r.w + p % r.w == p;
  }

  /** The canvas of the region of a sized frame has pixels exactly when the
      frame is at least 2 by 4 pixels and the scaled height does not truncate
      to 0; for frames up to 915 pixels wide the second condition is implied. */
  lemma CanvasNonEmpty(v: Video)
    requires v.width > 0 && v.height > 0
    ensures var c := CanvasSize(GetROI(Some(v)).value);
      (c.width > 0 && c.height > 0) ==> v.width >= 2 && v.height >= 4
    ensures v.width <= 915 ==>
      var c := CanvasSize(GetROI(Some(v)).value);
      (c.width > 0 && c.height > 0 <==> v.width >= 2 && v.height >= 4)
  {
    ROIShape(v);
  }

  /** A wide frame with a region one pixel high scales to a canvas 0 pixels high:
      1280 by 4 gives a region of 896 by 1 and a canvas of 640 by 0. */
  lemma WideShallowFrameHasEmptyCanvas()
    ensures GetROI(Some(Video(1280, 4))) == Some(Rect(192, 1, 896, 1))
    ensures CanvasSize(Rect(192, 1, 896, 1)) == Size(640, 0)
  {
  }
}
