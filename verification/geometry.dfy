/** The integer geometry of `image_postprocessor`: the crop box `trim_whitespace`
    computes from a pixel grid, the paste offsets of `resize_to_target`, and the
    logo positions of `add_logo`. Pixels are RGB triples; drawing, resampling
    and compositing are not modelled. */
module Geometry {
  import opened Common
  import opened Hex

  /** An image as its rows of pixels, each row `w` pixels long. */
  type Pixels = seq<seq<Rgb>>

  predicate Grid(img: Pixels, w: nat) {
    forall r | 0 <= r < |img| :: |img[r]| == w
  }

  /** `np.any(pixel < threshold)`: some channel darker than the threshold. */
  predicate Content(p: Rgb, threshold: int) {
    p.r < threshold || p.g < threshold || p.b < threshold
  }

  /** `rows[r]`: row `r` has a content pixel. */
  predicate RowHas(img: Pixels, r: nat, threshold: int)
    requires r < |img|
  {
    exists c | 0 <= c < |img[r]| :: Content(img[r][c], threshold)
  }

  /** `cols[c]`: column `c` has a content pixel. */
  predicate ColHas(img: Pixels, w: nat, c: nat, threshold: int)
    requires Grid(img, w) && c < w
  {
    exists r | 0 <= r < |img| :: Content(img[r][c], threshold)
  }

  predicate Blank(img: Pixels, w: nat, threshold: int)
    requires Grid(img, w)
  {
    forall r, c | 0 <= r < |img| && 0 <= c < w :: !Content(img[r][c], threshold)
  }

  /** Inclusive row and column bounds. */
  datatype Bounds = Bounds(rmin: int, rmax: int, cmin: int, cmax: int)

  /** The tight bounds of the content: first and last rows and columns with a
      content pixel (`np.where(rows)[0][[0, -1]]` and the same for columns). */
  predicate Tight(img: Pixels, w: nat, threshold: int, b: Bounds)
    requires Grid(img, w)
  {
    && 0 <= b.rmin <= b.rmax < |img| && 0 <= b.cmin <= b.cmax < w
    && RowHas(img, b.rmin, threshold) && RowHas(img, b.rmax, threshold)
    && ColHas(img, w, b.cmin, threshold) && ColHas(img, w, b.cmax, threshold)
    && (forall r | 0 <= r < b.rmin :: !RowHas(img, r, threshold))
    && (forall r | b.rmax < r < |img| :: !RowHas(img, r, threshold))
    && (forall c | 0 <= c < b.cmin :: !ColHas(img, w, c, threshold))
    && (forall c | b.cmax < c < w :: !ColHas(img, w, c, threshold))
  }

  /** The PIL crop box `(left, upper, right, lower)`, right and lower exclusive. */
  datatype Box = Box(left: int, upper: int, right: int, lower: int)

  function Max(a: int, b: int): int { if a >= b then a else b }
  function Min(a: int, b: int): int { if a <= b then a else b }

  /** The tight bounds widened by `padding` and clipped to the image. */
  function Pad(b: Bounds, padding: int, w: nat, h: nat): Box {
    Box(Max(0, b.cmin - padding), Max(0, b.rmin - padding),
        Min(w - 1, b.cmax + padding) + 1, Min(h - 1, b.rmax + padding) + 1)
  }

  /** `trim_whitespace`'s crop box: `None` when no pixel is content (the image is
      returned unchanged), otherwise the padded tight bounds. */
  method TrimBox(img: Pixels, w: nat, threshold: int, padding: int) returns (box: Option<Box>)
    requires Grid(img, w)
    ensures box.None? <==> Blank(img, w, threshold)
    ensures box.Some? ==> exists b :: Tight(img, w, threshold, b) && box.value == Pad(b, padding, w, |img|)
  {
    var h := |img|;
    var rmin := 0;
    while rmin < h && !RowHas(img, rmin, threshold)
      invariant 0 <= rmin <= h
      invariant forall r | 0 <= r < rmin :: !RowHas(img, r, threshold)
    {
      rmin := rmin + 1;
    }
    if rmin == h {
      forall r, c | 0 <= r < h && 0 <= c < w ensures !Content(img[r][c], threshold) {
        assert !RowHas(img, r, threshold);
      }
      return None;
    }
    var c0 :| 0 <= c0 < |img[rmin]| && Content(img[rmin][c0], threshold);
    assert ColHas(img, w, c0, threshold);

    var rmax := h - 1;
    while !RowHas(img, rmax, threshold)
      invariant rmin <= rmax < h
      invariant forall r | rmax < r < h :: !RowHas(img, r, threshold)
      decreases rmax
    {
      rmax := rmax - 1;
    }

    var cmin := 0;
    while !ColHas(img, w, cmin, threshold)
      invariant 0 <= cmin <= c0
      invariant forall c | 0 <= c < cmin :: !ColHas(img, w, c, threshold)
      decreases c0 - cmin
    {
      cmin := cmin + 1;
    }

    var cmax := w - 1;
    while !ColHas(img, w, cmax, threshold)
      invariant c0 <= cmax < w
      invariant forall c | cmax < c < w :: !ColHas(img, w, c, threshold)
      decreases cmax
    {
      cmax := cmax - 1;
    }

    var b := Bounds(rmin, rmax, cmin, cmax);
    assert Tight(img, w, threshold, b);
    box := Some(Pad(b, padding, w, h));
    assert !Blank(img, w, threshold) by {
      assert Content(img[rmin][c0], threshold);
    }
  }

  /** Every content pixel lies within the tight bounds. */
  lemma TightContains(img: Pixels, w: nat, threshold: int, b: Bounds, r: nat, c: nat)
    requires Grid(img, w) && Tight(img, w, threshold, b)
    requires r < |img| && c < w && Content(img[r][c], threshold)
    ensures b.rmin <= r <= b.rmax && b.cmin <= c <= b.cmax
  {
    assert RowHas(img, r, threshold);
    assert ColHas(img, w, c, threshold);
  }

  /** With non-negative padding the crop box lies inside the image, holds every
      content pixel, and reaches at most `padding` beyond the tight bounds on each
      side (less only where the image edge clips it). */
  lemma CropBoxSound(img: Pixels, w: nat, threshold: int, b: Bounds, padding: int)
    requires Grid(img, w) && Tight(img, w, threshold, b) && padding >= 0
    ensures var box := Pad(b, padding, w, |img|);
      && 0 <= box.left < box.right <= w && 0 <= box.upper < box.lower <= |img|
      && (forall r, c | 0 <= r < |img| && 0 <= c < w && Content(img[r][c], threshold) ::
            box.upper <= r < box.lower && box.left <= c < box.right)
      && b.cmin - padding <= box.left <= b.cmin && b.rmin - padding <= box.upper <= b.rmin
      && b.cmax < box.right <= b.cmax + padding + 1 && b.rmax < box.lower <= b.rmax + padding + 1
      && (box.left == 0 || box.left == b.cmin - padding) && (box.upper == 0 || box.upper == b.rmin - padding)
      && (box.right == w || box.right == b.cmax + padding + 1) && (box.lower == |img| || box.lower == b.rmax + padding + 1)
  {
    forall r, c | 0 <= r < |img| && 0 <= c < w && Content(img[r][c], threshold)
      ensures b.rmin <= r <= b.rmax && b.cmin <= c <= b.cmax
    {
      TightContains(img, w, threshold, b, r, c);
    }
  }

  /** The tight bounds are determined by the image: two readings agree. */
  lemma TightUnique(img: Pixels, w: nat, threshold: int, b1: Bounds, b2: Bounds)
    requires Grid(img, w) && Tight(img, w, threshold, b1) && Tight(img, w, threshold, b2)
    ensures b1 == b2
  {
  }

  /** A 3×3 white image with one dark pixel in the middle, cropped with the
      default threshold 245 and padding 10, keeps the whole image: the padding
      reaches past every edge. */
  method CenterDotExample() returns (box: Option<Box>)
    ensures box == Some(Box(0, 0, 3, 3))
  {
    var white := Rgb(255, 255, 255);
    var dark := Rgb(0, 0, 0);
    var img := [[white, white, white], [white, dark, white], [white, white, white]];
    box := TrimBox(img, 3, 245, 10);
    assert Content(img[1][1], 245);
    var b :| Tight(img, 3, 245, b) && box.value == Pad(b, 10, 3, 3);
  }

  // ---------------------------------------------------------------------------
  // Placement

  /** `resize_to_target`'s paste offset: the thumbnail centred on the canvas with
      Python's floor division. */
  function PasteOffset(width: int, height: int, tw: int, th: int): (xy: (int, int))
    ensures 2 * xy.0 <= width - tw < 2 * xy.0 + 2
    ensures 2 * xy.1 <= height - th < 2 * xy.1 + 2
  {
    ((width - tw) / 2, (height - th) / 2)
  }

  /** A thumbnail no larger than the canvas lands inside it, centred to within a
      pixel: the right and bottom margins exceed the left and top by 0 or 1. */
  lemma PasteInside(width: int, height: int, tw: int, th: int)
    requires 0 <= tw <= width && 0 <= th <= height
    ensures var xy := PasteOffset(width, height, tw, th);
      && 0 <= xy.0 && xy.0 + tw <= width && 0 <= xy.1 && xy.1 + th <= height
      && 0 <= (width - tw - xy.0) - xy.0 <= 1 && 0 <= (height - th - xy.1) - xy.1 <= 1
  {
  }

  /** The named logo positions of `add_logo`. */
  function LogoTable(w: int, h: int, lw: int, lh: int, margin: int): map<string, (int, int)> {
    map[
      "top-left" := (margin, margin),
      "top-right" := (w - lw - margin, margin),
      "bottom-left" := (margin, h - lh - margin),
      "bottom-right" := (w - lw - margin, h - lh - margin),
      "center" := ((w - lw) / 2, (h - lh) / 2)
    ]
  }

  /** `positions.get(position, positions["bottom-right"])`. */
  function LogoPosition(position: string, w: int, h: int, lw: int, lh: int, margin: int): (xy: (int, int))
    ensures position !in LogoTable(w, h, lw, lh, margin) ==> xy == (w - lw - margin, h - lh - margin)
  {
    var table := LogoTable(w, h, lw, lh, margin);
    if position in table then table[position] else table["bottom-right"]
  }

  /** Any position name other than the five listed places the logo bottom-right. */
  lemma UnknownPositionIsBottomRight(position: string, w: int, h: int, lw: int, lh: int, margin: int)
    requires position !in {"top-left", "top-right", "bottom-left", "bottom-right", "center"}
    ensures LogoPosition(position, w, h, lw, lh, margin) == LogoPosition("bottom-right", w, h, lw, lh, margin)
  {
  }

  /** When the logo and two margins fit across and down, every position keeps the
      logo inside the image, and the four corners keep exactly `margin` from the
      two edges they touch. */
  lemma LogoInside(position: string, w: int, h: int, lw: int, lh: int, margin: int)
    requires 0 <= lw && 0 <= lh && 0 <= margin && lw + 2 * margin <= w && lh + 2 * margin <= h
    ensures var xy := LogoPosition(position, w, h, lw, lh, margin);
      0 <= xy.0 && xy.0 + lw <= w && 0 <= xy.1 && xy.1 + lh <= h
    ensures var xy := LogoPosition(position, w, h, lw, lh, margin);
      position != "center" ==> (xy.0 == margin || w - (xy.0 + lw) == margin) && (xy.1 == margin || h - (xy.1 + lh) == margin)
  {
  }

  // ---------------------------------------------------------------------------
  // Overlay colours

  /** The overlay's default text colour reads as white. */
  lemma OverlayDefaultText()
    ensures HexToRgb("#FFFFFF") == Some(Rgb(255, 255, 255))
  {
    var s := "#FFFFFF";
    assert IsHexLiteral6(s) by { assert forall i | 1 <= i < 7 :: s[i] == 'F'; }
    HexToRgbOfLiteral(s);
    assert DigitValue(s[1]) == 15;
  }

  /** The overlay's default bar colour reads as black. */
  lemma OverlayDefaultBar()
    ensures HexToRgb("#000000") == Some(Rgb(0, 0, 0))
  {
    var s := "#000000";
    assert IsHexLiteral6(s) by { assert forall i | 1 <= i < 7 :: s[i] == '0'; }
    HexToRgbOfLiteral(s);
  }
}
