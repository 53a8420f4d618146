// Where an image lands on its A4 page in the combined PDF.

module ImageLayout {

  const PageWidth: real := 595.0
  const PageHeight: real := 842.0

  function Max(a: real, b: real): real { if a >= b then a else b }
  function Min(a: real, b: real): real { if a <= b then a else b }

  /** The rectangle an image is drawn into, in PDF points from the
      bottom-left corner. */
  datatype Rect = Rect(x: real, y: real, width: real, height: real)

  /** The resize step in front of the placement: shrink to fit inside the
      page keeping the aspect ratio, never enlarge. The library rounds the
      result to whole pixels; the model keeps the exact quotient. */
  function FitInside(w: real, h: real): (r: (real, real))
    requires w > 0.0 && h > 0.0
    ensures 0.0 < r.0 <= PageWidth && 0.0 < r.1 <= PageHeight
    ensures r.0 <= w && r.1 <= h
    ensures r.0 * h == r.1 * w
    ensures w <= PageWidth && h <= PageHeight ==> r == (w, h)
  {
    var s := Min(1.0, Min(PageWidth / w, PageHeight / h));
    assert s * w <= PageWidth by {
      assert s <= PageWidth / w;
    }
    assert s * h <= PageHeight by {
      assert s <= PageHeight / h;
    }
    (s * w, s * h)
  }

  /** `addImageToPDF`'s placement of an image of the given size: centred on
      the 595 x 842 page, the offset clamped at 0 and the drawn size capped at
      the page size. */
  function Placement(w: real, h: real): (r: Rect)
    requires w >= 0.0 && h >= 0.0
    ensures 0.0 <= r.x && r.x + r.width <= PageWidth
    ensures 0.0 <= r.y && r.y + r.height <= PageHeight
    ensures w <= PageWidth ==> r.width == w && 2.0 * r.x + w == PageWidth
    ensures h <= PageHeight ==> r.height == h && 2.0 * r.y + h == PageHeight
    ensures w > PageWidth ==> r.x == 0.0 && r.width == PageWidth
    ensures h > PageHeight ==> r.y == 0.0 && r.height == PageHeight
  {
    var x := (PageWidth - w) / 2.0;
    var y := (PageHeight - h) / 2.0;
    Rect(Max(0.0, x), Max(0.0, y), Min(w, PageWidth), Min(h, PageHeight))
  }

  /** A resized image is drawn whole, at its own size, centred on both
      axes. */
  lemma FittedImageCentred(w: real, h: real)
    requires w > 0.0 && h > 0.0
    ensures var f := FitInside(w, h);
            var r := Placement(f.0, f.1);
            r.width == f.0 && r.height == f.1
            && r.x == PageWidth / 2.0 - f.0 / 2.0 && r.y == PageHeight / 2.0 - f.1 / 2.0
  {
  }
}
