// The code image attached to every uploaded file: where the white plate
// and the brand mark go, and which image comes back.

module QrCode {

  import opened Records

  /** The rendered code's edge length in pixels. */
  const QrWidth: nat := 300
  const LogoSize: int := 80
  const CircleSize: int := LogoSize + 10

  /** `Math.round(n / 2)` for an integer `n`: the integer nearest to `n / 2`,
      halves rounded up. */
  function RoundHalf(n: int): (r: int)
    ensures r as real <= n as real / 2.0 + 0.5 < r as real + 1.0
  {
    (n + 1) / 2
  }

  /** The top-left corners of the white plate and of the brand mark. */
  datatype Overlay = Overlay(circleX: int, circleY: int, logoX: int, logoY: int)

  /** The positions `generateQRCode` computes from the code's size. */
  function OverlayGeometry(width: int, height: int): (o: Overlay)
    ensures o.logoX == o.circleX + 5 && o.logoY == o.circleY + 5
    ensures -1 <= 2 * o.circleX + CircleSize - width <= 1
    ensures -1 <= 2 * o.circleY + CircleSize - height <= 1
    ensures -1 <= 2 * o.logoX + LogoSize - width <= 1
    ensures -1 <= 2 * o.logoY + LogoSize - height <= 1
    ensures width >= CircleSize ==> 0 <= o.circleX && o.circleX + CircleSize <= width
    ensures height >= CircleSize ==> 0 <= o.circleY && o.circleY + CircleSize <= height
  {
    Overlay(RoundHalf(width - CircleSize), RoundHalf(height - CircleSize),
            RoundHalf(width - LogoSize), RoundHalf(height - LogoSize))
  }

  /** The mark sits inside the plate, 5 pixels in from each edge. */
  lemma LogoInsidePlate(width: int, height: int)
    ensures var o := OverlayGeometry(width, height);
            o.circleX < o.logoX && o.logoX + LogoSize < o.circleX + CircleSize
            && o.circleY < o.logoY && o.logoY + LogoSize < o.circleY + CircleSize
  {
  }

  /** On the 300-pixel code the plate starts at (105, 105) and the mark at
      (110, 110). */
  lemma DefaultOverlay()
    ensures OverlayGeometry(QrWidth, QrWidth) == Overlay(105, 105, 110, 110)
  {
  }

  /** `generateQRCode`: the code for `url`, with the mark composited when
      the logo file exists; when any step of the composite throws, a plain
      code is returned instead. */
  function GenerateQr(url: string, logoExists: bool, compositeFails: bool): (q: QrImage)
    ensures q.text == url
    ensures q.withLogo <==> logoExists && !compositeFails
  {
    if compositeFails then QrImage(url, false)
    else if logoExists then QrImage(url, true)
    else QrImage(url, false)
  }
}
