/**
 * Pixel geometry of a detection: Python's int() on a float, and the
 * top-left/size box computed from a row's normalised centre and size.
 */
module Geometry {

  /** A box in pixels: top-left corner (x, y), width w and height h. */
  datatype Box = Box(x: int, y: int, w: int, h: int)

  /**
   * Python's int() applied to a float: truncation toward zero. It agrees
   * with .Floor only on non-negative or whole values.
   */
  function Trunc(r: real): (t: int)
    ensures -1.0 < t as real - r < 1.0
    ensures 0.0 <= r ==> 0 <= t && t as real <= r
    ensures r <= 0.0 ==> t <= 0 && r <= t as real
  {
    if 0.0 <= r then r.Floor else -((-r).Floor)
  }

  /** Truncation and flooring part ways exactly on the negative non-integers. */
  lemma TruncVersusFloor(r: real)
    ensures Trunc(r) == r.Floor <==> (0.0 <= r || r == r.Floor as real)
  {
    if r < 0.0 && r != r.Floor as real {
      assert r.Floor as real < r;
      assert r <= Trunc(r) as real;
    }
  }

  /**
   * The box of a detector row whose first four columns are the normalised
   * centre (cx, cy) and size (bw, bh): centre and size are scaled by the
   * frame dimensions and truncated, then the corner is the truncated centre
   * minus half the truncated size, truncated again.
   */
  function PixelBox(cx: real, cy: real, bw: real, bh: real, width: int, height: int): (b: Box)
    // the size is the scaled size, truncated toward zero
    ensures -1.0 < b.w as real - bw * width as real < 1.0
    ensures -1.0 < b.h as real - bh * height as real < 1.0
    ensures 0.0 <= bw * width as real ==> 0 <= b.w && b.w as real <= bw * width as real
    ensures 0.0 <= bh * height as real ==> 0 <= b.h && b.h as real <= bh * height as real
    // the box is centred on the scaled centre to within two pixels of truncation error
    ensures -2.0 < b.x as real + b.w as real / 2.0 - cx * width as real < 2.0
    ensures -2.0 < b.y as real + b.h as real / 2.0 - cy * height as real < 2.0
  {
    var centerX := Trunc(cx * width as real);
    var centerY := Trunc(cy * height as real);
    var w := Trunc(bw * width as real);
    var h := Trunc(bh * height as real);
    var x := Trunc(centerX as real - w as real / 2.0);
    var y := Trunc(centerY as real - h as real / 2.0);
    Box(x, y, w, h)
  }
}
