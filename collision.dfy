/** The two collision tests of main.js: box-box overlap and circle-box contact. */
module Collision {
  import opened Utils

  /** Strict overlap of the boxes (aX, aY, aW, aH) and (bX, bY, bW, bH). */
  predicate Aabb(aX: real, aY: real, aW: real, aH: real, bX: real, bY: real, bW: real, bH: real)
  {
    aX < bX + bW && aX + aW > bX && aY < bY + bH && aY + aH > bY
  }

  /** The point (px, py) lies strictly inside the box (x, y, w, h). */
  predicate InsideOpen(px: real, py: real, x: real, y: real, w: real, h: real)
  {
    x < px < x + w && y < py < y + h
  }

  /** The circle (cx, cy, cr) touches the box (rx, ry, rw, rh): the point of the box nearest
      to the centre (the centre clamped into the box) is at most cr away. */
  predicate CircleRect(cx: real, cy: real, cr: real, rx: real, ry: real, rw: real, rh: real)
  {
    var nx := Clamp(cx, rx, rx + rw);
    var ny := Clamp(cy, ry, ry + rh);
    var dx := cx - nx;
    var dy := cy - ny;
    dx * dx + dy * dy <= cr * cr
  }

  /** Box overlap does not depend on which box comes first. */
  lemma AabbSymmetric(aX: real, aY: real, aW: real, aH: real, bX: real, bY: real, bW: real, bH: real)
    ensures Aabb(aX, aY, aW, aH, bX, bY, bW, bH) == Aabb(bX, bY, bW, bH, aX, aY, aW, aH)
  {
  }

  /** For boxes of positive size, the overlap test holds exactly when some point lies
      strictly inside both boxes. */
  lemma AabbCommonPoint(aX: real, aY: real, aW: real, aH: real, bX: real, bY: real, bW: real, bH: real)
    requires aW > 0.0 && aH > 0.0 && bW > 0.0 && bH > 0.0
    ensures Aabb(aX, aY, aW, aH, bX, bY, bW, bH) <==>
            exists px, py :: InsideOpen(px, py, aX, aY, aW, aH) && InsideOpen(px, py, bX, bY, bW, bH)
  {
    if Aabb(aX, aY, aW, aH, bX, bY, bW, bH) {
      var px := (Max(aX, bX) + Min(aX + aW, bX + bW)) / 2.0;
      var py := (Max(aY, bY) + Min(aY + aH, bY + bH)) / 2.0;
      assert InsideOpen(px, py, aX, aY, aW, aH) && InsideOpen(px, py, bX, bY, bW, bH);
    }
  }

  /** A circle whose centre is inside the box always touches it. */
  lemma CircleRectCentreInside(cx: real, cy: real, cr: real, rx: real, ry: real, rw: real, rh: real)
    requires rx <= cx <= rx + rw && ry <= cy <= ry + rh
    ensures CircleRect(cx, cy, cr, rx, ry, rw, rh)
  {
    assert cr * cr >= 0.0 by { SquareNonNegative(cr); }
  }

  /** A touching circle has its centre within cr of the box on both axes: its bounding
      square meets the (closed) box. */
  lemma CircleRectNear(cx: real, cy: real, cr: real, rx: real, ry: real, rw: real, rh: real)
    requires cr >= 0.0 && rw >= 0.0 && rh >= 0.0
    requires CircleRect(cx, cy, cr, rx, ry, rw, rh)
    ensures rx - cr <= cx <= rx + rw + cr
    ensures ry - cr <= cy <= ry + rh + cr
  {
    var dx := cx - Clamp(cx, rx, rx + rw);
    var dy := cy - Clamp(cy, ry, ry + rh);
    SquareNonNegative(dx);
    SquareNonNegative(dy);
    SquareBound(dx, cr);
    SquareBound(dy, cr);
  }

  lemma SquareNonNegative(d: real)
    ensures d * d >= 0.0
  {
    if d < 0.0 {
      assert d * d == (-d) * (-d);
    }
  }

  /** d * d <= c * c with c >= 0 bounds d by c on both sides. */
  lemma SquareBound(d: real, c: real)
    requires c >= 0.0 && d * d <= c * c
    ensures -c <= d <= c
  {
    SquareMonotone(c, d);
    SquareMonotone(c, -d);
    assert (-d) * (-d) == d * d;
  }

  lemma SquareMonotone(c: real, d: real)
    ensures 0.0 <= c < d ==> c * c < d * d
  {
    if 0.0 <= c < d {
      assert d * d - c * d == d * (d - c);
      assert d * (d - c) > 0.0;
      assert c * d - c * c == c * (d - c);
      assert c * (d - c) >= 0.0;
    }
  }
}
