/** Positions, the truncated distance between them, and Go's truncating division. */
module Geometry {
  /** The side of a grid cell, of the registry's and of the active regions. */
  const REGION_SIZE := 1000

  datatype Position = Position(x: int, y: int, z: int)

  /** The integer square root, which truncating the float square root gives inside the map bounds. */
  function ISqrt(n: nat): (r: nat)
    ensures r * r <= n < (r + 1) * (r + 1)
  {
    if n == 0 then 0 else
    var r := ISqrt(n - 1);
    if (r + 1) * (r + 1) <= n then r + 1 else r
  }

  /** The straight distance on the ground, rounded down. */
  function Distance(a: Position, b: Position): (d: nat)
    ensures d * d <= (a.x - b.x) * (a.x - b.x) + (a.y - b.y) * (a.y - b.y) < (d + 1) * (d + 1)
  {
    var dx, dy := a.x - b.x, a.y - b.y;
    Square(dx); Square(dy);
    ISqrt(dx * dx + dy * dy)
  }

  lemma Square(d: int)
    ensures d * d >= 0
  {}

  /** On the ground, less than one unit beyond the radius away: the square of the distance says so. */
  ghost predicate InReach(a: Position, b: Position, radius: nat) {
    (a.x - b.x) * (a.x - b.x) + (a.y - b.y) * (a.y - b.y) < (radius + 1) * (radius + 1)
  }

  lemma WithinRadius(a: Position, b: Position, radius: nat)
    ensures Distance(a, b) <= radius <==> InReach(a, b, radius)
  {
    hide Distance;
    var d := Distance(a, b);
    if d <= radius { Smaller(d + 1, radius + 1); } else { Smaller(radius + 1, d); }
  }

  lemma Smaller(a: nat, b: nat)
    requires a <= b
    ensures a * a <= b * b
  {
    assert b * b - a * a == (b - a) * (b + a);
  }

  lemma DistanceSymmetric(a: Position, b: Position)
    ensures Distance(a, b) == Distance(b, a)
  {
    var dx, dy := a.x - b.x, a.y - b.y;
    assert (-dx) * (-dx) == dx * dx && (-dy) * (-dy) == dy * dy;
  }

  lemma SquareBelow(d: int, r: int)
    requires 0 <= r && d * d < (r + 1) * (r + 1)
    ensures -r <= d <= r
  {
    assert d > r ==> d * d >= (r + 1) * (r + 1);
    assert d < -r ==> (-d) * (-d) >= (r + 1) * (r + 1);
  }

  /** A point within the truncated distance lies in the axis-aligned box of that radius. */
  lemma WithinBox(a: Position, b: Position, r: nat)
    requires Distance(a, b) <= r
    ensures a.x - r <= b.x <= a.x + r && a.y - r <= b.y <= a.y + r
  {
    var dx, dy, s := a.x - b.x, a.y - b.y, Distance(a, b);
    Square(dx); Square(dy);
    assert (s + 1) * (s + 1) <= (r + 1) * (r + 1);
    SquareBelow(dx, r);
    SquareBelow(dy, r);
  }

  /** Go's integer division by a positive divisor: it truncates towards zero. */
  function TruncDiv(a: int, d: int): (q: int)
    requires d > 0
    ensures if a >= 0 then q * d <= a < (q + 1) * d else (q - 1) * d < a <= q * d
  {
    if a >= 0 then a / d else -((-a) / d)
  }

  lemma DivMonotone(a: nat, b: nat, d: int)
    requires a <= b && d > 0
    ensures a / d <= b / d
  {
    var p, q := a / d, b / d;
    assert p > q ==> p * d >= (q + 1) * d;
  }

  lemma TruncDivMonotone(a: int, b: int, d: int)
    requires a <= b && d > 0
    ensures TruncDiv(a, d) <= TruncDiv(b, d)
  {
    if a >= 0 { DivMonotone(a, b, d); }
    else if b < 0 { DivMonotone(-b, -a, d); }
    else { DivMonotone(0, b, d); DivMonotone(0, -a, d); }
  }
}
