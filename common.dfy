/** Values shared by both game engines: optional values, screen points and
    the square-root-free distance comparisons the hit tests rest on. */
module Common {

  datatype Option<+T> = None | Some(value: T)

  /** A tracked hand position in screen pixels, as the pose source reports it. */
  datatype Point = Point(x: real, y: real)

  /** Squared Euclidean distance between (px, py) and (qx, qy). */
  function SquaredDistance(px: real, py: real, qx: real, qy: real): (d2: real)
    ensures d2 >= 0.0
  {
    (px - qx) * (px - qx) + (py - qy) * (py - qy)
  }

  /** `d` is the Euclidean distance whose square is `d2`. */
  predicate IsRoot(d: real, d2: real) {
    0.0 <= d && d * d == d2
  }

  function Abs(x: real): (r: real)
    ensures r >= 0.0 && (r == x || r == -x)
  {
    if x < 0.0 then -x else x
  }

  function Max(a: int, b: int): (r: int)
    ensures r >= a && r >= b && (r == a || r == b)
  {
    if a >= b then a else b
  }

  /** Python's `int(x)` on a float: truncation toward zero. */
  function Trunc(x: real): (r: int)
    ensures 0.0 <= x ==> 0 <= r && r as real <= x < r as real + 1.0
    ensures x < 0.0 ==> r <= 0 && r as real - 1.0 < x <= r as real
  {
    if x >= 0.0 then x.Floor else -((-x).Floor)
  }

  /** For non-negative numbers, comparing squares compares the numbers. */
  lemma SquareLe(a: real, b: real)
    requires 0.0 <= a && 0.0 <= b
    ensures a <= b <==> a * a <= b * b
  {
    if a <= b {
      SquareMono(a, b);
    } else {
      SquareStrictMono(b, a);
    }
  }

  lemma SquareMono(a: real, b: real)
    requires 0.0 <= a <= b
    ensures a * a <= b * b
  {
    assert a * (b - a) >= 0.0;
    assert b * (b - a) >= 0.0;
  }

  lemma SquareStrictMono(a: real, b: real)
    requires 0.0 <= a < b
    ensures a * a < b * b
  {
    assert b * (b - a) > 0.0;
    assert a * (b - a) >= 0.0;
  }

  /** Any root `d` of `d2` lies within radius `r >= 0` exactly when `d2 <= r * r`. */
  lemma WithinRadius(d2: real, r: real)
    requires 0.0 <= r
    ensures forall d :: IsRoot(d, d2) ==> (d <= r <==> d2 <= r * r)
  {
    forall d | IsRoot(d, d2)
      ensures d <= r <==> d2 <= r * r
    {
      SquareLe(d, r);
    }
  }

  /** Any root `d` of `d2` lies strictly inside radius `r` exactly when `0 < r`
      and `d2 < r * r`. */
  lemma InsideRadius(d2: real, r: real)
    ensures forall d :: IsRoot(d, d2) ==> (d < r <==> 0.0 < r && d2 < r * r)
  {
    forall d | IsRoot(d, d2)
      ensures d < r <==> 0.0 < r && d2 < r * r
    {
      if 0.0 < r {
        SquareLe(r, d);
      }
    }
  }
}
