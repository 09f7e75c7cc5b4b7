/** Exact two-dimensional vectors: the part of Phaser's Vector2 the game uses
    (clone/add/subtract/scale), over unbounded reals.  Lengths are only ever
    compared squared, so no square root appears. */
module Vectors {

  datatype Vec2 = Vec2(x: real, y: real)

  const Zero: Vec2 := Vec2(0.0, 0.0)

  function Add(a: Vec2, b: Vec2): Vec2 {
    Vec2(a.x + b.x, a.y + b.y)
  }

  function Sub(a: Vec2, b: Vec2): Vec2 {
    Vec2(a.x - b.x, a.y - b.y)
  }

  function Scale(a: Vec2, k: real): Vec2 {
    Vec2(a.x * k, a.y * k)
  }

  function Dot(a: Vec2, b: Vec2): real {
    a.x * b.x + a.y * b.y
  }

  /** z-component of the 3D cross product; zero exactly when a and b are parallel */
  function Cross(a: Vec2, b: Vec2): real {
    a.x * b.y - a.y * b.x
  }

  /** Squared Euclidean length */
  function LenSq(a: Vec2): real {
    a.x * a.x + a.y * a.y
  }

  /** Squared Euclidean distance between two points */
  function DistSq(a: Vec2, b: Vec2): real {
    LenSq(Sub(a, b))
  }

  /** x² + y² is positive as soon as x is non-zero */
  lemma SumOfSquaresPositive(x: real, y: real)
    requires x != 0.0
    ensures x * x + y * y > 0.0
  {
    if x < 0.0 {
      assert (-x) * (-x) > 0.0;
    }
    if y < 0.0 {
      assert (-y) * (-y) >= 0.0;
    }
  }

  lemma SumOfSquaresNonNegative(x: real, y: real)
    ensures x * x + y * y >= 0.0
  {
    if x < 0.0 {
      assert (-x) * (-x) >= 0.0;
    }
    if y < 0.0 {
      assert (-y) * (-y) >= 0.0;
    }
  }

  lemma LenSqNonNegative(a: Vec2)
    ensures LenSq(a) >= 0.0
  {
    calc {
      LenSq(a);
    ==
      a.x * a.x + a.y * a.y;
    >= { SumOfSquaresNonNegative(a.x, a.y); }
      0.0;
    }
  }

  lemma LenSqPositive(a: Vec2)
    requires a != Zero
    ensures LenSq(a) > 0.0
  {
    if a.x != 0.0 {
      calc {
        LenSq(a);
      ==
        a.x * a.x + a.y * a.y;
      > { SumOfSquaresPositive(a.x, a.y); }
        0.0;
      }
    } else {
      calc {
        LenSq(a);
      ==
        a.y * a.y + a.x * a.x;
      > { SumOfSquaresPositive(a.y, a.x); }
        0.0;
      }
    }
  }

  lemma SubNonZero(a: Vec2, b: Vec2)
    requires a != b
    ensures Sub(a, b) != Zero
  {
  }

  lemma ScaleSquares(x: real, y: real, k: real)
    ensures (x * k) * (x * k) + (y * k) * (y * k) == k * k * (x * x + y * y)
  {
  }

  lemma LenSqScale(a: Vec2, k: real)
    ensures LenSq(Scale(a, k)) == k * k * LenSq(a)
  {
    calc {
      LenSq(Scale(a, k));
    ==
      (a.x * k) * (a.x * k) + (a.y * k) * (a.y * k);
    == { ScaleSquares(a.x, a.y, k); }
      k * k * (a.x * a.x + a.y * a.y);
    ==
      k * k * LenSq(a);
    }
  }

  /** For a non-negative magnitude d, `d < r` holds exactly when r is positive
      and d² < r²; this is what lets the model compare squared distances. */
  lemma SquaredComparison(d: real, r: real)
    requires d >= 0.0
    ensures d < r <==> (r > 0.0 && d * d < r * r)
  {
    var dd, dr, rr := d * d, d * r, r * r;
    if d < r {
      assert dd <= dr < rr;
    } else if r > 0.0 {
      assert rr <= dr <= dd;
    }
  }
}
