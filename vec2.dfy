// Two-dimensional vectors of the game world (src/vec2.rs). The source uses
// f32; the model uses real and says nothing about rounding.

module Vectors {

  datatype Vec2 = Vec2(x: real, y: real)
  {
    /** Scalar product, `Vec2::dot`. */
    function Dot(rhs: Vec2): real {
      x * rhs.x + y * rhs.y
    }

    /** Unit vector pointing right on screen (x grows to the right). */
    static function Right(): Vec2 { Vec2(1.0, 0.0) }

    static function Left(): Vec2 { Vec2(-1.0, 0.0) }

    /** Screen coordinates: y grows downwards, so "up" has a negative y. */
    static function Up(): Vec2 { Vec2(0.0, -1.0) }

    static function Down(): Vec2 { Vec2(0.0, 1.0) }

    function SquaredLength(): real {
      x * x + y * y
    }

    /** `impl Add for Vec2`. */
    function Add(other: Vec2): Vec2 {
      Vec2(x + other.x, y + other.y)
    }

    /** `impl Sub for Vec2`. */
    function Sub(other: Vec2): Vec2 {
      Vec2(x - other.x, y - other.y)
    }

    /** `impl Mul<f32> for Vec2`: scale both components. */
    function Scale(factor: real): Vec2 {
      Vec2(x * factor, y * factor)
    }
  }

  /** `impl AddAssign for Vec2`: adds `other` into `v` component by component.
      The borrowed `&mut self` is passed in and its new value returned. */
  method AddAssign(v: Vec2, other: Vec2) returns (r: Vec2)
    ensures r == v.Add(other)
    ensures r.Sub(other) == v
  {
    r := v;
    r := r.(x := r.x + other.x);
    r := r.(y := r.y + other.y);
  }

  /** `impl MulAssign for Vec2`: the component-wise (Hadamard) product. */
  method MulAssign(v: Vec2, other: Vec2) returns (r: Vec2)
    ensures r.x == v.x * other.x && r.y == v.y * other.y
    ensures other.x == other.y ==> r == v.Scale(other.x)
    ensures other == Vec2(1.0, 1.0) ==> r == v
  {
    r := v;
    r := r.(x := r.x * other.x);
    r := r.(y := r.y * other.y);
  }

  lemma DotSymmetric(a: Vec2, b: Vec2)
    ensures a.Dot(b) == b.Dot(a)
  {
  }

  /** The dot product is linear in its first argument. */
  lemma DotLinear(a: Vec2, b: Vec2, c: Vec2, s: real)
    ensures a.Add(b).Dot(c) == a.Dot(c) + b.Dot(c)
    ensures a.Sub(b).Dot(c) == a.Dot(c) - b.Dot(c)
    ensures a.Scale(s).Dot(c) == s * a.Dot(c)
  {
  }

  lemma SquaredLengthIsSelfDot(v: Vec2)
    ensures v.SquaredLength() == v.Dot(v)
  {
  }

  /** The four axis vectors have unit length. */
  lemma AxisVectorsAreUnits()
    ensures Vec2.Right().SquaredLength() == 1.0 && Vec2.Left().SquaredLength() == 1.0
    ensures Vec2.Up().SquaredLength() == 1.0 && Vec2.Down().SquaredLength() == 1.0
  {
  }

  /** Left and up are right and down reversed. */
  lemma OppositeAxes()
    ensures Vec2.Left() == Vec2.Right().Scale(-1.0) && Vec2.Up() == Vec2.Down().Scale(-1.0)
  {
  }

  /** Neighbours in the order right, down, left, up are perpendicular, and a
      walk along all four returns to where it started. */
  lemma AxisVectorsPerpendicular()
    ensures Vec2.Right().Dot(Vec2.Down()) == 0.0 && Vec2.Down().Dot(Vec2.Left()) == 0.0
    ensures Vec2.Left().Dot(Vec2.Up()) == 0.0 && Vec2.Up().Dot(Vec2.Right()) == 0.0
    ensures Vec2.Right().Add(Vec2.Down()).Add(Vec2.Left()).Add(Vec2.Up()) == Vec2(0.0, 0.0)
  {
  }

  /** Subtraction undoes addition and the other way round. */
  lemma SubAddCancel(a: Vec2, b: Vec2)
    ensures a.Sub(b).Add(b) == a
    ensures a.Add(b).Sub(b) == a
  {
  }

  lemma AddCommutesAndAssociates(a: Vec2, b: Vec2, c: Vec2)
    ensures a.Add(b) == b.Add(a)
    ensures a.Add(b).Add(c) == a.Add(b.Add(c))
  {
  }

  /** Scaling distributes over addition and composes by multiplication. */
  lemma ScaleLaws(a: Vec2, b: Vec2, s: real, t: real)
    ensures a.Add(b).Scale(s) == a.Scale(s).Add(b.Scale(s))
    ensures a.Scale(s).Scale(t) == a.Scale(s * t)
    ensures a.Scale(1.0) == a
  {
  }
}
