/**
  Immutable three-dimensional vectors (raylib/PosVector.cs). Coordinates are exact
  reals; the square root behind Magnitude and Normalize is a parameter.
 */
module Vectors {

  datatype Vec = Vec(x: real, y: real, z: real)

  /** NewDefault: the origin. */
  const Origin := Vec(0.0, 0.0, 0.0)
  const UnitX := Vec(1.0, 0.0, 0.0)
  const UnitY := Vec(0.0, 1.0, 0.0)
  const UnitZ := Vec(0.0, 0.0, 1.0)

  function Add(a: Vec, b: Vec): Vec {
    Vec(a.x + b.x, a.y + b.y, a.z + b.z)
  }

  function Sub(a: Vec, b: Vec): Vec {
    Vec(a.x - b.x, a.y - b.y, a.z - b.z)
  }

  /** operator *(PosVector, double) */
  function Scale(a: Vec, s: real): Vec {
    Vec(a.x * s, a.y * s, a.z * s)
  }

  /** operator /(PosVector, double); the source divides by zero freely (giving
      infinities), so every caller here guards the divisor. */
  function Div(a: Vec, s: real): Vec
    requires s != 0.0
  {
    Vec(a.x / s, a.y / s, a.z / s)
  }

  function Dot(a: Vec, b: Vec): real {
    a.x * b.x + a.y * b.y + a.z * b.z
  }

  /** The cross product is orthogonal to both operands. */
  function Cross(a: Vec, b: Vec): (r: Vec)
    ensures Dot(a, r) == 0.0 && Dot(b, r) == 0.0
  {
    var r := Vec(a.y * b.z - a.z * b.y, a.z * b.x - a.x * b.z, a.x * b.y - a.y * b.x);
    assert Dot(a, r) == a.x * (a.y * b.z) - a.x * (a.z * b.y) + a.y * (a.z * b.x) - a.y * (a.x * b.z)
                        + a.z * (a.x * b.y) - a.z * (a.y * b.x);
    assert Dot(b, r) == b.x * (a.y * b.z) - b.x * (a.z * b.y) + b.y * (a.z * b.x) - b.y * (a.x * b.z)
                        + b.z * (a.x * b.y) - b.z * (a.y * b.x);
    r
  }

  /** AddScaled(b, s) is this + b * s. */
  function AddScaled(a: Vec, b: Vec, s: real): (r: Vec)
    ensures r == Add(a, Scale(b, s))
  {
    assert s * b.x == b.x * s && s * b.y == b.y * s && s * b.z == b.z * s;
    Vec(a.x + s * b.x, a.y + s * b.y, a.z + s * b.z)
  }

  /** The squared length is the vector's dot product with itself and never negative. */
  function MagnitudeSquared(a: Vec): (r: real)
    ensures r == Dot(a, a)
    ensures r >= 0.0
  {
    SquareNonNegative(a.x);
    SquareNonNegative(a.y);
    SquareNonNegative(a.z);
    a.x * a.x + a.y * a.y + a.z * a.z
  }

  lemma SquareNonNegative(v: real)
    ensures v * v >= 0.0
  {
    if v < 0.0 {
      assert v * v == (-v) * (-v);
    }
  }

  /** Only the origin has squared length zero. */
  lemma ZeroLengthIffOrigin(a: Vec)
    ensures MagnitudeSquared(a) == 0.0 <==> a == Origin
  {
    SquareNonNegative(a.x);
    SquareNonNegative(a.y);
    SquareNonNegative(a.z);
    ZeroSquareIffZero(a.x);
    ZeroSquareIffZero(a.y);
    ZeroSquareIffZero(a.z);
  }

  lemma ZeroSquareIffZero(u: real)
    ensures u * u == 0.0 <==> u == 0.0
  {
    if u != 0.0 {
      var w := 1.0 / u;
      assert u * w == 1.0;
      calc {
        (u * u) * w;
        u * (u * w);
        u;
      }
    }
  }

  /** Magnitude is the (abstract) square root of the squared length. */
  function Magnitude(a: Vec, sqrt: real -> real): real {
    sqrt(MagnitudeSquared(a))
  }

  /** Normalize divides by the magnitude. A zero magnitude, where the source
      produces NaN components, leaves the vector unchanged here. */
  function Normalize(a: Vec, sqrt: real -> real): (r: Vec)
    ensures Magnitude(a, sqrt) != 0.0 ==> Scale(r, Magnitude(a, sqrt)) == a
  {
    var m := Magnitude(a, sqrt);
    if m == 0.0 then a else Div(a, m)
  }

  lemma DotCommutative(a: Vec, b: Vec)
    ensures Dot(a, b) == Dot(b, a)
  {
  }

  lemma DotLinearLeft(a: Vec, b: Vec, c: Vec, s: real)
    ensures Dot(Add(a, b), c) == Dot(a, c) + Dot(b, c)
    ensures Dot(Scale(a, s), c) == s * Dot(a, c)
  {
  }

  lemma DotLinearRight(a: Vec, b: Vec, c: Vec, s: real)
    ensures Dot(c, Add(a, b)) == Dot(c, a) + Dot(c, b)
    ensures Dot(c, Scale(a, s)) == s * Dot(c, a)
  {
  }

  lemma CrossAntiCommutative(a: Vec, b: Vec)
    ensures Cross(a, b) == Scale(Cross(b, a), -1.0)
  {
  }

  lemma CrossSelfIsZero(a: Vec)
    ensures Cross(a, a) == Origin
  {
  }

  /** (a + b) - b == a and (a / s) * s == a for s != 0. */
  lemma AddSubCancel(a: Vec, b: Vec)
    ensures Sub(Add(a, b), b) == a
  {
  }

  lemma DivScaleCancel(a: Vec, s: real)
    requires s != 0.0
    ensures Scale(Div(a, s), s) == a
  {
  }

  /** The unit vectors have length one, are pairwise orthogonal and right-handed. */
  lemma UnitVectors()
    ensures Dot(UnitX, UnitX) == 1.0 && Dot(UnitY, UnitY) == 1.0 && Dot(UnitZ, UnitZ) == 1.0
    ensures Dot(UnitX, UnitY) == 0.0 && Dot(UnitY, UnitZ) == 0.0 && Dot(UnitX, UnitZ) == 0.0
    ensures Cross(UnitX, UnitY) == UnitZ && Cross(UnitY, UnitZ) == UnitX && Cross(UnitZ, UnitX) == UnitY
  {
    DotWithUnitAxes(UnitX);
    DotWithUnitAxes(UnitY);
    DotWithUnitAxes(UnitZ);
    CrossWithUnitAxes(UnitX);
    CrossWithUnitAxes(UnitY);
    CrossWithUnitAxes(UnitZ);
  }

  /** A vector's coordinate along a unit axis is its dot product with that axis. */
  lemma DotWithUnitAxes(a: Vec)
    ensures Dot(UnitX, a) == a.x && Dot(UnitY, a) == a.y && Dot(UnitZ, a) == a.z
  {
  }

  lemma CrossWithUnitAxes(b: Vec)
    ensures Cross(UnitX, b) == Vec(0.0, -b.z, b.y)
    ensures Cross(UnitY, b) == Vec(b.z, 0.0, -b.x)
    ensures Cross(UnitZ, b) == Vec(-b.y, b.x, 0.0)
  {
  }
}
