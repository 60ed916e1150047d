/**
  Immutable RGB colours (raylib/ColorVector.cs). Components are exact reals and stay
  unclamped until Clamp is applied.
 */
module Colors {

  datatype Color = Color(r: real, g: real, b: real)

  /** The colour the parameterless constructor stands for in the tracers. */
  const Black := Color(0.0, 0.0, 0.0)
  const White := Color(1.0, 1.0, 1.0)

  predicate InUnit(v: real) {
    0.0 <= v <= 1.0
  }

  predicate IsClamped(c: Color) {
    InUnit(c.r) && InUnit(c.g) && InUnit(c.b)
  }

  /** ClampValue: negative values become 0, values above 1 become 1, the rest stay. */
  function ClampValue(v: real): (r: real)
    ensures InUnit(r)
    ensures v < 0.0 ==> r == 0.0
    ensures v > 1.0 ==> r == 1.0
    ensures InUnit(v) ==> r == v
  {
    if v < 0.0 then 0.0 else if v > 1.0 then 1.0 else v
  }

  /** Every component of a clamped colour lies in [0, 1], and a colour already in range is unchanged. */
  function Clamp(c: Color): (r: Color)
    ensures IsClamped(r)
    ensures IsClamped(c) ==> r == c
  {
    Color(ClampValue(c.r), ClampValue(c.g), ClampValue(c.b))
  }

  /** operator *(ColorVector, double) */
  function Scale(c: Color, s: real): Color {
    Color(c.r * s, c.g * s, c.b * s)
  }

  function Add(a: Color, b: Color): Color {
    Color(a.r + b.r, a.g + b.g, a.b + b.b)
  }

  /** operator *(ColorVector, ColorVector): componentwise product. */
  function Mul(a: Color, b: Color): Color {
    Color(a.r * b.r, a.g * b.g, a.b * b.b)
  }

  /** Blend gives BOTH operands the weight 1 - w: it is the scaled sum, not an interpolation. */
  function Blend(c: Color, other: Color, weight: real): (r: Color)
    ensures r == Scale(Add(c, other), 1.0 - weight)
  {
    var k := 1.0 - weight;
    assert Add(Scale(c, k), Scale(other, k)) == Scale(Add(c, other), k) by {
      Distributes(c.r, other.r, k);
      Distributes(c.g, other.g, k);
      Distributes(c.b, other.b, k);
    }
    Add(Scale(c, k), Scale(other, k))
  }

  lemma Distributes(a: real, b: real, k: real)
    ensures (a + b) * k == a * k + b * k
  {
  }

  lemma ClampIdempotent(c: Color)
    ensures Clamp(Clamp(c)) == Clamp(c)
  {
  }

  /** Weight 1 blends to black; weight 0 gives the plain sum. */
  lemma BlendExtremes(c: Color, other: Color)
    ensures Blend(c, other, 1.0) == Black
    ensures Blend(c, other, 0.0) == Add(c, other)
  {
  }

  /** Blend is symmetric in its two colours, so it never favours either operand. */
  lemma BlendSymmetric(c: Color, other: Color, w: real)
    ensures Blend(c, other, w) == Blend(other, c, w)
  {
  }

  lemma AddCommutativeAssociative(a: Color, b: Color, c: Color)
    ensures Add(a, b) == Add(b, a)
    ensures Add(Add(a, b), c) == Add(a, Add(b, c))
  {
  }

  lemma MulCommutativeAssociative(a: Color, b: Color, c: Color)
    ensures Mul(a, b) == Mul(b, a)
    ensures Mul(Mul(a, b), c) == Mul(a, Mul(b, c))
  {
  }

  lemma ScaleByOneAndZero(c: Color)
    ensures Scale(c, 1.0) == c
    ensures Scale(c, 0.0) == Black
  {
  }
}
