/**
  Surface materials (raylib/BaseMaterial.cs, raylib/SolidMaterial.cs,
  raylib/ChessboardMaterial.cs). A material is the four base coefficients plus a
  colour pattern: one solid colour, or a chessboard of two colours.
 */
module Materials {
  import opened Colors
  import opened Wrappers

  datatype Pattern =
    | Solid(color: Color)
    | Chessboard(colorEven: Color, colorOdd: Color, scale: real)

  datatype Material = Material(gloss: real, reflection: real, refraction: real, transparency: real, pattern: Pattern)

  /** The SolidMaterial constructor forwards the four coefficients unchanged. */
  function NewSolid(gloss: real, reflection: real, refraction: real, transparency: real, color: Color): (m: Material)
    ensures m.gloss == gloss && m.reflection == reflection && m.refraction == refraction
    ensures m.transparency == transparency
    ensures !HasTexture(m) && forall u: real, v: real :: GetColor(m, u, v) == color
  {
    Material(gloss, reflection, refraction, transparency, Solid(color))
  }

  /** The ChessboardMaterial constructor; its coefficients reach the base by name
      (kAmbient, kDiffuse and kSpecular have no base field to go to). */
  function NewChessboard(kAmbient: real, kDiffuse: real, kSpecular: real, kReflection: real, kTransparent: real,
                         refraction: real, gloss: real, colorEven: Color, colorOdd: Color, scale: real): (m: Material)
    ensures m.gloss == gloss && m.reflection == kReflection && m.refraction == refraction
    ensures m.transparency == kTransparent
    ensures HasTexture(m) && forall u: real, v: real :: GetColor(m, u, v) in {colorEven, colorOdd}
  {
    Material(gloss, kReflection, refraction, kTransparent, Chessboard(colorEven, colorOdd, scale))
  }

  /** Only the chessboard is textured: an untextured material has one colour everywhere. */
  function HasTexture(m: Material): (r: bool)
    ensures !r ==> forall u: real, v: real :: GetColor(m, u, v) == GetColor(m, 0.0, 0.0)
  {
    m.pattern.Chessboard?
  }

  /** Truncation toward zero, the integer part C# keeps in its remainder. */
  function Trunc(q: real): (n: int)
    ensures q >= 0.0 ==> n as real <= q < n as real + 1.0
    ensures q < 0.0 ==> n as real - 1.0 < q <= n as real
  {
    if q >= 0.0 then q.Floor else -((-q).Floor)
  }

  /** C#'s floating-point `%`: the remainder takes the dividend's sign and is smaller than the divisor. */
  function TruncRem(t: real, s: real): (r: real)
    requires s != 0.0
    ensures s > 0.0 && t >= 0.0 ==> 0.0 <= r < s
    ensures s > 0.0 && t < 0.0 ==> -s < r <= 0.0
  {
    var n := Trunc(t / s);
    assert s > 0.0 ==> (t >= 0.0 ==> s * n as real <= t < s * n as real + s)
                       && (t < 0.0 ==> s * n as real - s < t <= s * n as real) by {
      if s > 0.0 {
        RemainderBounds(t, s, t / s, n as real);
      }
    }
    t - s * n as real
  }

  /** The remainder bounds in terms of the quotient q = t / s and its truncation m. */
  lemma RemainderBounds(t: real, s: real, q: real, m: real)
    requires s > 0.0 && q == t / s
    requires q >= 0.0 ==> m <= q < m + 1.0
    requires q < 0.0 ==> m - 1.0 < q <= m
    ensures t >= 0.0 ==> s * m <= t < s * m + s
    ensures t < 0.0 ==> s * m - s < t <= s * m
  {
    assert s * q == t;
    var up, down := m + 1.0, m - 1.0;
    assert s * up == s * m + s;
    assert s * down == s * m - s;
    if q >= 0.0 {
      assert s * m <= s * q;
      calc {
        t;
      ==
        s * q;
      <
        s * up;
      ==
        s * m + s;
      }
    } else {
      assert s * q <= s * m;
      assert s * q < s * 0.0;
      calc {
        s * m - s;
      ==
        s * down;
      <
        s * q;
      ==
        t;
      }
    }
  }

  /** WrapUpScale: t % scale moved into [-scale/2, scale/2) by at most one shift of scale.
      A zero scale gives NaN in the source, modelled as no value. */
  function WrapUpScale(t: real, scale: real): (r: Option<real>)
    ensures r.None? <==> scale == 0.0
    ensures scale > 0.0 ==> -scale / 2.0 <= r.value < scale / 2.0
  {
    if scale == 0.0 then None
    else
      var x := TruncRem(t, scale);
      var x1 := if x < -scale / 2.0 then x + scale else x;
      Some(if x1 >= scale / 2.0 then x1 - scale else x1)
  }

  /** The wrapped coordinate differs from t by a whole number of scales. */
  lemma WrapUpScaleShift(t: real, scale: real) returns (k: int)
    requires scale != 0.0
    ensures WrapUpScale(t, scale).value == t + k as real * scale
  {
    var n := Trunc(t / scale);
    var x := t - scale * n as real;
    var x1 := if x < -scale / 2.0 then x + scale else x;
    var d1 := if x < -scale / 2.0 then 1 else 0;
    var d2 := if x1 >= scale / 2.0 then -1 else 0;
    k := -n + d1 + d2;
    assert WrapUpScale(t, scale).value == t - scale * n as real + d1 as real * scale + d2 as real * scale;
  }

  /** GetColor: the pattern colour at (u, v); a chessboard picks the even colour exactly when
      the product of the wrapped coordinates is negative (NaN for a zero scale is not). */
  function GetColor(m: Material, u: real, v: real): (c: Color)
    ensures m.pattern.Solid? ==> c == m.pattern.color
    ensures m.pattern.Chessboard? ==> c == m.pattern.colorEven || c == m.pattern.colorOdd
  {
    match m.pattern
    case Solid(color) => color
    case Chessboard(even, odd, scale) =>
      var wu := WrapUpScale(u, scale);
      var wv := WrapUpScale(v, scale);
      if wu.Some? && wv.Some? && wu.value * wv.value < 0.0 then even else odd
  }

  /** The chessboard rule in full: even exactly when both coordinates wrap and their product is negative. */
  lemma ChessboardChoice(m: Material, u: real, v: real)
    requires m.pattern.Chessboard? && m.pattern.colorEven != m.pattern.colorOdd
    ensures GetColor(m, u, v) == m.pattern.colorEven <==>
              (m.pattern.scale != 0.0
               && WrapUpScale(u, m.pattern.scale).value * WrapUpScale(v, m.pattern.scale).value < 0.0)
  {
  }

  lemma SquareNotNegative(x: real)
    ensures x * x >= 0.0
  {
    if x < 0.0 {
      assert x * x == (-x) * (-x);
    }
  }

  /** The texture origin always shows the odd colour: both coordinates wrap to the same value
      (zero for a positive scale), and a square is never negative. */
  lemma ChessboardOriginIsOdd(m: Material)
    requires m.pattern.Chessboard?
    ensures GetColor(m, 0.0, 0.0) == m.pattern.colorOdd
  {
    var w := WrapUpScale(0.0, m.pattern.scale);
    if w.Some? {
      SquareNotNegative(w.value);
    }
  }
}
