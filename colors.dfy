/** Colour values of the image-diff kernel and the small arithmetic helpers
    on them: component-wise operators, clamping and blending.
    A float channel is modelled as a `real`; a byte channel as `Byte`. */
module Colors {

  /** An 8-bit unsigned channel value. */
  newtype Byte = x: int | 0 <= x < 256

  /** A pixel with float channels, stored in the order b, g, r, a. */
  datatype Color = Color(b: real, g: real, r: real, a: real)

  /** A pixel with byte channels, stored in the order b, g, r, a. */
  datatype BColor = BColor(b: Byte, g: Byte, r: Byte, a: Byte)

  /** Builds a colour from its channels given alpha first. */
  function Argb(a: real, r: real, g: real, b: real): (c: Color)
    ensures c.a == a && c.r == r && c.g == g && c.b == b
  {
    Color(b, g, r, a)
  }

  /** Component-wise difference `a - b`. */
  function Minus(a: Color, b: Color): Color
  {
    Argb(a.a - b.a, a.r - b.r, a.g - b.g, a.b - b.b)
  }

  /** Component-wise sum `a + b`. */
  function Plus(a: Color, b: Color): Color
  {
    Argb(a.a + b.a, a.r + b.r, a.g + b.g, a.b + b.b)
  }

  /** Component-wise product `a * b`. */
  function Times(a: Color, b: Color): Color
  {
    Argb(a.a * b.a, a.r * b.r, a.g * b.g, a.b * b.b)
  }

  /** Every channel multiplied by `mul`. */
  function Scale(a: Color, mul: real): Color
  {
    Argb(a.a * mul, a.r * mul, a.g * mul, a.b * mul)
  }

  /** Adding back what was subtracted recovers the original colour. */
  lemma PlusMinusInverse(a: Color, b: Color)
    ensures Plus(b, Minus(a, b)) == a
    ensures Minus(Plus(a, b), b) == a
  {
  }

  /** Every channel lies in the unit interval. */
  predicate InUnit(c: Color)
  {
    0.0 <= c.b <= 1.0 && 0.0 <= c.g <= 1.0 && 0.0 <= c.r <= 1.0 && 0.0 <= c.a <= 1.0
  }

  /** Clamps a value into [0, 1]: negative values become 0, values above 1 become 1. */
  function Clamp01(v: real): (r: real)
    ensures 0.0 <= r <= 1.0
    ensures 0.0 <= v <= 1.0 ==> r == v
    ensures v < 0.0 ==> r == 0.0
    ensures v > 1.0 ==> r == 1.0
  {
    if v < 0.0 then 0.0 else if v > 1.0 then 1.0 else v
  }

  /** Clamps every channel of a colour into [0, 1]. */
  function Saturate(c: Color): (s: Color)
    ensures InUnit(s)
    ensures InUnit(c) ==> s == c
    ensures s.a == Clamp01(c.a) && s.r == Clamp01(c.r) && s.g == Clamp01(c.g) && s.b == Clamp01(c.b)
  {
    Argb(Clamp01(c.a), Clamp01(c.r), Clamp01(c.g), Clamp01(c.b))
  }

  /** Linear interpolation `a + (b - a) * t` with `t` clamped to [0, 1] first. */
  function Lerp(a: Color, b: Color, t: real): Color
  {
    var u := Clamp01(t);
    Plus(a, Scale(Minus(b, a), u))
  }

  /** Blend `a * (1 - t) + b * t` with `t` clamped to [0, 1] first. */
  function Mix(a: Color, b: Color, t: real): (m: Color)
    ensures t <= 0.0 ==> m == a
    ensures t >= 1.0 ==> m == b
  {
    var u := Clamp01(t);
    Plus(Scale(a, 1.0 - u), Scale(b, u))
  }

  /** The weight is clamped before blending, so it can be clamped beforehand with no effect. */
  lemma MixClampsFirst(a: Color, b: Color, t: real)
    ensures Mix(a, b, t) == Mix(a, b, Clamp01(t))
  {
  }

  /** The channels of a blend, with the clamped weight `u`. */
  lemma MixChannels(a: Color, b: Color, t: real, u: real)
    requires u == Clamp01(t)
    ensures Mix(a, b, t).a == a.a * (1.0 - u) + b.a * u
    ensures Mix(a, b, t).r == a.r * (1.0 - u) + b.r * u
    ensures Mix(a, b, t).g == a.g * (1.0 - u) + b.g * u
    ensures Mix(a, b, t).b == a.b * (1.0 - u) + b.b * u
  {
  }

  /** The two blending helpers compute the same colour for every weight. */
  lemma LerpAgreesWithMix(a: Color, b: Color, t: real)
    ensures Lerp(a, b, t) == Mix(a, b, t)
  {
    var u := Clamp01(t);
    ChannelLerp(a.a, b.a, u);
    ChannelLerp(a.r, b.r, u);
    ChannelLerp(a.g, b.g, u);
    ChannelLerp(a.b, b.b, u);
  }

  lemma ChannelLerp(x: real, y: real, u: real)
    ensures x + (y - x) * u == x * (1.0 - u) + y * u
  {
  }

  /** A weight in [0, 1] blends two values of [0, 1] into [0, 1]. */
  lemma ChannelBlendInUnit(x: real, y: real, u: real, m: real)
    requires 0.0 <= x <= 1.0 && 0.0 <= y <= 1.0 && 0.0 <= u <= 1.0
    requires m == x * (1.0 - u) + y * u
    ensures 0.0 <= m <= 1.0
  {
    var v := 1.0 - u;
    ProductBounds(x, v);
    ProductBounds(y, u);
    SumBound(x * v, y * u, v, u);
  }

  lemma SumBound(p: real, q: real, v: real, u: real)
    requires 0.0 <= p <= v && 0.0 <= q <= u
    ensures 0.0 <= p + q <= v + u
  {
  }

  /** Blending two colours of the unit cube stays in the unit cube, whatever the weight. */
  lemma MixInUnit(a: Color, b: Color, t: real)
    requires InUnit(a) && InUnit(b)
    ensures InUnit(Mix(a, b, t))
  {
    var u := Clamp01(t);
    var m := Mix(a, b, t);
    MixChannels(a, b, t, u);
    ChannelBlendInUnit(a.a, b.a, u, m.a);
    ChannelBlendInUnit(a.r, b.r, u, m.r);
    ChannelBlendInUnit(a.g, b.g, u, m.g);
    ChannelBlendInUnit(a.b, b.b, u, m.b);
  }

  lemma ChannelProductInUnit(x: real, y: real)
    requires 0.0 <= x <= 1.0 && 0.0 <= y <= 1.0
    ensures 0.0 <= x * y <= 1.0
  {
    ProductBounds(x, y);
  }

  /** A factor in [0, 1] scales a non-negative value down. */
  lemma ProductBounds(x: real, y: real)
    requires 0.0 <= x <= 1.0 && 0.0 <= y
    ensures 0.0 <= x * y <= y
  {
    assert (1.0 - x) * y >= 0.0;
  }

  /** The component-wise product of two colours of the unit cube stays in it. */
  lemma TimesInUnit(a: Color, b: Color)
    requires InUnit(a) && InUnit(b)
    ensures InUnit(Times(a, b))
  {
    ChannelProductInUnit(a.a, b.a);
    ChannelProductInUnit(a.r, b.r);
    ChannelProductInUnit(a.g, b.g);
    ChannelProductInUnit(a.b, b.b);
  }

  /** Byte to float channel: the byte's value divided by 255. */
  function ChannelToFloat(v: Byte): (x: real)
    ensures 0.0 <= x <= 1.0
    ensures x * 255.0 == v as real
  {
    v as real / 255.0
  }

  /** A byte colour to a float colour, each channel divided by 255. */
  function ConvertToFloat(col: BColor): (c: Color)
    ensures InUnit(c)
  {
    Argb(ChannelToFloat(col.a), ChannelToFloat(col.r), ChannelToFloat(col.g), ChannelToFloat(col.b))
  }

  /** Rounds toward zero, as a C++ float-to-integer conversion does. */
  function Truncate(x: real): (n: int)
    ensures x >= 0.0 ==> n as real <= x < n as real + 1.0
    ensures x < 0.0 ==> n as real - 1.0 < x <= n as real
  {
    if x >= 0.0 then x.Floor else -((-x).Floor)
  }

  /** Float to byte channel: the channel times 255, truncated toward zero.
      The C++ conversion is undefined when the truncated value does not fit
      a byte, that is, for a product outside (-1, 256); there the model keeps
      the low eight bits. */
  function ChannelToByte(v: real): (b: Byte)
    ensures 0.0 <= v <= 1.0 ==> b as int == (v * 255.0).Floor
  {
    (Truncate(v * 255.0) % 256) as Byte
  }

  /** A float colour to a byte colour, channel by channel. */
  function ConvertToByte(c: Color): BColor
  {
    BColor(ChannelToByte(c.b), ChannelToByte(c.g), ChannelToByte(c.r), ChannelToByte(c.a))
  }

  /** Converting a byte to float and back gives the byte again: no value drifts. */
  lemma ChannelRoundTrip(v: Byte)
    ensures ChannelToByte(ChannelToFloat(v)) == v
  {
    var x := ChannelToFloat(v);
    assert x * 255.0 == v as real;
    assert (x * 255.0).Floor == v as int;
  }

  /** Converting a byte colour to float and back gives the same colour. */
  lemma ColorRoundTrip(col: BColor)
    ensures ConvertToByte(ConvertToFloat(col)) == col
  {
    ChannelRoundTrip(col.a);
    ChannelRoundTrip(col.r);
    ChannelRoundTrip(col.g);
    ChannelRoundTrip(col.b);
  }
}
