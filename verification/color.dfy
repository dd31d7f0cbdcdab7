/** Colours are vectors. This module holds the colour constants, the
    conversion of an accumulated colour to 8-bit RGB with gamma correction,
    and the sky gradient a ray sees when it escapes the scene. */
module Colors {
  import opened Numerics
  import opened Vectors
  import opened Rays

  type Color = Vec3

  const WHITE: Color := Vec3(1.0, 1.0, 1.0)
  const BLACK: Color := Vec3(0.0, 0.0, 0.0)
  const LIGHT_BLUE: Color := Vec3(0.5, 0.7, 1.0)

  newtype u8 = x: int | 0 <= x < 256

  datatype Rgb = Rgb(r: u8, g: u8, b: u8)

  /** Rust's `as u8` on a float: truncation toward zero, saturating at both
      ends (NaN, which also maps to 0, is not modelled). */
  function AsU8(v: real): (r: u8)
    ensures 0.0 <= v < 256.0 ==> r as int == v.Floor
    ensures v < 0.0 ==> r == 0
    ensures 256.0 <= v ==> r == 255
  {
    if v < 0.0 then 0
    else if 256.0 <= v then 255
    else v.Floor as u8
  }

  /** The gamma-corrected value of one component: the square root of the
      average over the samples, clamped to `[0, 0.999]`. */
  function Gamma(x: real, samples: real, sqrt: real -> real): (g: real)
    requires samples != 0.0
    ensures 0.0 <= g <= 0.999
  {
    Clamp(sqrt(x / samples), 0.0, 0.999)
  }

  /** Gamma correction is gamma 2: below the clamp the corrected value
      squares back to the average over the samples, and at or above it the
      value is the clamp bound. */
  lemma GammaIsSquareRoot(x: real, samples: real, sqrt: real -> real)
    requires SqrtLaw(sqrt)
    requires 0.0 < samples && 0.0 <= x
    ensures x / samples < 0.999 * 0.999 ==> Gamma(x, samples, sqrt) * Gamma(x, samples, sqrt) == x / samples
    ensures 0.999 * 0.999 <= x / samples ==> Gamma(x, samples, sqrt) == 0.999
  {
    assert 0.0 <= x / samples;
    var root := sqrt(x / samples);
    assert 0.0 <= root && root * root == x / samples;
    SquareStrict(0.999, root);
    SquareStrict(root, 0.999);
  }

  /** One channel of `to_rgb`. */
  function Channel(x: real, samples: real, sqrt: real -> real): (r: u8)
    requires samples != 0.0
    ensures r as int == (256.0 * Gamma(x, samples, sqrt)).Floor
  {
    AsU8(256.0 * Gamma(x, samples, sqrt))
  }

  /** `Color::to_rgb`: each channel comes from its own component. */
  function ToRgb(c: Color, samples: real, sqrt: real -> real): (rgb: Rgb)
    requires samples != 0.0
    ensures rgb.r == Channel(c.x, samples, sqrt)
    ensures rgb.g == Channel(c.y, samples, sqrt)
    ensures rgb.b == Channel(c.z, samples, sqrt)
  {
    Rgb(Channel(c.x, samples, sqrt), Channel(c.y, samples, sqrt), Channel(c.z, samples, sqrt))
  }

  /** The clamp keeps the scaled value below 256, so the saturating cast
      never saturates: every channel is the truncation of `256 * gamma`, and
      at most 255. */
  lemma ChannelNeverSaturates(x: real, samples: real, sqrt: real -> real)
    requires samples != 0.0
    ensures 0 <= (256.0 * Gamma(x, samples, sqrt)).Floor <= 255
    ensures Channel(x, samples, sqrt) as int == (256.0 * Gamma(x, samples, sqrt)).Floor
  {
    var v := 256.0 * Gamma(x, samples, sqrt);
    assert 0.0 <= v < 256.0;
  }

  /** A component of zero gives channel 0; a component equal to the sample
      count (full intensity) gives channel 255. */
  lemma ChannelEnds(samples: real, sqrt: real -> real)
    requires SqrtLaw(sqrt)
    requires samples != 0.0
    ensures Channel(0.0, samples, sqrt) == 0
    ensures Channel(samples, samples, sqrt) == 255
  {
    SqrtZero(sqrt);
    SqrtOne(sqrt);
    assert 0.0 / samples == 0.0;
    assert samples / samples == 1.0;
    assert Gamma(samples, samples, sqrt) == 0.999;
    assert (256.0 * 0.999).Floor == 255;
  }

  /** With exact square roots and a positive sample count, a brighter
      component never gives a darker channel. */
  lemma ChannelMonotone(x: real, y: real, samples: real, sqrt: real -> real)
    requires SqrtLaw(sqrt)
    requires 0.0 < samples
    requires 0.0 <= x <= y
    ensures Channel(x, samples, sqrt) <= Channel(y, samples, sqrt)
  {
    assert x / samples <= y / samples;
    SqrtMonotone(sqrt, x / samples, y / samples);
    assert Gamma(x, samples, sqrt) <= Gamma(y, samples, sqrt);
  }

  /** The channels are independent: two colours that agree on a component
      agree on that channel. */
  lemma ChannelsIndependent(c: Color, d: Color, samples: real, sqrt: real -> real)
    requires samples != 0.0
    ensures c.x == d.x ==> ToRgb(c, samples, sqrt).r == ToRgb(d, samples, sqrt).r
    ensures c.y == d.y ==> ToRgb(c, samples, sqrt).g == ToRgb(d, samples, sqrt).g
    ensures c.z == d.z ==> ToRgb(c, samples, sqrt).b == ToRgb(d, samples, sqrt).b
  {
  }

  // ----- The sky -----

  /** The linear blend from white (`y == -1`) to light blue (`y == 1`), with
      weight `t = 0.5 (y + 1)` on the blue. */
  function SkyGradient(y: real): (c: Color)
    ensures c.z == 1.0
  {
    var t := 0.5 * (y + 1.0);
    Add(Scale(WHITE, 1.0 - t), Scale(LIGHT_BLUE, t))
  }

  /** `From<&Ray> for Color`: the gradient at the height of the normalised
      direction. */
  function Background(ray: Ray, sqrt: real -> real): Color
    requires Len(ray.direction, sqrt) != 0.0
  {
    SkyGradient(UnitVec(ray.direction, sqrt).y)
  }

  lemma SkyGradientEnds()
    ensures SkyGradient(1.0) == LIGHT_BLUE
    ensures SkyGradient(-1.0) == WHITE
  {
    assert 0.5 * (1.0 + 1.0) == 1.0 && 0.5 * (-1.0 + 1.0) == 0.0;
    assert Scale(WHITE, 0.0) == BLACK && Scale(LIGHT_BLUE, 0.0) == BLACK;
    assert Scale(WHITE, 1.0) == WHITE && Scale(LIGHT_BLUE, 1.0) == LIGHT_BLUE;
    assert SkyGradient(1.0) == Add(BLACK, LIGHT_BLUE);
    assert SkyGradient(-1.0) == Add(WHITE, BLACK);
  }

  /** Between the two ends each component lies between the light-blue and
      the white component. */
  lemma SkyGradientBetween(y: real)
    requires -1.0 <= y <= 1.0
    ensures LIGHT_BLUE.x <= SkyGradient(y).x <= WHITE.x
    ensures LIGHT_BLUE.y <= SkyGradient(y).y <= WHITE.y
    ensures SkyGradient(y).z == LIGHT_BLUE.z == WHITE.z
  {
  }

  /** With exact square roots every component of a normalised vector lies in
      `[-1, 1]`; in particular its height does. */
  lemma UnitHeightBound(v: Vec3, sqrt: real -> real)
    requires SqrtLaw(sqrt)
    requires Len(v, sqrt) != 0.0
    ensures -1.0 <= UnitVec(v, sqrt).y <= 1.0
  {
    var u := UnitVec(v, sqrt);
    UnitVecIsUnit(v, sqrt);
    SquarePositive(u.x);
    SquarePositive(u.z);
    assert u.y * u.y <= 1.0;
    SquareBound(u.y, 1.0);
    SquareBound(-u.y, 1.0);
  }

  /** With exact square roots the background of any ray is a blend between
      light blue and white. */
  lemma BackgroundBetween(ray: Ray, sqrt: real -> real)
    requires SqrtLaw(sqrt)
    requires Len(ray.direction, sqrt) != 0.0
    ensures LIGHT_BLUE.x <= Background(ray, sqrt).x <= WHITE.x
    ensures LIGHT_BLUE.y <= Background(ray, sqrt).y <= WHITE.y
    ensures Background(ray, sqrt).z == 1.0
  {
    UnitHeightBound(ray.direction, sqrt);
    SkyGradientBetween(UnitVec(ray.direction, sqrt).y);
  }

  /** A ray pointing straight up shows the light blue of the zenith, and one
      pointing straight down the white of the horizon's far side. */
  lemma BackgroundVertical(ray: Ray, sqrt: real -> real)
    requires SqrtLaw(sqrt)
    requires ray.direction.x == 0.0 && ray.direction.z == 0.0 && ray.direction.y != 0.0
    ensures Len(ray.direction, sqrt) != 0.0
    ensures 0.0 < ray.direction.y ==> Background(ray, sqrt) == LIGHT_BLUE
    ensures ray.direction.y < 0.0 ==> Background(ray, sqrt) == WHITE
  {
    VerticalUnitHeight(ray.direction, sqrt);
    SkyGradientAtEnd(UnitVec(ray.direction, sqrt).y);
  }

  lemma SkyGradientAtEnd(y: real)
    ensures y == 1.0 ==> SkyGradient(y) == LIGHT_BLUE
    ensures y == -1.0 ==> SkyGradient(y) == WHITE
  {
    if y == 1.0 || y == -1.0 {
      SkyGradientEnds();
    }
  }

  /** Normalising a vertical vector leaves the sign of its height. */
  lemma VerticalUnitHeight(v: Vec3, sqrt: real -> real)
    requires SqrtLaw(sqrt)
    requires v.x == 0.0 && v.z == 0.0 && v.y != 0.0
    ensures Len(v, sqrt) != 0.0
    ensures 0.0 < v.y ==> UnitVec(v, sqrt).y == 1.0
    ensures v.y < 0.0 ==> UnitVec(v, sqrt).y == -1.0
  {
    VerticalLength(v);
    SqrtPositive(sqrt, LenSquared(v));
    var l := Len(v, sqrt);
    assert l * l == v.y * v.y;
    var u := UnitVec(v, sqrt);
    assert u.y * l == v.y;
    UnitOfSigned(u.y, l, v.y);
  }

  /** Attenuation is componentwise: white lets a colour through unchanged,
      black absorbs it, and the order of two attenuations does not matter. */
  lemma AttenuateByWhite(c: Color, d: Color)
    ensures Mul(c, WHITE) == c && Mul(WHITE, c) == c
    ensures Mul(c, BLACK) == BLACK
    ensures Mul(c, d) == Mul(d, c)
  {
  }
}
