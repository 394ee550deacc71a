/** The arithmetic of `hslToRgb` and its `hue2rgb`, on exact reals. */
module HslMath {
  /** `Math.round` on the exact value: the nearest integer, halves rounded up */
  function Round(x: real): int { (x + 0.5).Floor }

  /** `q` of `hslToRgb` */
  function Q(s: real, l: real): real { if l < 0.5 then l * (1.0 + s) else l + s - l * s }

  /** `p` of `hslToRgb` */
  function P(s: real, l: real): real { 2.0 * l - Q(s, l) }

  /** The offset of `hue2rgb`, wrapped once: 1 is added below 0 and taken off above 1 */
  function Wrap(t0: real): real {
    var t1 := if t0 < 0.0 then t0 + 1.0 else t0;
    if t1 > 1.0 then t1 - 1.0 else t1
  }

  /** The point a fraction `f` of the way from p to q, the form of both edges of the profile */
  function Lerp(p: real, q: real, f: real): real { p + (q - p) * f }

  /** The piecewise-linear channel profile of `hue2rgb` on a wrapped offset */
  function Profile(p: real, q: real, t: real): real {
    if t < 1.0 / 6.0 then p + (q - p) * (6.0 * t)
    else if t < 1.0 / 2.0 then q
    else if t < 2.0 / 3.0 then p + (q - p) * ((2.0 / 3.0 - t) * 6.0)
    else p
  }

  /** `hue2rgb` */
  function Hue2Rgb(p: real, q: real, t0: real): real { Profile(p, q, Wrap(t0)) }

  /** `hslToRgb` on normalised h, s, l: channels scaled to 0..255 and rounded */
  function HslToRgb(h: real, s: real, l: real): (rgb: (int, int, int))
    ensures s == 0.0 ==> rgb.0 == rgb.1 == rgb.2
  {
    if s == 0.0 then (Round(l * 255.0), Round(l * 255.0), Round(l * 255.0))
    else
      var q := Q(s, l);
      var p := P(s, l);
      (Round(Hue2Rgb(p, q, h + 1.0 / 3.0) * 255.0),
       Round(Hue2Rgb(p, q, h) * 255.0),
       Round(Hue2Rgb(p, q, h - 1.0 / 3.0) * 255.0))
  }

  // ---------------------------------------------------------------------------
  // Bounds

  /** `Round` gives the nearest integer, a half rounded up */
  lemma RoundNearest(x: real)
    ensures x - 0.5 < Round(x) as real <= x + 0.5
  {
  }

  /** A non-negative length scaled by a factor in [0,1] stays within that length */
  lemma ScaleWithin(k: real, f: real)
    requires k >= 0.0 && 0.0 <= f <= 1.0
    ensures 0.0 <= k * f <= k
  {
    assert k * f <= k * 1.0;
  }

  /** A point part of the way from p to q lies between them */
  lemma LerpBetween(p: real, q: real, f: real)
    requires p <= q && 0.0 <= f <= 1.0
    ensures p <= Lerp(p, q, f) <= q
  {
    var d := q - p;
    ScaleWithin(d, f);
    assert Lerp(p, q, f) == p + d * f;
  }

  /** The profile stays between p and q at every offset >= 0 */
  lemma ProfileBetween(p: real, q: real, t: real)
    requires p <= q && t >= 0.0
    ensures p <= Profile(p, q, t) <= q
  {
    if t < 1.0 / 6.0 {
      LerpBetween(p, q, 6.0 * t);
    } else if 1.0 / 2.0 <= t < 2.0 / 3.0 {
      LerpBetween(p, q, (2.0 / 3.0 - t) * 6.0);
    }
  }

  /** `hue2rgb` stays between p and q for every offset it is given from a hue >= 0 */
  lemma Hue2RgbBetween(p: real, q: real, t0: real)
    requires p <= q && t0 >= -1.0
    ensures p <= Hue2Rgb(p, q, t0) <= q
  {
    ProfileBetween(p, q, Wrap(t0));
  }

  /** For saturation and lightness in [0,1]: 0 <= p <= q <= 1 */
  lemma PQInUnit(s: real, l: real)
    requires 0.0 <= s <= 1.0 && 0.0 <= l <= 1.0
    ensures 0.0 <= P(s, l) <= Q(s, l) <= 1.0
  {
    if l < 0.5 {
      assert l * s <= l * 1.0;
      assert Q(s, l) == l + l * s;
    } else {
      assert s * (1.0 - l) <= 1.0 * (1.0 - l);
      assert Q(s, l) == l + s * (1.0 - l);
    }
  }

  /** A value in [0,1], scaled by 255 and rounded, is a channel in [0,255] */
  lemma RoundChannel(v: real)
    requires 0.0 <= v <= 1.0
    ensures 0 <= Round(v * 255.0) <= 255
  {
  }

  // ---------------------------------------------------------------------------
  // Concrete conversions

  /** Hue 0 at full saturation and half lightness is pure red */
  lemma RedRgb()
    ensures HslToRgb(0.0, 1.0, 0.5) == (255, 0, 0)
  {
    assert Q(1.0, 0.5) == 1.0 && P(1.0, 0.5) == 0.0;
    assert Wrap(1.0 / 3.0) == 1.0 / 3.0 && Wrap(0.0) == 0.0 && Wrap(-1.0 / 3.0) == 2.0 / 3.0;
  }

  /** Hue 1/3 at full saturation and half lightness is pure green */
  lemma GreenRgb()
    ensures HslToRgb(1.0 / 3.0, 1.0, 0.5) == (0, 255, 0)
  {
    assert Q(1.0, 0.5) == 1.0 && P(1.0, 0.5) == 0.0;
    assert Wrap(2.0 / 3.0) == 2.0 / 3.0 && Wrap(1.0 / 3.0) == 1.0 / 3.0 && Wrap(0.0) == 0.0;
  }
}
