/** The colour decoder of the map hook: `parseColor`, `hslToRgb` and its `hue2rgb`.
    A colour string is searched for the leftmost substring of the shape
    `hsl(D+,\s*D+%,\s*D+%)`; its three numbers are converted from HSL to RGB and given
    alpha 200. Anything else decodes to the default colour. */
module ColorCodec {
  import opened Wrappers
  import opened Strings
  import opened HslMath

  datatype Rgba = Rgba(r: int, g: int, b: int, a: int)

  /** The three captured numbers of an `hsl(...)` match: hue in degrees, saturation and
      lightness in percent */
  datatype Hsl = Hsl(hue: nat, sat: nat, light: nat)

  const DefaultColor := Rgba(100, 100, 255, 200)

  // ---------------------------------------------------------------------------
  // The pattern, scanned

  /** The characters ECMAScript's `\s` class accepts (WhiteSpace and LineTerminator). */
  predicate IsJsSpace(c: char) {
    '\t' <= c <= '\r' || c == ' ' || c == '\U{A0}' || c == '\U{1680}'
    || '\U{2000}' <= c <= '\U{200A}' || c == '\U{2028}' || c == '\U{2029}'
    || c == '\U{202F}' || c == '\U{205F}' || c == '\U{3000}' || c == '\U{FEFF}'
  }

  predicate AllJsSpace(s: string) { forall i :: 0 <= i < |s| ==> IsJsSpace(s[i]) }

  /** The length of the longest run of digits at the start of `t` */
  function DigitRun(t: string): (n: nat)
    ensures n <= |t|
  {
    if t != [] && IsDigit(t[0]) then 1 + DigitRun(t[1..]) else 0
  }

  /** The length of the longest run of `\s` characters at the start of `t` */
  function SpaceRun(t: string): (n: nat)
    ensures n <= |t|
  {
    if t != [] && IsJsSpace(t[0]) then 1 + SpaceRun(t[1..]) else 0
  }

  predicate StartsWith(t: string, lit: string) {
    |lit| <= |t| && t[..|lit|] == lit
  }

  /** One capture group of the pattern at the start of `t`: a `\s*` when `spaces`, then
      the longest run of digits, which must be non-empty, then the literal `term`. Gives
      the captured number and the text after `term`. Each `\s*` and `\d+` can only take
      its longest run, because the character the pattern needs next (a digit, `,` or `%`)
      is never one the run could have consumed; so a backtracking engine finds the same. */
  function Group(t: string, spaces: bool, term: string): (r: Option<(nat, string)>)
  {
    DigitsThen(t[|GroupSpaces(t, spaces)|..], term)
  }

  /** The leading spaces a group skips: the longest `\s` run when `spaces`, none otherwise */
  function GroupSpaces(t: string, spaces: bool): (w: string)
    ensures |w| <= |t|
  {
    if spaces then t[..SpaceRun(t)] else ""
  }

  /** `\d+` then the literal `term` at the start of `u`: the number the longest digit run
      spells and the text after `term` */
  function DigitsThen(u: string, term: string): Option<(nat, string)> {
    var n := DigitRun(u);
    DigitRunSpec(u);
    if n == 0 || !StartsWith(u[n..], term) then None
    else Some((DecimalValue(u[..n]), u[n + |term|..]))
  }

  /** The regular expression `hsl\((\d+),\s*(\d+)%,\s*(\d+)%\)` matched at the start of `t` */
  function MatchPrefix(t: string): Option<Hsl> {
    if !StartsWith(t, "hsl(") then None
    else
      match Group(t[4..], false, ",")
      case None => None
      case Some(g1) =>
        match Group(g1.1, true, "%,")
        case None => None
        case Some(g2) =>
          match Group(g2.1, true, "%)")
          case None => None
          case Some(g3) => Some(Hsl(g1.0, g2.0, g3.0))
  }

  /** The regular expression matched at position `i` of `s` */
  function MatchAt(s: string, i: nat): Option<Hsl>
    requires i <= |s|
  {
    MatchPrefix(s[i..])
  }

  /** The literal text of one group: whitespace `w`, digits `d`, then `term` */
  predicate IsGroup(w: string, d: string, spaces: bool) {
    |d| > 0 && AllDigits(d) && AllJsSpace(w) && (spaces || w == "")
  }

  /** The pattern stated declaratively: at `i` the string reads
      `hsl(` d1 `,` w1 d2 `%,` w2 d3 `%)` with non-empty digit strings d1, d2, d3
      and whitespace strings w1, w2. */
  predicate HslAt(s: string, i: nat, d1: string, w1: string, d2: string, w2: string, d3: string)
    requires i <= |s|
  {
    IsGroup("", d1, false) && IsGroup(w1, d2, true) && IsGroup(w2, d3, true)
    && StartsWith(s[i..], "hsl(" + (d1 + ",") + (w1 + d2 + "%,") + (w2 + d3 + "%)"))
  }

  /** The first position at or after `from` where the pattern matches, with its captures:
      `String.prototype.match` returns the leftmost match. */
  function FindHsl(s: string, from: nat): (r: Option<(nat, Hsl)>)
    requires from <= |s|
    ensures r.Some? ==> from <= r.value.0 <= |s| && MatchAt(s, r.value.0) == Some(r.value.1)
    ensures forall j :: from <= j <= |s| && (r.None? || j < r.value.0) ==> MatchAt(s, j).None?
    decreases |s| - from
  {
    match MatchAt(s, from)
    case Some(m) => Some((from, m))
    case None => if from == |s| then None else FindHsl(s, from + 1)
  }

  // ---------------------------------------------------------------------------
  // HSL to RGB

  /** The colour of an `hsl(...)` match: H/360, S/100, L/100 through `hslToRgb`, alpha 200 */
  function HslColor(m: Hsl): (c: Rgba)
    ensures c.a == 200
    ensures m.sat == 0 ==> c.r == c.g == c.b
  {
    var rgb := HslToRgb(m.hue as real / 360.0, m.sat as real / 100.0, m.light as real / 100.0);
    Rgba(rgb.0, rgb.1, rgb.2, 200)
  }

  /** `parseColor`: a missing or empty string and a string without an `hsl(...)` substring
      give the default colour; otherwise the leftmost match decides. */
  function ParseColor(colorStr: Option<string>): (c: Rgba)
    ensures c.a == 200
    ensures colorStr == None || colorStr == Some("") ==> c == DefaultColor
    ensures (colorStr.Some? && forall i :: 0 <= i <= |colorStr.value| ==> MatchAt(colorStr.value, i).None?)
      ==> c == DefaultColor
    ensures forall i, m ::
      (colorStr.Some? && 0 <= i <= |colorStr.value| && MatchAt(colorStr.value, i) == Some(m)
       && forall j :: 0 <= j < i ==> MatchAt(colorStr.value, j).None?) ==> c == HslColor(m)
  {
    if colorStr.None? || colorStr.value == "" then DefaultColor
    else
      match FindHsl(colorStr.value, 0)
      case Some(found) => HslColor(found.1)
      case None => DefaultColor
  }

  // ---------------------------------------------------------------------------
  // The scanner agrees with the pattern

  /** The digit run is made of digits and is followed by a non-digit */
  lemma {:induction false} DigitRunSpec(t: string)
    ensures AllDigits(t[..DigitRun(t)])
    ensures DigitRun(t) == |t| || !IsDigit(t[DigitRun(t)])
  {
    if t != [] && IsDigit(t[0]) {
      DigitRunSpec(t[1..]);
      assert t[..DigitRun(t)] == [t[0]] + t[1..][..DigitRun(t[1..])];
    }
  }

  /** Digits followed by a non-digit: the run is exactly the digits */
  lemma {:induction false} DigitRunOf(d: string, x: string)
    requires AllDigits(d) && (x == [] || !IsDigit(x[0]))
    ensures DigitRun(d + x) == |d|
  {
    if d != [] {
      assert (d + x)[1..] == d[1..] + x;
      DigitRunOf(d[1..], x);
    } else {
      assert d + x == x;
    }
  }

  /** The space run is made of `\s` characters and is followed by another character */
  lemma {:induction false} SpaceRunSpec(t: string)
    ensures AllJsSpace(t[..SpaceRun(t)])
    ensures SpaceRun(t) == |t| || !IsJsSpace(t[SpaceRun(t)])
  {
    if t != [] && IsJsSpace(t[0]) {
      SpaceRunSpec(t[1..]);
      assert t[..SpaceRun(t)] == [t[0]] + t[1..][..SpaceRun(t[1..])];
    }
  }

  /** Spaces followed by a non-space: the run is exactly the spaces */
  lemma {:induction false} SpaceRunOf(w: string, x: string)
    requires AllJsSpace(w) && (x == [] || !IsJsSpace(x[0]))
    ensures SpaceRun(w + x) == |w|
  {
    if w != [] {
      assert (w + x)[1..] == w[1..] + x;
      SpaceRunOf(w[1..], x);
    } else {
      assert w + x == x;
    }
  }

  /** Digits, then `term`, then the rest: the digits are taken whole and their value is
      the number */
  lemma DigitsThenComplete(d: string, term: string, rest: string)
    requires |d| > 0 && AllDigits(d)
    requires term != [] && !IsDigit(term[0])
    ensures DigitsThen(d + (term + rest), term) == Some((DecimalValue(d), rest))
  {
    var u := d + (term + rest);
    assert DigitRun(u) == |d| by {
      DigitRunOf(d, term + rest);
    }
    assert u[..|d|] == d && StartsWith(u[|d|..], term) && u[|d| + |term|..] == rest by {
      SplitThree(d, term, rest);
    }
    DigitsThenAt(u, term, |d|, d, rest);
  }

  /** `DigitsThen` once the digit run and the literal after it are known */
  lemma DigitsThenAt(u: string, term: string, n: nat, d: string, rest: string)
    requires n == DigitRun(u) && n > 0 && u[..n] == d && StartsWith(u[n..], term) && u[n + |term|..] == rest
    requires AllDigits(d)
    ensures DigitsThen(u, term) == Some((DecimalValue(d), rest))
  {
  }

  /** The pieces of `a + (b + c)` taken back apart */
  lemma SplitThree(a: string, b: string, c: string)
    ensures var u := a + (b + c);
            u[..|a|] == a && StartsWith(u[|a|..], b) && u[|a| + |b|..] == c
  {
    var u := a + (b + c);
    assert u[|a|..] == b + c;
    assert (b + c)[..|b|] == b;
  }

  /** Every text of a group's shape is scanned as that group, with the number it spells */
  lemma GroupComplete(w: string, d: string, term: string, rest: string, spaces: bool)
    requires IsGroup(w, d, spaces)
    requires term != [] && !IsDigit(term[0])
    ensures Group(w + d + term + rest, spaces, term) == Some((DecimalValue(d), rest))
  {
    var t := w + d + term + rest;
    assert t == w + (d + (term + rest));
    if spaces {
      SpaceRunOf(w, d + (term + rest));
    }
    assert GroupSpaces(t, spaces) == w;
    assert t[|w|..] == d + (term + rest);
    DigitsThenComplete(d, term, rest);
  }

  /** A text in which `lit` occurs at `k` is its prefix, `lit`, and what follows */
  lemma SplitAround(x: string, k: nat, lit: string)
    requires k <= |x| && StartsWith(x[k..], lit)
    ensures x == x[..k] + lit + x[k + |lit|..]
  {
    assert x[k..] == lit + x[k + |lit|..];
    assert x == x[..k] + x[k..];
  }

  /** The digits of a group, after its leading spaces */
  function GroupDigits(t: string, spaces: bool): string {
    var u := t[|GroupSpaces(t, spaces)|..];
    u[..DigitRun(u)]
  }

  /** Every digits-then-`term` scan has that shape */
  lemma DigitsThenSound(u: string, term: string)
    requires DigitsThen(u, term).Some?
    ensures var d := u[..DigitRun(u)];
            |d| > 0 && AllDigits(d)
            && u == d + term + DigitsThen(u, term).value.1
            && DigitsThen(u, term).value.0 == DecimalValue(d)
  {
    DigitRunSpec(u);
    SplitAround(u, DigitRun(u), term);
  }

  /** Every scanned group has the group's shape: the text is spaces, digits, `term` and
      the rest, and the number is the value of the digits */
  lemma GroupSound(t: string, spaces: bool, term: string)
    requires Group(t, spaces, term).Some?
    ensures var w, d := GroupSpaces(t, spaces), GroupDigits(t, spaces);
            IsGroup(w, d, spaces)
            && t == w + d + term + Group(t, spaces, term).value.1
            && Group(t, spaces, term).value.0 == DecimalValue(d)
  {
    var w := GroupSpaces(t, spaces);
    var u := t[|w|..];
    var d := u[..DigitRun(u)];
    var rest := DigitsThen(u, term).value.1;
    SpaceRunSpec(t);
    DigitsThenSound(u, term);
    assert AllJsSpace(w);
    assert t == w + u;
    ConcatAssoc(w, d, term, rest);
  }

  /** Concatenation of four strings regrouped */
  lemma ConcatAssoc(a: string, b: string, c: string, d: string)
    ensures a + (b + c + d) == a + b + c + d
  {
  }

  /** Splits the matched text into the literal `hsl(` and its three groups */
  lemma HslTextAssoc(d1: string, w1: string, d2: string, w2: string, d3: string, rest: string)
    ensures var g2 := w1 + d2 + "%,";
            var g3 := w2 + d3 + "%)";
            var t := "hsl(" + (d1 + ",") + g2 + g3 + rest;
            t[..4] == "hsl(" && t[4..] == "" + d1 + "," + (g2 + (g3 + rest))
  {
  }

  /** Every text of the pattern's shape is matched, with the numbers it spells */
  lemma MatchAtComplete(s: string, i: nat, d1: string, w1: string, d2: string, w2: string, d3: string)
    requires i <= |s| && HslAt(s, i, d1, w1, d2, w2, d3)
    ensures MatchAt(s, i) == Some(Hsl(DecimalValue(d1), DecimalValue(d2), DecimalValue(d3)))
  {
    var g2 := w1 + d2 + "%,";
    var g3 := w2 + d3 + "%)";
    var lit := "hsl(" + (d1 + ",") + g2 + g3;
    var t := s[i..];
    var rest := t[|lit|..];
    assert t == lit + rest;
    HslTextAssoc(d1, w1, d2, w2, d3, rest);
    GroupComplete("", d1, ",", g2 + (g3 + rest), false);
    GroupComplete(w1, d2, "%,", g3 + rest, true);
    GroupComplete(w2, d3, "%)", rest, true);
  }

  /** A text that starts with `lit` is `lit` and what follows */
  lemma StartsWithSplit(t: string, lit: string)
    requires StartsWith(t, lit)
    ensures t == lit + t[|lit|..]
  {
    assert t == t[..|lit|] + t[|lit|..];
  }

  /** The pieces of a scanned match joined back into the pattern's literal text */
  lemma HslTextJoin(t: string, t1: string, t2: string, t3: string, rest: string,
                    w0: string, d1: string, w1: string, d2: string, w2: string, d3: string)
    requires t == "hsl(" + t1 && w0 == "" && t1 == w0 + d1 + "," + t2
    requires t2 == w1 + d2 + "%," + t3 && t3 == w2 + d3 + "%)" + rest
    ensures t == "hsl(" + (d1 + ",") + (w1 + d2 + "%,") + (w2 + d3 + "%)") + rest
  {
  }

  /** `GroupSound` with the captured number and the rest named */
  lemma GroupSoundAt(t: string, spaces: bool, term: string, v: nat, rest: string) returns (w: string, d: string)
    requires Group(t, spaces, term) == Some((v, rest))
    ensures IsGroup(w, d, spaces) && t == w + d + term + rest && v == DecimalValue(d)
  {
    GroupSound(t, spaces, term);
    w, d := GroupSpaces(t, spaces), GroupDigits(t, spaces);
  }

  /** A match at the start of `t` has the pattern's shape, with the numbers that shape spells */
  lemma MatchPrefixSound(t: string) returns (d1: string, w1: string, d2: string, w2: string, d3: string, rest: string)
    requires MatchPrefix(t).Some?
    ensures IsGroup("", d1, false) && IsGroup(w1, d2, true) && IsGroup(w2, d3, true)
    ensures t == "hsl(" + (d1 + ",") + (w1 + d2 + "%,") + (w2 + d3 + "%)") + rest
    ensures MatchPrefix(t) == Some(Hsl(DecimalValue(d1), DecimalValue(d2), DecimalValue(d3)))
  {
    var t1 := t[4..];
    var g1 := Group(t1, false, ",").value;
    var g2 := Group(g1.1, true, "%,").value;
    var g3 := Group(g2.1, true, "%)").value;
    assert MatchPrefix(t) == Some(Hsl(g1.0, g2.0, g3.0));
    var w0;
    w0, d1 := GroupSoundAt(t1, false, ",", g1.0, g1.1);
    w1, d2 := GroupSoundAt(g1.1, true, "%,", g2.0, g2.1);
    w2, d3 := GroupSoundAt(g2.1, true, "%)", g3.0, g3.1);
    rest := g3.1;
    StartsWithSplit(t, "hsl(");
    HslTextJoin(t, t1, g1.1, g2.1, g3.1, w0, d1, w1, d2, w2, d3);
  }

  /** Every match has the pattern's shape, and its numbers are the ones that shape spells */
  lemma MatchAtSound(s: string, i: nat)
    requires i <= |s| && MatchAt(s, i).Some?
    ensures exists d1, w1, d2, w2, d3 :: HslAt(s, i, d1, w1, d2, w2, d3)
              && MatchAt(s, i) == Some(Hsl(DecimalValue(d1), DecimalValue(d2), DecimalValue(d3)))
  {
    var d1, w1, d2, w2, d3, rest := MatchPrefixSound(s[i..]);
    assert HslAt(s, i, d1, w1, d2, w2, d3);
  }

  // ---------------------------------------------------------------------------
  // Properties of the decoder

  /** With saturation and lightness at most 100%, every channel lies in [0,255], for every hue */
  lemma HslColorInRange(m: Hsl)
    requires m.sat <= 100 && m.light <= 100
    ensures var c := HslColor(m); 0 <= c.r <= 255 && 0 <= c.g <= 255 && 0 <= c.b <= 255 && c.a == 200
  {
    var h, s, l := m.hue as real / 360.0, m.sat as real / 100.0, m.light as real / 100.0;
    if s == 0.0 {
      RoundChannel(l);
    } else {
      PQInUnit(s, l);
      var p, q := P(s, l), Q(s, l);
      Hue2RgbBetween(p, q, h + 1.0 / 3.0);
      Hue2RgbBetween(p, q, h);
      Hue2RgbBetween(p, q, h - 1.0 / 3.0);
      RoundChannel(Hue2Rgb(p, q, h + 1.0 / 3.0));
      RoundChannel(Hue2Rgb(p, q, h));
      RoundChannel(Hue2Rgb(p, q, h - 1.0 / 3.0));
    }
  }

  /** With saturation 0 the colour is the grey of the lightness */
  lemma GreyWhenUnsaturated(m: Hsl)
    requires m.sat == 0
    ensures var v := Round(m.light as real / 100.0 * 255.0);
            HslColor(m) == Rgba(v, v, v, 200)
  {
  }

  /** The text of a match at `i`, when no earlier position matches, is what the decoder uses */
  lemma ParseColorFirstMatch(str: string, i: nat, d1: string, w1: string, d2: string, w2: string, d3: string)
    requires i <= |str| && HslAt(str, i, d1, w1, d2, w2, d3)
    requires forall j :: 0 <= j < i ==> MatchAt(str, j).None?
    ensures ParseColor(Some(str)) == HslColor(Hsl(DecimalValue(d1), DecimalValue(d2), DecimalValue(d3)))
  {
    MatchAtComplete(str, i, d1, w1, d2, w2, d3);
  }

  /** The decimal numerals of the concrete examples */
  lemma SmallNumerals()
    ensures DecimalValue("0") == 0 && DecimalValue("50") == 50
    ensures DecimalValue("100") == 100 && DecimalValue("120") == 120
  {
    assert "0"[..0] == "" && "5"[..0] == "" && "1"[..0] == "";
    assert "50"[..1] == "5" && "10"[..1] == "1" && "12"[..1] == "1";
    assert "100"[..2] == "10" && "120"[..2] == "12";
  }

  /** `hsl(0,100%,50%)` is pure red */
  lemma PureRed()
    ensures ParseColor(Some("hsl(0,100%,50%)")) == Rgba(255, 0, 0, 200)
  {
    var s := "hsl(0,100%,50%)";
    assert s == "hsl(" + ("0" + ",") + ("" + "100" + "%,") + ("" + "50" + "%)");
    SmallNumerals();
    ParseColorFirstMatch(s, 0, "0", "", "100", "", "50");
    RedRgb();
  }

  /** `hsl(120,100%,50%)` is pure green */
  lemma PureGreen()
    ensures ParseColor(Some("hsl(120,100%,50%)")) == Rgba(0, 255, 0, 200)
  {
    var s := "hsl(120,100%,50%)";
    assert s == "hsl(" + ("120" + ",") + ("" + "100" + "%,") + ("" + "50" + "%)");
    SmallNumerals();
    ParseColorFirstMatch(s, 0, "120", "", "100", "", "50");
    assert 120 as real / 360.0 == 1.0 / 3.0;
    GreenRgb();
  }

  /** A string in which `hsl(` never occurs decodes to the default colour */
  lemma NoHslIsDefault(str: string)
    requires forall i :: 0 <= i <= |str| ==> !StartsWith(str[i..], "hsl(")
    ensures ParseColor(Some(str)) == DefaultColor
  {
  }

  /** Hex notation is not decoded: `#ff0000` gives the default colour */
  lemma HexIsDefault()
    ensures ParseColor(Some("#ff0000")) == DefaultColor
  {
    var s := "#ff0000";
    forall i | 0 <= i <= |s| ensures !StartsWith(s[i..], "hsl(") {
      assert i < |s| ==> s[i] != 'h';
    }
    NoHslIsDefault(s);
  }
}
