/** The colour constructors of the CIColor (X11ColorName) category: X11 name
    lookup, hex triplets and the rgb[a](...) and hsl[a](...) functional
    notations. Each returns a colour or None ("nil on failure"). */
module X11ColorName {
  import opened ScalarGrammar

  /** A colour as these parsers produce it. Channels are exact fractions in
      [0, 1]; an 8-bit channel b becomes b / 255. A colour written in HSL is
      kept as its range-checked arguments (hue in degrees, wrapped into
      [0, 360); saturation and lightness as fractions); its conversion to RGB
      is not part of this model. */
  datatype Color =
    | Rgba(red: real, green: real, blue: real, alpha: real)
    | Hsla(hue: real, saturation: real, lightness: real, alpha: real)

  predicate IsUnit(x: real) {
    0.0 <= x <= 1.0
  }

  predicate Valid(c: Color) {
    match c
    case Rgba(r, g, b, a) => IsUnit(r) && IsUnit(g) && IsUnit(b) && IsUnit(a)
    case Hsla(h, s, l, a) => 0.0 <= h < 360.0 && IsUnit(s) && IsUnit(l) && IsUnit(a)
  }

  /** An 8-bit channel as a fraction. */
  function Channel(b: Byte): (x: real)
    ensures IsUnit(x)
    ensures b == 0 ==> x == 0.0
    ensures b == 255 ==> x == 1.0
  {
    b as real / 255.0
  }

  // ---------------------------------------------------------------------
  // X11 colour names

  /** The read-only table of X11 colour names: lowercase names of opaque
      RGB colours. Its contents are not part of this model. */
  predicate ValidTable(t: map<string, Color>) {
    forall name :: name in t ==> IsLower(name) && t[name].Rgba? && Valid(t[name]) && t[name].alpha == 1.0
  }

  type ColorTable = t: map<string, Color> | ValidTable(t) witness map[]

  /** colorWithName: the colour the table gives for a lowercase name; never a
      default colour for a name it does not hold. */
  function ColorWithName(table: ColorTable, name: string): (r: Option<Color>)
    ensures r.Some? <==> name in table
    ensures r.Some? ==> r.value == table[name]
    ensures r.Some? ==> r.value.Rgba? && Valid(r.value) && r.value.alpha == 1.0
  {
    if name in table then Some(table[name]) else None
  }

  /** The table holds only lowercase names, so a name with a capital letter
      is never found. */
  lemma CapitalisedNameNotFound(table: ColorTable, name: string, i: nat)
    requires i < |name| && 'A' <= name[i] <= 'Z'
    ensures ColorWithName(table, name) == None
  {
  }

  // ---------------------------------------------------------------------
  // Hex triplets

  predicate IsHexDigit(c: char) {
    '0' <= c <= '9' || 'a' <= c <= 'f' || 'A' <= c <= 'F'
  }

  predicate AllHex(s: string) {
    forall i :: 0 <= i < |s| ==> IsHexDigit(s[i])
  }

  function HexValue(c: char): (v: nat)
    requires IsHexDigit(c)
    ensures v < 16
  {
    if '0' <= c <= '9' then c as int - '0' as int
    else if 'a' <= c <= 'f' then c as int - 'a' as int + 10
    else c as int - 'A' as int + 10
  }

  /** An upper-case hex digit, as in the documented examples. */
  function HexDigit(v: nat): (c: char)
    requires v < 16
    ensures IsHexDigit(c) && HexValue(c) == v
  {
    if v < 10 then ('0' as int + v) as char else ('A' as int + v - 10) as char
  }

  /** The byte written by the two hex digits hi and lo. */
  function HexPair(hi: char, lo: char): Byte
    requires IsHexDigit(hi) && IsHexDigit(lo)
  {
    16 * HexValue(hi) + HexValue(lo)
  }

  /** '#' followed by exactly 3, 6 or 8 hex digits. */
  predicate IsHexTriplet(s: string) {
    |s| > 0 && s[0] == '#' && AllHex(s[1..]) && (|s| == 4 || |s| == 7 || |s| == 9)
  }

  /** colorWithHexString: "#RGB" (each digit doubled), "#RRGGBB" or
      "#RRGGBBAA"; the first two are opaque. */
  function ColorWithHexString(s: string): (r: Option<Color>)
    ensures r.Some? <==> IsHexTriplet(s)
    ensures r.Some? ==> r.value.Rgba? && Valid(r.value)
    ensures r.Some? && |s| != 9 ==> r.value.alpha == 1.0
    ensures r.Some? && |s| == 9 ==> r.value.alpha == Channel(HexPair(s[7], s[8]))
  {
    if !IsHexTriplet(s) then None
    else
      var d := s[1..];
      assert forall i :: 0 <= i < |d| ==> IsHexDigit(d[i]);
      if |d| == 3 then
        Some(Rgba(Channel(17 * HexValue(d[0])), Channel(17 * HexValue(d[1])), Channel(17 * HexValue(d[2])), 1.0))
      else if |d| == 6 then
        Some(Rgba(Channel(HexPair(d[0], d[1])), Channel(HexPair(d[2], d[3])), Channel(HexPair(d[4], d[5])), 1.0))
      else
        Some(Rgba(Channel(HexPair(d[0], d[1])), Channel(HexPair(d[2], d[3])), Channel(HexPair(d[4], d[5])),
                  Channel(HexPair(d[6], d[7]))))
  }

  /** The shorthand "#RGB" is the same colour as "#RRGGBB" with every digit
      doubled, for any three characters. */
  lemma HexShorthandDoubles(r: char, g: char, b: char)
    ensures ColorWithHexString(['#', r, g, b]) == ColorWithHexString(['#', r, r, g, g, b, b])
  {
    var short, long := ['#', r, g, b], ['#', r, r, g, g, b, b];
    assert short[1..] == [r, g, b] && long[1..] == [r, r, g, g, b, b];
    if IsHexDigit(r) && IsHexDigit(g) && IsHexDigit(b) {
      assert IsHexTriplet(short) && IsHexTriplet(long);
    } else {
      var k := if !IsHexDigit(r) then 0 else if !IsHexDigit(g) then 1 else 2;
      assert !IsHexDigit(short[1..][k]) && !IsHexDigit(long[1..][2 * k]);
    }
  }

  /** Hex digits are read without regard to case. */
  lemma HexIgnoresCase(s: string)
    ensures ColorWithHexString(Lower(s)) == ColorWithHexString(s)
  {
    var t := Lower(s);
    if |s| > 0 {
      var ds, dt := s[1..], t[1..];
      forall i | 0 <= i < |ds|
        ensures IsHexDigit(dt[i]) <==> IsHexDigit(ds[i])
        ensures IsHexDigit(ds[i]) ==> HexValue(dt[i]) == HexValue(ds[i])
      {
        assert dt[i] == LowerChar(ds[i]);
        HexCharIgnoresCase(ds[i]);
      }
    }
  }

  lemma HexCharIgnoresCase(c: char)
    ensures IsHexDigit(LowerChar(c)) <==> IsHexDigit(c)
    ensures IsHexDigit(c) ==> HexValue(LowerChar(c)) == HexValue(c)
  {
  }


  function HexByte(b: Byte): (s: string)
    ensures |s| == 2 && IsHexDigit(s[0]) && IsHexDigit(s[1]) && HexPair(s[0], s[1]) == b
  {
    [HexDigit(b / 16), HexDigit(b % 16)]
  }

  /** "#RRGGBB", in upper-case digits. */
  function HexString(r: Byte, g: Byte, b: Byte): string {
    "#" + HexByte(r) + HexByte(g) + HexByte(b)
  }

  /** "#RRGGBBAA", in upper-case digits. */
  function HexStringWithAlpha(r: Byte, g: Byte, b: Byte, a: Byte): string {
    HexString(r, g, b) + HexByte(a)
  }

  /** Each byte pair decodes back to the byte it was written from. */
  lemma HexStringRoundTrip(r: Byte, g: Byte, b: Byte, a: Byte)
    ensures ColorWithHexString(HexString(r, g, b)) == Some(Rgba(Channel(r), Channel(g), Channel(b), 1.0))
    ensures ColorWithHexString(HexStringWithAlpha(r, g, b, a)) == Some(Rgba(Channel(r), Channel(g), Channel(b), Channel(a)))
  {
    var s, t := HexString(r, g, b), HexStringWithAlpha(r, g, b, a);
    var hr, hg, hb, ha := HexByte(r), HexByte(g), HexByte(b), HexByte(a);
    assert s[1..] == hr + hg + hb;
    assert t[1..] == hr + hg + hb + ha;
    assert IsHexTriplet(s) && IsHexTriplet(t);
  }

  /** A shorthand digit d stands for the byte 17 * d, so "#F0F" is "#FF00FF". */
  lemma HexShorthandRoundTrip(r: nat, g: nat, b: nat)
    requires r < 16 && g < 16 && b < 16
    ensures ColorWithHexString(['#', HexDigit(r), HexDigit(g), HexDigit(b)])
         == Some(Rgba(Channel(17 * r), Channel(17 * g), Channel(17 * b), 1.0))
  {
    var s := ['#', HexDigit(r), HexDigit(g), HexDigit(b)];
    assert s[1..] == [HexDigit(r), HexDigit(g), HexDigit(b)];
    assert IsHexTriplet(s);
  }

  // ---------------------------------------------------------------------
  // Functional notation

  /** name "(" ... ")" */
  predicate IsFunctionForm(s: string, name: string) {
    |s| >= |name| + 2 && StartsWith(s, name + "(") && s[|s| - 1] == ')'
  }

  lemma FunctionFormOf(name: string, inner: string)
    ensures FunctionArguments(name + "(" + inner + ")", name) == Some(Split(inner, ','))
  {
    var s := name + "(" + inner + ")";
    assert s[..|name| + 1] == name + "(";
    assert s[|name| + 1..|s| - 1] == inner;
  }

  /** The comma-separated argument fields of name(...). */
  function FunctionArguments(s: string, name: string): (r: Option<seq<string>>)
    ensures r.Some? <==> IsFunctionForm(s, name)
  {
    if IsFunctionForm(s, name) then Some(Split(s[|name| + 1..|s| - 1], ',')) else None
  }

  /** An integer channel 0..255, spaces around it allowed. */
  function ParseByte(field: string): (r: Option<Byte>)
    ensures r.Some? <==> ParseNat(Trim(field)).Some? && ParseNat(Trim(field)).value <= 255
    ensures r.Some? ==> r.value == ParseNat(Trim(field)).value
  {
    var n :- ParseNat(Trim(field));
    if n <= 255 then Some(n) else None
  }

  /** A fractional alpha in [0, 1]. */
  function ParseAlpha(field: string): (r: Option<real>)
    ensures r.Some? ==> IsUnit(r.value)
    ensures r.Some? ==> Some(r.value) == ParseDecimal(Trim(field))
  {
    var x :- ParseDecimal(Trim(field));
    if IsUnit(x) then Some(x) else None
  }

  /** A percentage 0% .. 100%, as a fraction. */
  function ParsePercent(field: string): (r: Option<real>)
    ensures r.Some? ==> IsUnit(r.value)
    ensures r.Some? ==> |Trim(field)| > 0 && Trim(field)[|Trim(field)| - 1] == '%'
    ensures r.Some? ==> ParseDecimal(Trim(field)[..|Trim(field)| - 1]) == Some(100.0 * r.value)
  {
    var t := Trim(field);
    if |t| == 0 || t[|t| - 1] != '%' then None
    else
      var x :- ParseDecimal(t[..|t| - 1]);
      if 0.0 <= x <= 100.0 then Some(x / 100.0) else None
  }

  /** colorWithRgbString: rgb(r, g, b) or rgba(r, g, b), with an optional
      fourth alpha argument under either name. */
  function ColorWithRgbString(s: string): (r: Option<Color>)
    ensures r.Some? ==> IsFunctionForm(s, "rgb") || IsFunctionForm(s, "rgba")
    ensures r.Some? ==> r.value.Rgba? && Valid(r.value)
  {
    var args :- if StartsWith(s, "rgba(") then FunctionArguments(s, "rgba") else FunctionArguments(s, "rgb");
    RgbWithArguments(args)
  }

  /** The fields of rgb(...): three channels and an optional alpha. */
  function RgbWithArguments(args: seq<string>): (r: Option<Color>)
    ensures r.Some? ==> r.value.Rgba? && Valid(r.value)
    ensures |args| != 3 && |args| != 4 ==> r.None?
  {
    if |args| != 3 && |args| != 4 then None
    else
      var red :- ParseByte(args[0]);
      var green :- ParseByte(args[1]);
      var blue :- ParseByte(args[2]);
      var alpha :- if |args| == 4 then ParseAlpha(args[3]) else Some(1.0);
      Some(Rgba(Channel(red), Channel(green), Channel(blue), alpha))
  }

  /** Hue in degrees, wrapped into [0, 360). */
  function WrapHue(h: real): (w: real)
    ensures 0.0 <= w < 360.0
    ensures 0.0 <= h < 360.0 ==> w == h
  {
    h - 360.0 * (h / 360.0).Floor as real
  }

  lemma WrapHuePeriodic(h: real)
    ensures WrapHue(h + 360.0) == WrapHue(h)
  {
    assert (h + 360.0) / 360.0 == h / 360.0 + 1.0;
  }

  /** colorWithHslString: hsl(h, s%, l%) or hsla(...), with an optional
      fourth alpha argument under either name. */
  function ColorWithHslString(s: string): (r: Option<Color>)
    ensures r.Some? ==> IsFunctionForm(s, "hsl") || IsFunctionForm(s, "hsla")
    ensures r.Some? ==> r.value.Hsla? && Valid(r.value)
  {
    var args :- if StartsWith(s, "hsla(") then FunctionArguments(s, "hsla") else FunctionArguments(s, "hsl");
    HslWithArguments(args)
  }

  /** The fields of hsl(...): hue, two percentages and an optional alpha. */
  function HslWithArguments(args: seq<string>): (r: Option<Color>)
    ensures r.Some? ==> r.value.Hsla? && Valid(r.value)
  {
    if |args| != 3 && |args| != 4 then None
    else
      var hue :- ParseDecimal(Trim(args[0]));
      var saturation :- ParsePercent(args[1]);
      var lightness :- ParsePercent(args[2]);
      var alpha :- if |args| == 4 then ParseAlpha(args[3]) else Some(1.0);
      Some(Hsla(WrapHue(hue), saturation, lightness, alpha))
  }

  /** "rgb(r,g,b)" in decimal. */
  function RgbText(r: nat, g: nat, b: nat): string {
    "rgb" + "(" + NatToString(r) + "," + NatToString(g) + "," + NatToString(b) + ")"
  }

  /** The argument fields of the decimal text rgb(r,g,b). */
  lemma RgbTextArguments(r: nat, g: nat, b: nat)
    ensures !StartsWith(RgbText(r, g, b), "rgba(")
    ensures FunctionArguments(RgbText(r, g, b), "rgb") == Some([NatToString(r), NatToString(g), NatToString(b)])
  {
    var s := RgbText(r, g, b);
    assert s[..5][3] == '(';
    RgbTextFields(r, g, b);
  }

  lemma RgbTextFields(r: nat, g: nat, b: nat)
    ensures FunctionArguments(RgbText(r, g, b), "rgb") == Some([NatToString(r), NatToString(g), NatToString(b)])
  {
    ThreeFields("rgb", NatToString(r), NatToString(g), NatToString(b));
  }

  lemma ThreeFields(name: string, a: string, b: string, c: string)
    requires ',' !in a && ',' !in b && ',' !in c
    ensures FunctionArguments(name + "(" + a + "," + b + "," + c + ")", name) == Some([a, b, c])
  {
    ThreeFieldsText(name, a, b, c);
    SplitThree(a, b, c);
    FunctionFormOf(name, a + [','] + (b + [','] + c));
  }

  lemma ThreeFieldsText(name: string, a: string, b: string, c: string)
    ensures name + "(" + a + "," + b + "," + c + ")" == name + "(" + (a + [','] + (b + [','] + c)) + ")"
  {
  }

  lemma FourFields(name: string, a: string, b: string, c: string, d: string)
    requires ',' !in a && ',' !in b && ',' !in c && ',' !in d
    ensures FunctionArguments(name + "(" + a + "," + b + "," + c + "," + d + ")", name) == Some([a, b, c, d])
  {
    FourFieldsText(name, a, b, c, d);
    SplitFour(a, b, c, d);
    FunctionFormOf(name, a + [','] + (b + [','] + (c + [','] + d)));
  }

  lemma FourFieldsText(name: string, a: string, b: string, c: string, d: string)
    ensures name + "(" + a + "," + b + "," + c + "," + d + ")"
         == name + "(" + (a + [','] + (b + [','] + (c + [','] + d))) + ")"
  {
  }

  /** s is read as name(...): "rgba" when it starts with "rgba(", else "rgb". */
  predicate RgbSpelling(s: string, name: string) {
    (name == "rgba" && StartsWith(s, "rgba(")) || (name == "rgb" && !StartsWith(s, "rgba("))
  }

  /** rgb(...) or rgba(...) with four fields carries the fourth as alpha. */
  lemma RgbFourFields(s: string, name: string, f0: string, f1: string, f2: string, f3: string)
    requires RgbSpelling(s, name) && FunctionArguments(s, name) == Some([f0, f1, f2, f3])
    ensures ColorWithRgbString(s).Some? <==>
      ParseByte(f0).Some? && ParseByte(f1).Some? && ParseByte(f2).Some? && ParseAlpha(f3).Some?
    ensures ColorWithRgbString(s).Some? ==>
      ColorWithRgbString(s) == Some(Rgba(Channel(ParseByte(f0).value), Channel(ParseByte(f1).value),
                                         Channel(ParseByte(f2).value), ParseAlpha(f3).value))
  {
  }

  /** rgb(...) or rgba(...) with three fields reads each as a byte and is
      opaque. */
  lemma RgbThreeFields(s: string, name: string, f0: string, f1: string, f2: string)
    requires RgbSpelling(s, name) && FunctionArguments(s, name) == Some([f0, f1, f2])
    ensures ColorWithRgbString(s).Some? <==> ParseByte(f0).Some? && ParseByte(f1).Some? && ParseByte(f2).Some?
    ensures ColorWithRgbString(s).Some? ==>
      ColorWithRgbString(s) == Some(Rgba(Channel(ParseByte(f0).value), Channel(ParseByte(f1).value), Channel(ParseByte(f2).value), 1.0))
  {
  }

  /** rgb(...) or rgba(...) with fewer than three or more than four fields
      names no colour. */
  lemma RgbOtherArity(s: string, name: string, args: seq<string>)
    requires RgbSpelling(s, name) && FunctionArguments(s, name) == Some(args)
    requires |args| != 3 && |args| != 4
    ensures ColorWithRgbString(s) == None
  {
  }

  /** rgb(...) accepts exactly the channels 0..255, each scaled to b / 255. */
  lemma RgbChannelRange(r: nat, g: nat, b: nat)
    ensures ColorWithRgbString(RgbText(r, g, b)).Some? <==> r <= 255 && g <= 255 && b <= 255
    ensures r <= 255 && g <= 255 && b <= 255 ==>
      ColorWithRgbString(RgbText(r, g, b)) == Some(Rgba(Channel(r), Channel(g), Channel(b), 1.0))
  {
    RgbTextArguments(r, g, b);
    RgbThreeFields(RgbText(r, g, b), "rgb", NatToString(r), NatToString(g), NatToString(b));
    ByteOfNat(r);
    ByteOfNat(g);
    ByteOfNat(b);
  }

  /** A channel written in decimal is read back when it is at most 255. */
  lemma ByteOfNat(n: nat)
    ensures ParseByte(NatToString(n)).Some? <==> n <= 255
    ensures n <= 255 ==> ParseByte(NatToString(n)) == Some(n)
  {
    TrimUnpadded(NatToString(n));
  }

  /** rgb(r,g,b) and "#RRGGBB" name the same colour. */
  lemma RgbMatchesHex(r: Byte, g: Byte, b: Byte)
    ensures ColorWithRgbString(RgbText(r, g, b)) == ColorWithHexString(HexString(r, g, b))
  {
    RgbChannelRange(r, g, b);
    HexStringRoundTrip(r, g, b, 0);
  }

  /** hsl(...) whose first field is h: the hue is read from that field alone. */
  lemma HslFirstField(a: string, rest: string)
    requires |a| > 0 && ',' !in a
    ensures !StartsWith("hsl(" + a + "," + rest, "hsla(")
    ensures IsFunctionForm("hsl(" + a + "," + rest, "hsl") <==> |rest| > 0 && rest[|rest| - 1] == ')'
    ensures |rest| > 0 && rest[|rest| - 1] == ')' ==>
      FunctionArguments("hsl(" + a + "," + rest, "hsl") == Some([a] + Split(rest[..|rest| - 1], ','))
  {
    var s := "hsl(" + a + "," + rest;
    assert s[..5][3] == '(';
    assert s[|s| - 1] == if |rest| > 0 then rest[|rest| - 1] else ',';
    if |rest| > 0 && rest[|rest| - 1] == ')' {
      var inner := rest[..|rest| - 1];
      assert rest == inner + ")";
      HslFirstFieldText(a, inner);
      SplitFirst(a, ',', inner);
      FunctionFormOf("hsl", a + [','] + inner);
    }
  }

  lemma HslFirstFieldText(a: string, inner: string)
    ensures "hsl(" + a + "," + (inner + ")") == "hsl" + "(" + (a + [','] + inner) + ")"
  {
  }

  /** s is read as name(...): "hsla" when it starts with "hsla(", else "hsl". */
  predicate HslSpelling(s: string, name: string) {
    (name == "hsla" && StartsWith(s, "hsla(")) || (name == "hsl" && !StartsWith(s, "hsla("))
  }

  /** hsl(...) or hsla(...) reads its hue, saturation, lightness and alpha
      from its fields. */
  lemma HslFields(s: string, name: string, args: seq<string>)
    requires HslSpelling(s, name) && FunctionArguments(s, name) == Some(args)
    ensures ColorWithHslString(s) ==
      if |args| != 3 && |args| != 4 then None
      else if ParseDecimal(Trim(args[0])).None? || ParsePercent(args[1]).None? || ParsePercent(args[2]).None? then None
      else if |args| == 4 && ParseAlpha(args[3]).None? then None
      else Some(Hsla(WrapHue(ParseDecimal(Trim(args[0])).value), ParsePercent(args[1]).value, ParsePercent(args[2]).value,
                     if |args| == 4 then ParseAlpha(args[3]).value else 1.0))
  {
  }

  /** Two hsl(...) texts that differ only in the first field, whose hues
      wrap to the same angle, read as the same colour. */
  lemma HslSameWrappedHue(s: string, t: string, a: string, b: string, tail: seq<string>)
    requires !StartsWith(s, "hsla(") && FunctionArguments(s, "hsl") == Some([a] + tail)
    requires !StartsWith(t, "hsla(") && FunctionArguments(t, "hsl") == Some([b] + tail)
    requires ParseDecimal(Trim(a)).Some? && ParseDecimal(Trim(b)).Some?
    requires WrapHue(ParseDecimal(Trim(a)).value) == WrapHue(ParseDecimal(Trim(b)).value)
    ensures ColorWithHslString(s) == ColorWithHslString(t)
  {
    SameWrappedHue(a, b, tail);
  }

  lemma SameWrappedHue(a: string, b: string, tail: seq<string>)
    requires ParseDecimal(Trim(a)).Some? && ParseDecimal(Trim(b)).Some?
    requires WrapHue(ParseDecimal(Trim(a)).value) == WrapHue(ParseDecimal(Trim(b)).value)
    ensures HslWithArguments([a] + tail) == HslWithArguments([b] + tail)
  {
    var x, y := [a] + tail, [b] + tail;
    if |tail| == 2 || |tail| == 3 {
      assert x[0] == a && y[0] == b;
      assert x[1] == tail[0] == y[1] && x[2] == tail[1] == y[2];
      if |tail| == 3 {
        assert x[3] == tail[2] == y[3];
      }
    }
  }

  lemma HueTurnValues(h: int)
    ensures ParseDecimal(Trim(IntToString(h))) == Some(h as real)
    ensures ParseDecimal(Trim(IntToString(h + 360))) == Some((h + 360) as real)
    ensures WrapHue((h + 360) as real) == WrapHue(h as real)
  {
    var a, b := IntToString(h + 360), IntToString(h);
    TrimUnpadded(a);
    TrimUnpadded(b);
    IntToStringRoundTrip(h + 360);
    IntToStringRoundTrip(h);
    WrapHuePeriodic(h as real);
    assert (h + 360) as real == h as real + 360.0;
  }

  /** Adding a full turn to the hue of hsl(...) changes nothing. */
  lemma HslHueWraps(h: int, rest: string)
    ensures ColorWithHslString("hsl(" + IntToString(h + 360) + "," + rest)
         == ColorWithHslString("hsl(" + IntToString(h) + "," + rest)
  {
    var a, b := IntToString(h + 360), IntToString(h);
    HslFirstField(a, rest);
    HslFirstField(b, rest);
    if |rest| > 0 && rest[|rest| - 1] == ')' {
      HueTurnValues(h);
      HslSameWrappedHue("hsl(" + a + "," + rest, "hsl(" + b + "," + rest, a, b, Split(rest[..|rest| - 1], ','));
    }
  }

  /** "hsl(h,s%,l%)" in decimal. */
  function HslText(h: nat, sat: nat, light: nat): string {
    "hsl" + "(" + NatToString(h) + "," + (NatToString(sat) + "%") + "," + (NatToString(light) + "%") + ")"
  }

  /** A percentage written as a whole number: n% is n / 100, and anything
      above 100% is refused. */
  lemma {:induction false} PercentOfNat(n: nat)
    ensures ParsePercent(NatToString(n) + "%") == if n <= 100 then Some(n as real / 100.0) else None
  {
    var d := NatToString(n);
    var t := d + "%";
    assert t[0] == d[0] && IsDigit(d[0]);
    TrimUnpadded(t);
    assert t[..|t| - 1] == d;
    ParseNatAsDecimal(d);
  }

  /** hsl(...) accepts exactly the percentages 0% .. 100%, each read as a
      fraction; the whole-number hue is wrapped into [0, 360). */
  lemma {:induction false} HslChannelRange(h: nat, sat: nat, light: nat)
    ensures ColorWithHslString(HslText(h, sat, light)).Some? <==> sat <= 100 && light <= 100
    ensures sat <= 100 && light <= 100 ==>
      var c := ColorWithHslString(HslText(h, sat, light)).value;
      c.Hsla? && c.hue == WrapHue(h as real) && c.saturation == sat as real / 100.0 &&
      c.lightness == light as real / 100.0 && c.alpha == 1.0
  {
    var text := HslText(h, sat, light);
    var a, b, c := NatToString(h), NatToString(sat) + "%", NatToString(light) + "%";
    HslTextArguments(h, sat, light);
    HslThreeFields(text, "hsl", a, b, c);
    HueOfNat(h);
    PercentOfNat(sat);
    PercentOfNat(light);
  }

  /** A whole-number hue written in decimal is read back as itself. */
  lemma {:induction false} HueOfNat(h: nat)
    ensures ParseDecimal(Trim(NatToString(h))) == Some(h as real)
  {
    TrimUnpadded(NatToString(h));
    ParseNatAsDecimal(NatToString(h));
  }

  /** hsl(...) or hsla(...) with three fields: a hue and two percentages,
      opaque. */
  lemma HslThreeFields(s: string, name: string, f0: string, f1: string, f2: string)
    requires HslSpelling(s, name) && FunctionArguments(s, name) == Some([f0, f1, f2])
    ensures ColorWithHslString(s).Some? <==>
      ParseDecimal(Trim(f0)).Some? && ParsePercent(f1).Some? && ParsePercent(f2).Some?
    ensures ColorWithHslString(s).Some? ==>
      ColorWithHslString(s) == Some(Hsla(WrapHue(ParseDecimal(Trim(f0)).value), ParsePercent(f1).value, ParsePercent(f2).value, 1.0))
  {
  }

  /** The argument fields of the decimal text hsl(h,s%,l%). */
  lemma HslTextArguments(h: nat, sat: nat, light: nat)
    ensures !StartsWith(HslText(h, sat, light), "hsla(")
    ensures FunctionArguments(HslText(h, sat, light), "hsl")
         == Some([NatToString(h), NatToString(sat) + "%", NatToString(light) + "%"])
  {
    var s := HslText(h, sat, light);
    assert s[..5][3] == '(';
    assert IntToString(h) == NatToString(h) && IntToString(sat) == NatToString(sat) && IntToString(light) == NatToString(light);
    ThreeFields("hsl", NatToString(h), NatToString(sat) + "%", NatToString(light) + "%");
  }
}
