/** readInputColor: turns one colour argument into a colour. The token is
    lower-cased and then dispatched by its shape: a hex triplet, an rgb[a]
    or hsl[a] function, a comma-separated vector of fractions, or else an X11
    colour name. Anything that fits none of them gives None. */
module ColorInput {
  import opened ScalarGrammar
  import opened VectorInput
  import opened X11ColorName

  /** "r,g,b" or "r,g,b,a" with every component a fraction in [0, 1]. */
  function ColorFromVector(token: string): (r: Option<Color>)
    ensures r.Some? ==> r.value.Rgba? && Valid(r.value)
    ensures r.Some? <==>
      ReadInputVector(token).Some? &&
      (ReadInputVector(token).value.Count() == 3 || ReadInputVector(token).value.Count() == 4) &&
      forall k :: 0 <= k < ReadInputVector(token).value.Count() ==> IsUnit(ReadInputVector(token).value.components[k])
    ensures r.Some? ==>
      var c := ReadInputVector(token).value.components;
      r.value == Rgba(c[0], c[1], c[2], if |c| == 4 then c[3] else 1.0)
  {
    var v :- ReadInputVector(token);
    var c := v.components;
    if (|c| == 3 || |c| == 4) && forall k :: 0 <= k < |c| ==> IsUnit(c[k]) then
      Some(Rgba(c[0], c[1], c[2], if |c| == 4 then c[3] else 1.0))
    else None
  }

  /** Three fractions make an opaque colour, channel for channel. */
  lemma OpaqueVectorColor(token: string, r: real, g: real, b: real)
    requires ReadInputVector(token) == Some(Vector([r, g, b]))
    requires IsUnit(r) && IsUnit(g) && IsUnit(b)
    ensures ColorFromVector(token) == Some(Rgba(r, g, b, 1.0))
  {
    var c := [r, g, b];
    assert forall k :: 0 <= k < |c| ==> IsUnit(c[k]);
  }

  /** Four fractions make a colour whose alpha is the fourth. */
  lemma AlphaVectorColor(token: string, r: real, g: real, b: real, a: real)
    requires ReadInputVector(token) == Some(Vector([r, g, b, a]))
    requires IsUnit(r) && IsUnit(g) && IsUnit(b) && IsUnit(a)
    ensures ColorFromVector(token) == Some(Rgba(r, g, b, a))
  {
    var c := [r, g, b, a];
    assert forall k :: 0 <= k < |c| ==> IsUnit(c[k]);
  }

  /** A component outside [0, 1] is refused. */
  lemma VectorComponentOutOfRange(token: string, k: nat)
    requires ReadInputVector(token).Some?
    requires k < ReadInputVector(token).value.Count() && !IsUnit(ReadInputVector(token).value.components[k])
    ensures ColorFromVector(token) == None
  {
  }

  /** The shapes the colour argument may take, on the lower-cased token. */
  predicate IsListedShape(table: ColorTable, t: string) {
    || IsHexTriplet(t)
    || IsFunctionForm(t, "rgb") || IsFunctionForm(t, "rgba")
    || IsFunctionForm(t, "hsl") || IsFunctionForm(t, "hsla")
    || ',' in t
    || t in table
  }

  function ReadInputColor(table: ColorTable, token: string): (r: Option<Color>)
    ensures r.Some? ==> Valid(r.value)
    ensures r.Some? ==> IsListedShape(table, Lower(token))
  {
    var t := Lower(token);
    if StartsWith(t, "#") then ColorWithHexString(t)
    else if StartsWith(t, "rgb") then ColorWithRgbString(t)
    else if StartsWith(t, "hsl") then ColorWithHslString(t)
    else if ',' in t then ColorFromVector(t)
    else ColorWithName(table, t)
  }

  /** Case does not matter: "RED", "Red" and "red" are the same argument. */
  lemma ReadInputColorIgnoresCase(table: ColorTable, token: string)
    ensures ReadInputColor(table, token) == ReadInputColor(table, Lower(token))
  {
    LowerIsLower(token);
  }

  /** A token of no listed shape is rejected; nothing defaults to a colour. */
  lemma UnlistedShapeRejected(table: ColorTable, token: string)
    requires !IsListedShape(table, Lower(token))
    ensures ReadInputColor(table, token) == None
  {
  }

  /** A name-shaped token is looked up, lower-cased, in the X11 table. */
  lemma NameLookedUpLowercased(table: ColorTable, token: string)
    requires !StartsWith(Lower(token), "#") && !StartsWith(Lower(token), "rgb") && !StartsWith(Lower(token), "hsl")
    requires ',' !in Lower(token)
    ensures ReadInputColor(table, token) == ColorWithName(table, Lower(token))
    ensures ReadInputColor(table, token).Some? <==> Lower(token) in table
  {
  }

  /** A lower-case token starting with "rgb" is read by colorWithRgbString. */
  lemma RgbDispatched(table: ColorTable, t: string)
    requires IsLower(t) && StartsWith(t, "rgb")
    ensures ReadInputColor(table, t) == ColorWithRgbString(t)
  {
    RgbPrefixExcludes(t);
    LowerOfLower(t);
  }

  lemma RgbPrefixExcludes(t: string)
    requires StartsWith(t, "rgb")
    ensures !StartsWith(t, "#")
  {
    assert t[..1] == t[..3][..1] == "r";
  }

  lemma HslPrefixExcludes(t: string)
    requires StartsWith(t, "hsl")
    ensures !StartsWith(t, "#") && !StartsWith(t, "rgb")
  {
    assert t[..1] == t[..3][..1] == "h";
    assert t[..3] == "hsl";
  }

  /** A lower-case token starting with "hsl" is read by colorWithHslString. */
  lemma HslDispatched(table: ColorTable, t: string)
    requires IsLower(t) && StartsWith(t, "hsl")
    ensures ReadInputColor(table, t) == ColorWithHslString(t)
  {
    HslPrefixExcludes(t);
    LowerOfLower(t);
  }

  /** A lower-case token that holds a comma and starts with none of "#",
      "rgb" and "hsl" is read as a vector of fractions. */
  lemma VectorDispatched(table: ColorTable, t: string)
    requires IsLower(t) && ',' in t
    requires !StartsWith(t, "#") && !StartsWith(t, "rgb") && !StartsWith(t, "hsl")
    ensures ReadInputColor(table, t) == ColorFromVector(t)
  {
    LowerOfLower(t);
  }

  /** "#RRGGBB", written with upper-case digits as HexString writes it, reads
      as its three bytes, opaque; ReadInputColorIgnoresCase carries this to
      every other spelling of the same digits. */
  lemma ReadHexColor(table: ColorTable, r: Byte, g: Byte, b: Byte)
    ensures ReadInputColor(table, HexString(r, g, b)) == Some(Rgba(Channel(r), Channel(g), Channel(b), 1.0))
  {
    var s := HexString(r, g, b);
    HexIgnoresCase(s);
    HexStringRoundTrip(r, g, b, 0);
    assert Lower(s)[0] == '#';
    assert StartsWith(Lower(s), "#");
  }

  /** The documented examples "#F0F", "#FF00FF", "#FF00FFFF" and
      "rgb(255, 00, 255)" all name the same colour, opaque magenta. */
  lemma DocExamplesAgree(table: ColorTable)
    ensures ReadInputColor(table, "#F0F") == Some(Rgba(1.0, 0.0, 1.0, 1.0))
    ensures ReadInputColor(table, "#FF00FF") == Some(Rgba(1.0, 0.0, 1.0, 1.0))
    ensures ReadInputColor(table, "#FF00FFFF") == Some(Rgba(1.0, 0.0, 1.0, 1.0))
    ensures ReadInputColor(table, "rgb(255, 00, 255)") == Some(Rgba(1.0, 0.0, 1.0, 1.0))
  {
    HexShortExample(table);
    HexSixExample(table);
    HexEightExample(table);
    RgbExample(table);
  }

  lemma HexShortExample(table: ColorTable)
    ensures ReadInputColor(table, "#F0F") == Some(Rgba(1.0, 0.0, 1.0, 1.0))
  {
    HexDispatched(table, "#F0F", "#f0f");
  }

  lemma HexSixExample(table: ColorTable)
    ensures ReadInputColor(table, "#FF00FF") == Some(Rgba(1.0, 0.0, 1.0, 1.0))
  {
    HexDispatched(table, "#FF00FF", "#ff00ff");
  }

  lemma HexEightExample(table: ColorTable)
    ensures ReadInputColor(table, "#FF00FFFF") == Some(Rgba(1.0, 0.0, 1.0, 1.0))
  {
    HexDispatched(table, "#FF00FFFF", "#ff00ffff");
  }

  /** A token whose lower-cased form starts with "#" is read by
      colorWithHexString, on that lower-cased form. */
  lemma HexDispatched(table: ColorTable, token: string, lower: string)
    requires Lower(token) == lower && |lower| > 0 && lower[0] == '#'
    ensures ReadInputColor(table, token) == ColorWithHexString(lower)
  {
    assert StartsWith(lower, "#");
  }

  lemma RgbExample(table: ColorTable)
    ensures ReadInputColor(table, "rgb(255, 00, 255)") == Some(Rgba(1.0, 0.0, 1.0, 1.0))
  {
    RgbExampleDispatch(table);
    RgbExampleParse();
  }

  lemma RgbExampleDispatch(table: ColorTable)
    ensures ReadInputColor(table, "rgb(255, 00, 255)") == ColorWithRgbString("rgb(255, 00, 255)")
  {
    var t := "rgb(255, 00, 255)";
    assert IsLower(t);
    assert t[..3] == "rgb";
    assert !StartsWith(t, "#") by { assert t[..1][0] == 'r'; }
    RgbDispatched(table, t);
  }


  lemma RgbExampleParse()
    ensures ColorWithRgbString("rgb(255, 00, 255)") == Some(Rgba(1.0, 0.0, 1.0, 1.0))
  {
    var t := "rgb(255, 00, 255)";
    assert !StartsWith(t, "rgba(") by { assert t[..5][3] == '('; }
    assert t == "rgb" + "(" + "255" + "," + " 00" + "," + " 255" + ")";
    ThreeFields("rgb", "255", " 00", " 255");
    RgbThreeFields(t, "rgb", "255", " 00", " 255");
    ByteExamples();
  }

  lemma ByteExamples()
    ensures ParseByte("255") == Some(255)
    ensures ParseByte(" 00") == Some(0)
    ensures ParseByte(" 255") == Some(255)
  {
    assert Trim("255") == "255";
    assert Trim(" 00") == "00";
    assert Trim(" 255") == "255";
    assert DigitsValue("255") == 255 by {
      assert "255"[..2] == "25" && "25"[..1] == "2" && "2"[..0] == "";
    }
    assert DigitsValue("00") == 0 by {
      assert "00"[..1] == "0" && "0"[..0] == "";
    }
  }

  /** The documented rgb example with a fourth argument carries it as alpha. */
  lemma RgbAlphaExample(table: ColorTable)
    ensures ReadInputColor(table, "rgb(255, 00, 255, 0.75)") == Some(Rgba(1.0, 0.0, 1.0, 0.75))
  {
    RgbAlphaDispatch(table);
    RgbAlphaParse();
  }

  lemma RgbAlphaDispatch(table: ColorTable)
    ensures ReadInputColor(table, "rgb(255, 00, 255, 0.75)") == ColorWithRgbString("rgb(255, 00, 255, 0.75)")
  {
    var t := "rgb(255, 00, 255, 0.75)";
    assert IsLower(t);
    assert t[..3] == "rgb";
    assert !StartsWith(t, "#") by { assert t[..1][0] == 'r'; }
    RgbDispatched(table, t);
  }


  lemma RgbAlphaParse()
    ensures ColorWithRgbString("rgb(255, 00, 255, 0.75)") == Some(Rgba(1.0, 0.0, 1.0, 0.75))
  {
    var t := "rgb(255, 00, 255, 0.75)";
    assert !StartsWith(t, "rgba(") by { assert t[..5][3] == '('; }
    assert t == "rgb" + "(" + "255" + "," + " 00" + "," + " 255" + "," + " 0.75" + ")";
    FourFields("rgb", "255", " 00", " 255", " 0.75");
    RgbFourFields(t, "rgb", "255", " 00", " 255", " 0.75");
    ByteExamples();
    AlphaExample();
  }

  lemma AlphaExample()
    ensures ParseAlpha(" 0.75") == Some(0.75)
  {
    assert Trim(" 0.75") == "0.75";
    var s := "0.75";
    assert IndexOf(s, '.') == 1;
    assert s[..1] == "0" && s[2..] == "75";
    assert DigitsValue("0") == 0 by { assert "0"[..0] == ""; }
    assert DigitsValue("75") == 75 by { assert "75"[..1] == "7" && "7"[..0] == ""; }
    assert ParseUnsignedDecimal(s) == Some(0.75);
  }

  /** The documented hsl examples: hue in degrees, percentages as fractions,
      and a fourth argument carried as alpha. */
  lemma HslExamples(table: ColorTable)
    ensures ReadInputColor(table, "hsl(200, 50%, 50%)") == Some(Hsla(200.0, 0.5, 0.5, 1.0))
    ensures ReadInputColor(table, "hsl(200, 50%, 50%, 0.75)") == Some(Hsla(200.0, 0.5, 0.5, 0.75))
  {
    HslDispatch(table);
    HslAlphaDispatch(table);
    HslParse();
    HslAlphaParse();
  }

  lemma HslDispatch(table: ColorTable)
    ensures ReadInputColor(table, "hsl(200, 50%, 50%)") == ColorWithHslString("hsl(200, 50%, 50%)")
  {
    var t := "hsl(200, 50%, 50%)";
    assert IsLower(t);
    assert t[..3] == "hsl";
    assert !StartsWith(t, "#") by { assert t[..1][0] == 'h'; }
    assert !StartsWith(t, "rgb") by { assert t[..3][0] == 'h'; }
    HslDispatched(table, t);
  }


  lemma HslAlphaDispatch(table: ColorTable)
    ensures ReadInputColor(table, "hsl(200, 50%, 50%, 0.75)") == ColorWithHslString("hsl(200, 50%, 50%, 0.75)")
  {
    var t := "hsl(200, 50%, 50%, 0.75)";
    assert IsLower(t);
    assert t[..3] == "hsl";
    assert !StartsWith(t, "#") by { assert t[..1][0] == 'h'; }
    assert !StartsWith(t, "rgb") by { assert t[..3][0] == 'h'; }
    HslDispatched(table, t);
  }


  lemma PercentExample()
    ensures ParsePercent(" 50%") == Some(0.5)
  {
    assert Trim(" 50%") == "50%";
    var t := "50%";
    assert t[..|t| - 1] == "50";
    FiftyExample();
  }

  lemma FiftyExample()
    ensures ParseDecimal("50") == Some(50.0)
  {
    ParseNatAsDecimal("50");
    assert DigitsValue("50") == 50 by { assert "50"[..1] == "5" && "5"[..0] == ""; }
  }

  lemma HueExample()
    ensures ParseDecimal(Trim("200")) == Some(200.0)
    ensures WrapHue(200.0) == 200.0
  {
    TrimUnpadded("200");
    ParseNatAsDecimal("200");
    TwoHundred();
  }

  lemma TwoHundred()
    ensures AllDigits("200") && DigitsValue("200") == 200
  {
    assert "200"[..2] == "20" && "20"[..1] == "2" && "2"[..0] == "";
  }

  lemma HslParse()
    ensures ColorWithHslString("hsl(200, 50%, 50%)") == Some(Hsla(200.0, 0.5, 0.5, 1.0))
  {
    var t := "hsl(200, 50%, 50%)";
    assert !StartsWith(t, "hsla(") by { assert t[..5][3] == '('; }
    assert t == "hsl" + "(" + "200" + "," + " 50%" + "," + " 50%" + ")";
    ThreeFields("hsl", "200", " 50%", " 50%");
    HslFields(t, "hsl", ["200", " 50%", " 50%"]);
    PercentExample();
    HueExample();
  }

  lemma HslAlphaParse()
    ensures ColorWithHslString("hsl(200, 50%, 50%, 0.75)") == Some(Hsla(200.0, 0.5, 0.5, 0.75))
  {
    var t := "hsl(200, 50%, 50%, 0.75)";
    assert !StartsWith(t, "hsla(") by { assert t[..5][3] == '('; }
    assert t == "hsl" + "(" + "200" + "," + " 50%" + "," + " 50%" + "," + " 0.75" + ")";
    FourFields("hsl", "200", " 50%", " 50%", " 0.75");
    HslFields(t, "hsl", ["200", " 50%", " 50%", " 0.75"]);
    PercentExample();
    HueExample();
    AlphaExample();
  }

  /** The documented vector example: three fractions, opaque. */
  lemma VectorColorExample(table: ColorTable)
    ensures ReadInputColor(table, "1.0,0.5,1.0") == Some(Rgba(1.0, 0.5, 1.0, 1.0))
  {
    VectorColorDispatch(table);
    VectorExample();
    OpaqueVectorColor("1.0,0.5,1.0", 1.0, 0.5, 1.0);
  }

  lemma VectorColorDispatch(table: ColorTable)
    ensures ReadInputColor(table, "1.0,0.5,1.0") == ColorFromVector("1.0,0.5,1.0")
  {
    var t := "1.0,0.5,1.0";
    assert IsLower(t);
    assert !StartsWith(t, "#") by { assert t[..1][0] == '1'; }
    assert !StartsWith(t, "rgb") by { assert t[..3][0] == '1'; }
    assert !StartsWith(t, "hsl") by { assert t[..3][0] == '1'; }
    assert t[3] == ',';
    VectorDispatched(table, t);
  }

  lemma VectorExample()
    ensures ReadInputVector("1.0,0.5,1.0") == Some(Vector([1.0, 0.5, 1.0]))
  {
    VectorExampleFields();
    VectorExampleTrim();
    VectorExampleParse();
    VectorExampleNoSpace();
    VectorOfFields("1.0,0.5,1.0", ["1.0", "0.5", "1.0"], [1.0, 0.5, 1.0]);
  }

  lemma VectorExampleNoSpace()
    ensures forall k :: 0 <= k < 3 ==> |["1.0", "0.5", "1.0"][k]| > 0 && NoSpace(["1.0", "0.5", "1.0"][k])
  {
    assert NoSpace("1.0") && NoSpace("0.5");
  }

  lemma VectorOfFields(t: string, fields: seq<string>, v: seq<real>)
    requires Split(t, ',') == fields && TrimAll(fields) == fields
    requires forall k :: 0 <= k < |fields| ==> |fields[k]| > 0 && NoSpace(fields[k])
    requires ParseDecimals(fields) == Some(v)
    ensures ReadInputVector(t) == Some(Vector(v))
  {
    assert forall k :: 0 <= k < |fields| ==> Trim(fields[k]) == TrimAll(fields)[k];
    OneComponentPerField(t);
  }

  lemma VectorExampleFields()
    ensures Split("1.0,0.5,1.0", ',') == ["1.0", "0.5", "1.0"]
  {
    assert "1.0,0.5,1.0" == "1.0" + [','] + ("0.5" + [','] + "1.0");
    SplitThree("1.0", "0.5", "1.0");
  }

  lemma VectorExampleTrim()
    ensures Trim("1.0") == "1.0" && Trim("0.5") == "0.5"
    ensures TrimAll(["1.0", "0.5", "1.0"]) == ["1.0", "0.5", "1.0"]
  {
    TrimUnpadded("1.0");
    TrimUnpadded("0.5");
  }

  lemma VectorExampleParse()
    ensures ParseDecimals(["1.0", "0.5", "1.0"]) == Some([1.0, 0.5, 1.0])
  {
    var fs := ["1.0", "0.5", "1.0"];
    var v := [1.0, 0.5, 1.0];
    DecimalExamples();
    assert ParseDecimal(fs[0]) == Some(v[0]);
    assert ParseDecimal(fs[1]) == Some(v[1]);
    assert ParseDecimal(fs[2]) == Some(v[2]);
    ParsedFields(fs, v);
  }

  /** Fields that each parse to the matching value give exactly those values. */
  lemma ParsedFields(fs: seq<string>, v: seq<real>)
    requires |fs| == |v|
    requires forall k | 0 <= k < |fs| :: ParseDecimal(fs[k]) == Some(v[k])
    ensures ParseDecimals(fs) == Some(v)
  {
    var r := ParseDecimals(fs);
    assert r.Some?;
    assert r.value == v;
  }

  lemma DecimalExamples()
    ensures ParseDecimal("1.0") == Some(1.0)
    ensures ParseDecimal("0.5") == Some(0.5)
  {
    assert IndexOf("1.0", '.') == 1 && IndexOf("0.5", '.') == 1;
    assert "1.0"[..1] == "1" && "1.0"[2..] == "0";
    assert "0.5"[..1] == "0" && "0.5"[2..] == "5";
    assert DigitsValue("1") == 1 && DigitsValue("0") == 0 && DigitsValue("5") == 5 by {
      assert "1"[..0] == "" && "0"[..0] == "" && "5"[..0] == "";
    }
  }

  /** The documented name example: "Fuchsia" is looked up as "fuchsia". */
  lemma NameExample(table: ColorTable)
    ensures ReadInputColor(table, "Fuchsia") == ColorWithName(table, "fuchsia")
  {
    var t := "Fuchsia";
    assert Lower(t) == "fuchsia";
    var l := "fuchsia";
    assert !StartsWith(l, "#") by { assert l[..1][0] == 'f'; }
    assert !StartsWith(l, "rgb") by { assert l[..3][0] == 'f'; }
    assert !StartsWith(l, "hsl") by { assert l[..3][0] == 'f'; }
    assert ',' !in l;
    NameLookedUpLowercased(table, t);
  }
}
