/** readInputSize: like readInputVector, but also accepting the "WxH" form.
    The result is a rectangle whose width and height are never negative. */
module SizeInput {
  import opened ScalarGrammar
  import opened VectorInput

  /** A rectangle: origin (x, y) and extent (width, height). */
  datatype Rect = Rect(x: real, y: real, width: real, height: real)

  predicate IsSizeLetter(c: char) {
    c == 'x' || c == 'X'
  }

  predicate NoSizeLetter(s: string) {
    'x' !in s && 'X' !in s
  }

  /** Index of the first 'x' or 'X' in s, or |s| when there is none. */
  function SizeLetterIndex(s: string): (i: nat)
    ensures i <= |s|
    ensures i < |s| ==> IsSizeLetter(s[i])
    ensures forall j :: 0 <= j < i ==> !IsSizeLetter(s[j])
    decreases |s|
  {
    if s == [] then 0 else if IsSizeLetter(s[0]) then 0 else 1 + SizeLetterIndex(s[1..])
  }

  /** "W" and "H" of the WxH form: two decimals, neither negative, with the
      origin at (0, 0). */
  function DimensionsWithStrings(w: string, h: string): (r: Option<Rect>)
    ensures r.Some? <==>
      ParseDecimal(Trim(w)).Some? && ParseDecimal(Trim(h)).Some? &&
      ParseDecimal(Trim(w)).value >= 0.0 && ParseDecimal(Trim(h)).value >= 0.0
    ensures r.Some? ==>
      r.value == Rect(0.0, 0.0, ParseDecimal(Trim(w)).value, ParseDecimal(Trim(h)).value)
  {
    var width :- ParseDecimal(Trim(w));
    var height :- ParseDecimal(Trim(h));
    if width < 0.0 || height < 0.0 then None else Some(Rect(0.0, 0.0, width, height))
  }

  /** A vector read as a size: two components are a width and height at the
      origin, four are x, y, width and height; any other count, or a negative
      extent, is rejected. */
  function RectFromVector(v: Vector): (r: Option<Rect>)
    ensures r.Some? <==>
      (|v.components| == 2 && v.components[0] >= 0.0 && v.components[1] >= 0.0) ||
      (|v.components| == 4 && v.components[2] >= 0.0 && v.components[3] >= 0.0)
    ensures r.Some? && |v.components| == 2 ==>
      r.value == Rect(0.0, 0.0, v.components[0], v.components[1])
    ensures r.Some? && |v.components| == 4 ==>
      r.value == Rect(v.components[0], v.components[1], v.components[2], v.components[3])
  {
    var c := v.components;
    if |c| == 2 && c[0] >= 0.0 && c[1] >= 0.0 then Some(Rect(0.0, 0.0, c[0], c[1]))
    else if |c| == 4 && c[2] >= 0.0 && c[3] >= 0.0 then Some(Rect(c[0], c[1], c[2], c[3]))
    else None
  }

  /** The text before the first 'x' or 'X' is the width and the text after it
      the height; a token without either letter is read as a vector. */
  function ReadInputSize(size: string): (r: Option<Rect>)
    ensures r.Some? ==> r.value.width >= 0.0 && r.value.height >= 0.0
    ensures r.Some? && !NoSizeLetter(size) ==> r.value.x == 0.0 && r.value.y == 0.0
  {
    var i := SizeLetterIndex(size);
    if i < |size| then DimensionsWithStrings(size[..i], size[i + 1..])
    else
      var v :- ReadInputVector(size);
      RectFromVector(v)
  }

  // ---------------------------------------------------------------------
  // The two accepted forms

  lemma SizeLetterIndexAfter(p: string, q: string)
    requires NoSizeLetter(p)
    requires |q| > 0 && IsSizeLetter(q[0])
    ensures SizeLetterIndex(p + q) == |p|
  {
    var s := p + q;
    assert forall j :: 0 <= j < |p| ==> s[j] == p[j];
    assert s[|p|] == q[0];
  }

  lemma FormatVectorHasNoSizeLetter(xs: seq<int>)
    requires |xs| > 0
    ensures NoSizeLetter(FormatVector(xs))
  {
    FormatVectorExcludes(xs, 'x');
    FormatVectorExcludes(xs, 'X');
  }

  /** A token without 'x' or 'X' is a size exactly when readInputVector reads
      it as a vector of two non-negative components, or of four components
      whose last two are non-negative. */
  lemma VectorFormSize(token: string)
    requires NoSizeLetter(token)
    ensures ReadInputSize(token).Some? <==>
      ReadInputVector(token).Some? && RectFromVector(ReadInputVector(token).value).Some?
    ensures ReadInputSize(token).Some? ==>
      ReadInputSize(token) == RectFromVector(ReadInputVector(token).value)
  {
    assert SizeLetterIndex(token) == |token|;
  }

  /** The WxH form, either letter case: the width and height written as
      whole numbers come back as the rectangle's extent at the origin. */
  lemma ReadWxH(w: nat, h: nat, letter: char)
    requires IsSizeLetter(letter)
    ensures ReadInputSize(NatToString(w) + [letter] + NatToString(h)) == Some(Rect(0.0, 0.0, w as real, h as real))
  {
    var ws, hs := NatToString(w), NatToString(h);
    WxHCut(w, hs, letter);
    Dimension(w);
    Dimension(h);
  }

  /** The first size letter of "W" + letter + rest is the one after W. */
  lemma WxHCut(w: nat, rest: string, letter: char)
    requires IsSizeLetter(letter)
    ensures var ws := NatToString(w); var s := ws + [letter] + rest;
      SizeLetterIndex(s) == |ws| && s[..|ws|] == ws && s[|ws| + 1..] == rest
  {
    var ws := NatToString(w);
    var s := ws + ([letter] + rest);
    assert ws + [letter] + rest == s;
    assert IntToString(w) == ws;
    IntToStringExcludes(w, 'x');
    IntToStringExcludes(w, 'X');
    SizeLetterIndexAfter(ws, [letter] + rest);
    assert s[..|ws|] == ws;
    assert s[|ws| + 1..] == rest;
  }

  /** A whole number written in decimal reads back as itself. */
  lemma Dimension(n: nat)
    ensures ParseDecimal(Trim(NatToString(n))) == Some(n as real)
  {
    TrimUnpadded(NatToString(n));
    IntToStringRoundTrip(n);
  }

  /** The vector form "W,H": a width and height at the origin. */
  lemma ReadSizeVector(w: nat, h: nat)
    ensures ReadInputSize(FormatVector([w, h])) == Some(Rect(0.0, 0.0, w as real, h as real))
  {
    FormatVectorHasNoSizeLetter([w, h]);
    ReadFormattedVector([w, h]);
    VectorFormSize(FormatVector([w, h]));
  }

  /** The vector form "X,Y,W,H": a full rectangle. */
  lemma ReadRectVector(x: int, y: int, w: nat, h: nat)
    ensures ReadInputSize(FormatVector([x, y, w, h])) == Some(Rect(x as real, y as real, w as real, h as real))
  {
    FormatVectorHasNoSizeLetter([x, y, w, h]);
    ReadFormattedVector([x, y, w, h]);
    VectorFormSize(FormatVector([x, y, w, h]));
  }

  /** Both forms name the same size. */
  lemma WxHMatchesVector(w: nat, h: nat)
    ensures ReadInputSize(NatToString(w) + "x" + NatToString(h)) == ReadInputSize(FormatVector([w, h]))
  {
    ReadWxH(w, h, 'x');
    ReadSizeVector(w, h);
  }

  /** A negative extent is refused in the vector form. */
  lemma NegativeWidthRejected(w: int, h: nat)
    requires w < 0
    ensures ReadInputSize(FormatVector([w, h])) == None
  {
    FormatVectorHasNoSizeLetter([w, h]);
    ReadFormattedVector([w, h]);
    VectorFormSize(FormatVector([w, h]));
  }

  /** A three-component vector is not a size. */
  lemma ThreeComponentsRejected(a: int, b: int, c: int)
    ensures ReadInputSize(FormatVector([a, b, c])) == None
  {
    FormatVectorHasNoSizeLetter([a, b, c]);
    ReadFormattedVector([a, b, c]);
    VectorFormSize(FormatVector([a, b, c]));
  }
}
