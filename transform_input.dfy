/** readInputTransform: a token is one or more function calls drawn from
    matrix, rotate, scale and translate, each with a fixed number of
    arguments, optionally separated by whitespace or commas. The model keeps
    the calls, in written order, rather than the numeric matrix they build. */
module TransformInput {
  import opened ScalarGrammar
  import opened VectorInput

  /** One call of the grammar; each alternative is one accepted arity. */
  datatype Call =
    | Matrix(m11: real, m12: real, m21: real, m22: real, tx: real, ty: real)
    | Rotate(degrees: real)
    | RotateAbout(degrees: real, px: real, py: real)
    | Scale(factor: real)
    | ScaleXY(sx: real, sy: real)
    | Translate(dx: real, dy: real)

  function CallName(c: Call): string {
    match c
    case Matrix(_, _, _, _, _, _) => "matrix"
    case Rotate(_) => "rotate"
    case RotateAbout(_, _, _) => "rotate"
    case Scale(_) => "scale"
    case ScaleXY(_, _) => "scale"
    case Translate(_, _) => "translate"
  }

  function CallArguments(c: Call): seq<real> {
    match c
    case Matrix(a, b, cc, d, e, f) => [a, b, cc, d, e, f]
    case Rotate(d) => [d]
    case RotateAbout(d, x, y) => [d, x, y]
    case Scale(s) => [s]
    case ScaleXY(x, y) => [x, y]
    case Translate(x, y) => [x, y]
  }

  /** The arity table: matrix 6, rotate 1 or 3, scale 1 or 2, translate 2. */
  predicate KnownArity(name: string, n: nat) {
    (name == "matrix" && n == 6) ||
    (name == "rotate" && (n == 1 || n == 3)) ||
    (name == "scale" && (n == 1 || n == 2)) ||
    (name == "translate" && n == 2)
  }

  /** The call a name and its arguments denote; None for an unknown name or
      a wrong argument count. */
  function MakeCall(name: string, args: seq<real>): (r: Option<Call>)
    ensures r.Some? <==> KnownArity(name, |args|)
    ensures r.Some? ==> CallName(r.value) == name && CallArguments(r.value) == args
  {
    if name == "matrix" && |args| == 6 then Some(Matrix(args[0], args[1], args[2], args[3], args[4], args[5]))
    else if name == "rotate" && |args| == 1 then Some(Rotate(args[0]))
    else if name == "rotate" && |args| == 3 then Some(RotateAbout(args[0], args[1], args[2]))
    else if name == "scale" && |args| == 1 then Some(Scale(args[0]))
    else if name == "scale" && |args| == 2 then Some(ScaleXY(args[0], args[1]))
    else if name == "translate" && |args| == 2 then Some(Translate(args[0], args[1]))
    else None
  }

  /** Every call is rebuilt from its own name and arguments. */
  lemma MakeCallOfCall(c: Call)
    ensures KnownArity(CallName(c), |CallArguments(c)|)
    ensures MakeCall(CallName(c), CallArguments(c)) == Some(c)
  {
  }

  // ---------------------------------------------------------------------
  // The call grammar

  predicate IsCallSeparator(c: char) {
    IsSpace(c) || c == ','
  }

  /** s without its leading separators. */
  function SkipSeparators(s: string): (r: string)
    ensures |r| <= |s| && r == s[|s| - |r|..]
    ensures |r| > 0 ==> !IsCallSeparator(r[0])
    decreases |s|
  {
    if |s| > 0 && IsCallSeparator(s[0]) then SkipSeparators(s[1..]) else s
  }

  /** The arguments between a call's parentheses: comma-separated decimals. */
  function CallArgumentsWithString(text: string): (r: Option<seq<real>>)
    ensures r.Some? ==> |r.value| == |Split(text, ',')|
  {
    ParseDecimals(TrimAll(Split(text, ',')))
  }

  /** The first call of t, which starts with no separator: a name up to '(',
      then the arguments up to ')'. The text after ')' is returned with it. */
  function FirstCall(t: string): (r: Option<(Call, string)>)
    ensures r.Some? ==> |r.value.1| < |t|
  {
    var open := IndexOf(t, '(');
    if open == |t| then None
    else
      var after := t[open + 1..];
      var close := IndexOf(after, ')');
      if close == |after| then None
      else
        var args :- CallArgumentsWithString(after[..close]);
        var call :- MakeCall(Trim(t[..open]), args);
        Some((call, after[close + 1..]))
  }

  /** Reads calls until only separators remain. None as soon as a call is
      malformed, unknown or of the wrong arity. */
  function ParseCalls(s: string): (r: Option<seq<Call>>)
    ensures r.Some? ==> (r.value == [] <==> SkipSeparators(s) == [])
    decreases |s|
  {
    var t := SkipSeparators(s);
    if t == [] then Some([])
    else
      var (call, rest) :- FirstCall(t);
      var calls :- ParseCalls(rest);
      Some([call] + calls)
  }

  /** The calls of a token, in written order; at least one is required. */
  function ReadInputTransform(token: string): (r: Option<seq<Call>>)
    ensures r.Some? ==> |r.value| > 0
    ensures SkipSeparators(token) == [] ==> r.None?
  {
    var calls :- ParseCalls(token);
    if calls == [] then None else Some(calls)
  }

  // ---------------------------------------------------------------------
  // Rendering calls, and reading them back

  /** The text of one call with whole-number arguments. */
  function CallText(name: string, xs: seq<int>): string
    requires |xs| > 0
  {
    name + "(" + FormatVector(xs) + ")"
  }

  /** A name is acceptable text before '(' when it is one word free of the
      grammar's punctuation. */
  predicate PlainName(name: string) {
    |name| > 0 && NoSpace(name) && ',' !in name && '(' !in name
  }

  /** A call's text cut at its first '(' and the first ')' after it. */
  lemma FirstCallParts(name: string, inner: string, rest: string, args: seq<real>)
    requires '(' !in name && ')' !in inner && Trim(name) == name
    requires CallArgumentsWithString(inner) == Some(args)
    ensures FirstCall(name + (['('] + (inner + ([')'] + rest)))) ==
      if MakeCall(name, args).Some? then Some((MakeCall(name, args).value, rest)) else None
  {
    var t := name + (['('] + (inner + ([')'] + rest)));
    CutAt(name, inner + ([')'] + rest), '(');
    CutAt(inner, rest, ')');
  }

  /** p, then c, then q, where p holds no c: the first c is right after p. */
  lemma CutAt(p: string, q: string, c: char)
    requires c !in p
    ensures var t := p + ([c] + q);
      IndexOf(t, c) == |p| && t[..|p|] == p && t[|p| + 1..] == q
  {
    IndexOfAfter(p, [c] + q, c);
    var t := p + ([c] + q);
    assert t[..|p|] == p;
    assert t[|p| + 1..] == q;
  }

  /** The first call of a rendered call followed by anything is that call,
      and reading goes on right after its closing parenthesis. */
  lemma FirstCallText(name: string, xs: seq<int>, rest: string)
    requires |xs| > 0 && PlainName(name)
    ensures FirstCall(CallText(name, xs) + rest) ==
      if KnownArity(name, |xs|) then Some((MakeCall(name, IntsAsReals(xs)).value, rest)) else None
  {
    var inner := FormatVector(xs);
    CallTextShape(name, inner, rest);
    FormatVectorExcludes(xs, ')');
    PlainNameTrimmed(name);
    CallTextArguments(xs);
    FirstCallParts(name, inner, rest, IntsAsReals(xs));
  }

  lemma CallTextShape(name: string, inner: string, rest: string)
    ensures name + "(" + inner + ")" + rest == name + (['('] + (inner + ([')'] + rest)))
  {
  }

  lemma PlainNameTrimmed(name: string)
    requires PlainName(name)
    ensures Trim(name) == name
  {
    TrimUnpadded(name);
  }

  lemma CallTextArguments(xs: seq<int>)
    requires |xs| > 0
    ensures CallArgumentsWithString(FormatVector(xs)) == Some(IntsAsReals(xs))
  {
    var fs := IntsToStrings(xs);
    forall k | 0 <= k < |fs| ensures ',' !in fs[k] {
      IntToStringExcludes(xs[k], ',');
    }
    SplitJoin(fs, ',');
    ParseIntsRoundTrip(xs);
  }

  /** One call followed by anything: the call is read first and the rest is
      read on from its closing parenthesis. */
  lemma ReadCallThenRest(name: string, xs: seq<int>, rest: string)
    requires |xs| > 0 && PlainName(name)
    ensures ParseCalls(CallText(name, xs) + rest) ==
      if KnownArity(name, |xs|) && ParseCalls(rest).Some? then
        Some([MakeCall(name, IntsAsReals(xs)).value] + ParseCalls(rest).value)
      else None
  {
    var s := CallText(name, xs) + rest;
    assert s[0] == name[0];
    assert SkipSeparators(s) == s;
    FirstCallText(name, xs, rest);
  }

  /** Separators between calls are skipped. */
  lemma SeparatorSkipped(sep: char, rest: string)
    requires IsCallSeparator(sep)
    ensures ParseCalls([sep] + rest) == ParseCalls(rest)
  {
    SkipFirst(sep, rest);
  }

  lemma SkipFirst(sep: char, rest: string)
    requires IsCallSeparator(sep)
    ensures SkipSeparators([sep] + rest) == SkipSeparators(rest)
  {
    assert ([sep] + rest)[1..] == rest;
  }

  predicate Integral(c: Call) {
    forall k :: 0 <= k < |CallArguments(c)| ==> CallArguments(c)[k] == CallArguments(c)[k].Floor as real
  }

  function Floors(xs: seq<real>): (r: seq<int>)
    ensures |r| == |xs|
    ensures forall k :: 0 <= k < |xs| ==> r[k] == xs[k].Floor
  {
    seq(|xs|, k requires 0 <= k < |xs| => xs[k].Floor)
  }

  /** The text of a call with whole-number arguments. */
  function Render(c: Call): string {
    CallText(CallName(c), Floors(CallArguments(c)))
  }

  /** Calls written one after another, separated by commas. */
  function RenderAll(cs: seq<Call>): string
    requires |cs| > 0
    decreases |cs|
  {
    if |cs| == 1 then Render(cs[0]) else Render(cs[0]) + ("," + RenderAll(cs[1..]))
  }

  lemma RenderedCall(c: Call, rest: string)
    requires Integral(c)
    ensures ParseCalls(Render(c) + rest) ==
      if ParseCalls(rest).Some? then Some([c] + ParseCalls(rest).value) else None
  {
    var xs := Floors(CallArguments(c));
    assert IntsAsReals(xs) == CallArguments(c);
    MakeCallOfCall(c);
    ReadCallThenRest(CallName(c), xs, rest);
  }

  /** Every list of calls with whole-number arguments, written out and read
      back, gives the same calls in the same order. */
  lemma {:induction false} ReadRenderedCalls(cs: seq<Call>)
    requires |cs| > 0
    requires forall k :: 0 <= k < |cs| ==> Integral(cs[k])
    ensures ParseCalls(RenderAll(cs)) == Some(cs)
    decreases |cs|
  {
    if |cs| == 1 {
      ReadRenderedOne(cs[0]);
      assert [cs[0]] == cs;
    } else {
      var tail := cs[1..];
      assert forall k :: 0 <= k < |tail| ==> tail[k] == cs[k + 1];
      ReadRenderedCalls(tail);
      ReadRenderedStep(cs[0], tail);
      assert [cs[0]] + tail == cs;
    }
  }

  lemma ReadRenderedOne(c: Call)
    requires Integral(c)
    ensures ParseCalls(RenderAll([c])) == Some([c])
  {
    RenderedCall(c, "");
    assert Render(c) + "" == Render(c);
    assert ParseCalls("") == Some([]);
    assert [c] + [] == [c];
  }

  lemma ReadRenderedStep(c: Call, tail: seq<Call>)
    requires Integral(c) && |tail| > 0
    requires ParseCalls(RenderAll(tail)) == Some(tail)
    ensures ParseCalls(RenderAll([c] + tail)) == Some([c] + tail)
  {
    var rest := [','] + RenderAll(tail);
    RenderAllCons(c, tail);
    SeparatorSkipped(',', RenderAll(tail));
    RenderedCall(c, rest);
  }

  lemma RenderAllCons(c: Call, tail: seq<Call>)
    requires |tail| > 0
    ensures RenderAll([c] + tail) == Render(c) + ([','] + RenderAll(tail))
  {
    assert ([c] + tail)[1..] == tail;
  }

  /** The same, for the whole token. */
  lemma ReadRenderedTransform(cs: seq<Call>)
    requires |cs| > 0
    requires forall k :: 0 <= k < |cs| ==> Integral(cs[k])
    ensures ReadInputTransform(RenderAll(cs)) == Some(cs)
  {
    ReadRenderedCalls(cs);
  }

  /** A call whose name is not in the arity table is refused, whatever its
      arguments; so is a known name with the wrong number of arguments. */
  lemma UnknownCallRejected(name: string, xs: seq<int>)
    requires |xs| > 0 && PlainName(name) && !KnownArity(name, |xs|)
    ensures ReadInputTransform(CallText(name, xs)) == None
  {
    ReadCallThenRest(name, xs, "");
    assert CallText(name, xs) + "" == CallText(name, xs);
  }

  /** "skew(1,2)" names no known function. */
  lemma SkewRejected()
    ensures ReadInputTransform("skew(1,2)") == None
  {
    assert NatToString(1) == "1" && NatToString(2) == "2";
    assert FormatVector([1, 2]) == "1,2";
    assert CallText("skew", [1, 2]) == "skew(1,2)";
    UnknownCallRejected("skew", [1, 2]);
  }

  /** "scale(2),translate(3,4)" is the scale call and then the translate
      call, in that order. */
  lemma ScaleThenTranslate()
    ensures ReadInputTransform("scale(2),translate(3,4)") == Some([Scale(2.0), Translate(3.0, 4.0)])
  {
    var cs := [Scale(2.0), Translate(3.0, 4.0)];
    ScaleTwoText();
    TranslateText();
    RenderAllCons(cs[0], cs[1..]);
    assert cs[1..] == [Translate(3.0, 4.0)];
    assert RenderAll(cs) == "scale(2),translate(3,4)";
    ReadRenderedTransform(cs);
  }

  lemma ScaleTwoText()
    ensures Render(Scale(2.0)) == "scale(2)"
    ensures Integral(Scale(2.0))
  {
    assert Floors(CallArguments(Scale(2.0))) == [2];
    assert NatToString(2) == "2";
    assert FormatVector([2]) == "2";
  }

  lemma TranslateText()
    ensures Render(Translate(3.0, 4.0)) == "translate(3,4)"
    ensures Integral(Translate(3.0, 4.0))
  {
    assert Floors(CallArguments(Translate(3.0, 4.0))) == [3, 4];
    assert NatToString(3) == "3" && NatToString(4) == "4";
    assert FormatVector([3, 4]) == "3,4";
  }
}
