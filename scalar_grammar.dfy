/** Shared low-level grammar of the input-coercion layer: character classes,
    decimal digit strings, splitting on a separator, whitespace trimming,
    ASCII lower-casing and signed decimal numbers. Every token parser of the
    tool is built from these pieces. */
module ScalarGrammar {

  /** The "nil on failure" result of the parsers. */
  datatype Option<+T> = None | Some(value: T) {
    predicate IsFailure() {
      None?
    }

    function PropagateFailure<U>(): Option<U>
      requires None?
    {
      None
    }

    function Extract(): T
      requires Some?
    {
      value
    }
  }

  type Byte = b: int | 0 <= b < 256

  // ---------------------------------------------------------------------
  // Character classes

  predicate IsSpace(c: char) {
    c == ' ' || c == '\t' || c == '\n' || c == '\r'
  }

  predicate IsDigit(c: char) {
    '0' <= c <= '9'
  }

  predicate AllDigits(s: string) {
    forall i :: 0 <= i < |s| ==> IsDigit(s[i])
  }

  predicate NoSpace(s: string) {
    forall i :: 0 <= i < |s| ==> !IsSpace(s[i])
  }

  predicate AllSpace(s: string) {
    forall i :: 0 <= i < |s| ==> IsSpace(s[i])
  }

  predicate StartsWith(s: string, prefix: string) {
    |prefix| <= |s| && s[..|prefix|] == prefix
  }

  // ---------------------------------------------------------------------
  // Decimal digit strings

  function DigitValue(c: char): (d: nat)
    requires IsDigit(c)
    ensures d < 10
  {
    c as int - '0' as int
  }

  function DigitChar(d: nat): (c: char)
    requires d < 10
    ensures IsDigit(c) && DigitValue(c) == d
  {
    ('0' as int + d) as char
  }

  /** The value of a string of decimal digits, most significant first. */
  function DigitsValue(s: string): nat
    requires AllDigits(s)
    decreases |s|
  {
    if s == [] then 0 else 10 * DigitsValue(s[..|s| - 1]) + DigitValue(s[|s| - 1])
  }

  /** The shortest decimal rendering of a natural number. */
  function NatToString(n: nat): (s: string)
    ensures |s| > 0 && AllDigits(s)
    ensures DigitsValue(s) == n
    decreases n
  {
    if n < 10 then [DigitChar(n)]
    else
      var s := NatToString(n / 10) + [DigitChar(n % 10)];
      assert s[..|s| - 1] == NatToString(n / 10);
      s
  }

  /** A signed integer in decimal, with a leading '-' when negative. */
  function IntToString(n: int): (s: string)
    ensures |s| > 0 && NoSpace(s) && ',' !in s && '(' !in s && ')' !in s
  {
    if n < 0 then "-" + NatToString(-n) else NatToString(n)
  }

  function ParseNat(s: string): (r: Option<nat>)
    ensures r.Some? <==> |s| > 0 && AllDigits(s)
    ensures r.Some? ==> r.value == DigitsValue(s)
  {
    if |s| > 0 && AllDigits(s) then Some(DigitsValue(s)) else None
  }

  function Pow10(k: nat): (p: nat)
    ensures p >= 1
  {
    if k == 0 then 1 else 10 * Pow10(k - 1)
  }

  // ---------------------------------------------------------------------
  // Searching, splitting and joining

  /** Index of the first occurrence of c in s, or |s| when there is none. */
  function IndexOf(s: string, c: char): (i: nat)
    ensures i <= |s|
    ensures i < |s| ==> s[i] == c
    ensures forall j :: 0 <= j < i ==> s[j] != c
    decreases |s|
  {
    if s == [] then 0 else if s[0] == c then 0 else 1 + IndexOf(s[1..], c)
  }

  /** The fields of s between occurrences of sep; always at least one. */
  function Split(s: string, sep: char): (parts: seq<string>)
    ensures |parts| > 0
    ensures forall k :: 0 <= k < |parts| ==> sep !in parts[k]
    decreases |s|
  {
    var i := IndexOf(s, sep);
    if i == |s| then [s] else [s[..i]] + Split(s[i + 1..], sep)
  }

  function Join(parts: seq<string>, sep: char): string
    requires |parts| > 0
    decreases |parts|
  {
    if |parts| == 1 then parts[0] else parts[0] + [sep] + Join(parts[1..], sep)
  }

  /** Splitting undoes joining, as long as no field holds the separator. */
  lemma {:induction false} SplitJoin(parts: seq<string>, sep: char)
    requires |parts| > 0
    requires forall k :: 0 <= k < |parts| ==> sep !in parts[k]
    ensures Split(Join(parts, sep), sep) == parts
    decreases |parts|
  {
    if |parts| == 1 {
      IndexOfAbsent(parts[0], sep);
    } else {
      var tail := parts[1..];
      assert forall k :: 0 <= k < |tail| ==> tail[k] == parts[k + 1];
      SplitJoin(tail, sep);
      SplitJoinStep(parts[0], tail, sep);
      assert [parts[0]] + tail == parts;
    }
  }

  lemma SplitJoinStep(p: string, tail: seq<string>, sep: char)
    requires sep !in p && |tail| > 0
    requires Split(Join(tail, sep), sep) == tail
    ensures Split(Join([p] + tail, sep), sep) == [p] + tail
  {
    assert ([p] + tail)[1..] == tail;
    assert Join([p] + tail, sep) == p + [sep] + Join(tail, sep);
    SplitFirst(p, sep, Join(tail, sep));
  }

  /** Joining undoes splitting: Split loses nothing. */
  lemma {:induction false} JoinSplit(s: string, sep: char)
    ensures Join(Split(s, sep), sep) == s
    decreases |s|
  {
    var i := IndexOf(s, sep);
    if i < |s| {
      JoinSplit(s[i + 1..], sep);
      var parts := Split(s, sep);
      assert parts == [s[..i]] + Split(s[i + 1..], sep);
      assert parts[1..] == Split(s[i + 1..], sep);
      assert s == s[..i] + [sep] + s[i + 1..];
    }
  }

  lemma {:induction false} IndexOfAbsent(s: string, c: char)
    requires c !in s
    ensures IndexOf(s, c) == |s|
  {
  }

  lemma IndexOfAfter(p: string, q: string, c: char)
    requires c !in p
    requires |q| > 0 && q[0] == c
    ensures IndexOf(p + q, c) == |p|
  {
    var s := p + q;
    assert forall j :: 0 <= j < |p| ==> s[j] == p[j];
    assert s[|p|] == c;
  }

  // ---------------------------------------------------------------------
  // Whitespace

  function TrimLeft(s: string): (r: string)
    ensures |r| > 0 ==> !IsSpace(r[0])
    decreases |s|
  {
    if |s| > 0 && IsSpace(s[0]) then TrimLeft(s[1..]) else s
  }

  function TrimRight(s: string): (r: string)
    ensures |r| <= |s| && r == s[..|r|] && AllSpace(s[|r|..])
    ensures |r| > 0 ==> !IsSpace(r[|r| - 1])
    decreases |s|
  {
    if |s| > 0 && IsSpace(s[|s| - 1]) then
      var r := TrimRight(s[..|s| - 1]);
      assert s[|r|..] == s[..|s| - 1][|r|..] + [s[|s| - 1]];
      r
    else s
  }

  /** s without its leading and trailing whitespace. */
  function Trim(s: string): (r: string)
    ensures |r| > 0 ==> !IsSpace(r[0]) && !IsSpace(r[|r| - 1])
  {
    TrimRight(TrimLeft(s))
  }

  lemma TrimUnpadded(s: string)
    requires |s| > 0 && !IsSpace(s[0]) && !IsSpace(s[|s| - 1])
    ensures Trim(s) == s
  {
  }

  /** Index of the first whitespace character of s, or |s|. */
  function SpaceIndex(s: string): (i: nat)
    ensures i <= |s|
    ensures i < |s| ==> IsSpace(s[i])
    ensures forall j :: 0 <= j < i ==> !IsSpace(s[j])
    decreases |s|
  {
    if s == [] then 0 else if IsSpace(s[0]) then 0 else 1 + SpaceIndex(s[1..])
  }

  /** The maximal runs of non-whitespace characters of s, in order. */
  function Words(s: string): (ws: seq<string>)
    ensures forall k :: 0 <= k < |ws| ==> |ws[k]| > 0 && NoSpace(ws[k])
    decreases |s|
  {
    if s == [] then []
    else if IsSpace(s[0]) then Words(s[1..])
    else
      var i := SpaceIndex(s);
      [s[..i]] + Words(s[i..])
  }

  lemma {:induction false} WordsOfSpaces(s: string)
    requires AllSpace(s)
    ensures Words(s) == []
    decreases |s|
  {
    if s != [] {
      WordsOfSpaces(s[1..]);
    }
  }

  lemma {:induction false} WordsTrimLeft(s: string)
    ensures Words(s) == Words(TrimLeft(s))
    decreases |s|
  {
    if |s| > 0 && IsSpace(s[0]) {
      WordsTrimLeft(s[1..]);
    }
  }

  /** A single space separates words: the words of x, a space and y are the
      words of x followed by the words of y. */
  lemma {:induction false} WordsSpaceConcat(x: string, y: string)
    ensures Words(x + " " + y) == Words(x) + Words(y)
    decreases |x|
  {
    if x == [] {
      assert x + " " + y == [' '] + y;
      WordsSkipSpace(' ', y);
    } else if IsSpace(x[0]) {
      WordsSpaceConcat(x[1..], y);
      WordsDropSpace(x, y);
    } else if SpaceIndex(x) < |x| {
      var i := SpaceIndex(x);
      WordsSpaceConcat(x[i..], y);
      WordsFirstInside(x, y);
    } else {
      WordsWholeWord(x, y);
    }
  }

  lemma WordsSkipSpace(c: char, y: string)
    requires IsSpace(c)
    ensures Words([c] + y) == Words(y)
  {
    assert ([c] + y)[1..] == y;
  }

  lemma WordsDropSpace(x: string, y: string)
    requires |x| > 0 && IsSpace(x[0])
    ensures Words(x + " " + y) == Words(x[1..] + " " + y)
    ensures Words(x) == Words(x[1..])
  {
    var s := x + " " + y;
    assert s[0] == x[0];
    assert s[1..] == x[1..] + " " + y;
  }

  lemma SpaceIndexExtends(x: string, z: string)
    requires SpaceIndex(x) < |x|
    ensures SpaceIndex(x + z) == SpaceIndex(x)
  {
    var s, i := x + z, SpaceIndex(x);
    assert IsSpace(s[i]);
    assert forall j :: 0 <= j < i ==> s[j] == x[j];
  }

  lemma WordsFirstInside(x: string, y: string)
    requires |x| > 0 && !IsSpace(x[0]) && SpaceIndex(x) < |x|
    ensures Words(x + " " + y) == [x[..SpaceIndex(x)]] + Words(x[SpaceIndex(x)..] + " " + y)
    ensures Words(x) == [x[..SpaceIndex(x)]] + Words(x[SpaceIndex(x)..])
  {
    var s, i := x + " " + y, SpaceIndex(x);
    SpaceIndexExtends(x, " " + y);
    assert s == x + (" " + y);
    assert s[0] == x[0];
    assert s[..i] == x[..i];
    assert s[i..] == x[i..] + " " + y;
  }

  lemma WordsWholeWord(x: string, y: string)
    requires |x| > 0 && !IsSpace(x[0]) && SpaceIndex(x) == |x|
    ensures Words(x + " " + y) == [x] + Words(y)
    ensures Words(x) == [x]
  {
    var s := x + " " + y;
    assert SpaceIndex(s) == |x| by {
      assert IsSpace(s[|x|]);
      assert forall j :: 0 <= j < |x| ==> s[j] == x[j];
    }
    assert s[0] == x[0];
    assert s[..|x|] == x;
    assert s[|x|..] == [' '] + y;
    WordsSkipSpace(' ', y);
    assert x[..|x|] == x && x[|x|..] == [];
  }

  /** A field holding one word between optional padding yields that word. */
  lemma PaddedWord(f: string)
    requires |Trim(f)| > 0 && NoSpace(Trim(f))
    ensures Words(f) == [Trim(f)]
  {
    var l := TrimLeft(f);
    var w := Trim(f);
    WordsTrimLeft(f);
    assert l == w + l[|w|..];
    WordsOfSpaces(l[|w|..]);
    if |l[|w|..]| == 0 {
      assert l == w;
      assert SpaceIndex(w) == |w|;
      assert w[|w|..] == [];
    } else {
      assert SpaceIndex(l) == |w| by { assert IsSpace(l[|w|]); }
      assert l[..|w|] == w;
    }
  }

  // ---------------------------------------------------------------------
  // Letters

  function LowerChar(c: char): (r: char)
    ensures !('A' <= r <= 'Z')
  {
    if 'A' <= c <= 'Z' then (c as int + 32) as char else c
  }

  /** ASCII lower-casing, as used before colour-name lookup. */
  function Lower(s: string): (r: string)
    ensures |r| == |s|
    ensures forall i :: 0 <= i < |s| ==> r[i] == LowerChar(s[i])
  {
    seq(|s|, i requires 0 <= i < |s| => LowerChar(s[i]))
  }

  predicate IsLower(s: string) {
    forall i :: 0 <= i < |s| ==> !('A' <= s[i] <= 'Z')
  }

  lemma LowerIsLower(s: string)
    ensures IsLower(Lower(s))
    ensures Lower(Lower(s)) == Lower(s)
  {
  }

  lemma LowerOfLower(s: string)
    requires IsLower(s)
    ensures Lower(s) == s
  {
  }

  // ---------------------------------------------------------------------
  // Decimal numbers

  /** digits, optionally followed by '.' and at least one fraction digit;
      at least one digit in all, e.g. "255", "0.75", ".5". */
  function ParseUnsignedDecimal(s: string): (r: Option<real>)
    ensures r.Some? ==> r.value >= 0.0
    ensures r.Some? ==> |s| > 0
  {
    var i := IndexOf(s, '.');
    var whole := s[..i];
    var frac := if i < |s| then s[i + 1..] else [];
    if !AllDigits(whole) || !AllDigits(frac) || |whole| + |frac| == 0 || (i < |s| && frac == []) then None
    else
      var fraction := if frac == [] then 0.0 else DigitsValue(frac) as real / Pow10(|frac|) as real;
      Some(DigitsValue(whole) as real + fraction)
  }

  /** An optional '+' or '-' sign followed by an unsigned decimal. */
  function ParseDecimal(s: string): (r: Option<real>)
    ensures r.Some? ==> |s| > 0
  {
    if |s| > 0 && s[0] == '-' then
      var m :- ParseUnsignedDecimal(s[1..]);
      Some(-m)
    else if |s| > 0 && s[0] == '+' then ParseUnsignedDecimal(s[1..])
    else ParseUnsignedDecimal(s)
  }

  lemma ParseNatAsDecimal(s: string)
    requires |s| > 0 && AllDigits(s)
    ensures ParseUnsignedDecimal(s) == Some(DigitsValue(s) as real)
  {
    IndexOfAbsent(s, '.');
    assert s[..|s|] == s;
  }

  /** Rendering an integer and reading it back gives the same number. */
  lemma IntToStringRoundTrip(n: int)
    ensures ParseDecimal(IntToString(n)) == Some(n as real)
  {
    if n < 0 {
      NegativeRoundTrip(n);
    } else {
      ParseNatAsDecimal(NatToString(n));
    }
  }

  lemma NegativeRoundTrip(n: int)
    requires n < 0
    ensures ParseDecimal(IntToString(n)) == Some(n as real)
  {
    var d := NatToString(-n);
    var s := IntToString(n);
    assert s == "-" + d;
    assert s[0] == '-' && s[1..] == d;
    ParseNatAsDecimal(d);
  }

  // ---------------------------------------------------------------------
  // Lists of fields

  function TrimAll(fields: seq<string>): (r: seq<string>)
    ensures |r| == |fields|
    ensures forall k :: 0 <= k < |fields| ==> r[k] == Trim(fields[k])
  {
    seq(|fields|, k requires 0 <= k < |fields| => Trim(fields[k]))
  }

  /** Parses every field as a decimal; None when any field is not one. */
  function ParseDecimals(fields: seq<string>): (r: Option<seq<real>>)
    ensures r.Some? <==> forall k :: 0 <= k < |fields| ==> ParseDecimal(fields[k]).Some?
    ensures r.Some? ==> |r.value| == |fields|
    ensures r.Some? ==> forall k :: 0 <= k < |fields| ==> Some(r.value[k]) == ParseDecimal(fields[k])
  {
    if forall k :: 0 <= k < |fields| ==> ParseDecimal(fields[k]).Some? then
      Some(seq(|fields|, k requires 0 <= k < |fields| && ParseDecimal(fields[k]).Some? => ParseDecimal(fields[k]).value))
    else None
  }

  /** The decimal renderings of a list of integers. */
  function IntsToStrings(xs: seq<int>): (r: seq<string>)
    ensures |r| == |xs|
    ensures forall k :: 0 <= k < |xs| ==> r[k] == IntToString(xs[k])
  {
    seq(|xs|, k requires 0 <= k < |xs| => IntToString(xs[k]))
  }

  function IntsAsReals(xs: seq<int>): (r: seq<real>)
    ensures |r| == |xs|
    ensures forall k :: 0 <= k < |xs| ==> r[k] == xs[k] as real
  {
    seq(|xs|, k requires 0 <= k < |xs| => xs[k] as real)
  }

  /** Rendered integers, padded or not, read back as the same numbers. */
  lemma ParseIntsRoundTrip(xs: seq<int>)
    ensures TrimAll(IntsToStrings(xs)) == IntsToStrings(xs)
    ensures ParseDecimals(IntsToStrings(xs)) == Some(IntsAsReals(xs))
  {
    var fs := IntsToStrings(xs);
    forall k | 0 <= k < |xs|
      ensures Trim(fs[k]) == fs[k]
      ensures ParseDecimal(fs[k]) == Some(xs[k] as real)
    {
      TrimUnpadded(fs[k]);
      IntToStringRoundTrip(xs[k]);
    }
    assert TrimAll(fs) == fs;
    var r := ParseDecimals(fs);
    assert r.Some?;
    assert r.value == IntsAsReals(xs);
  }

  /** Joining words with single spaces and re-splitting at whitespace gives
      back the trimmed fields, one word per field. */
  lemma {:induction false} WordsOfJoin(fields: seq<string>)
    requires |fields| > 0
    requires forall k :: 0 <= k < |fields| ==> |Trim(fields[k])| > 0 && NoSpace(Trim(fields[k]))
    ensures Words(Join(fields, ' ')) == TrimAll(fields)
    decreases |fields|
  {
    if |fields| > 1 {
      var rest := fields[1..];
      assert forall k :: 0 <= k < |rest| ==> rest[k] == fields[k + 1];
      WordsOfJoin(rest);
      WordsOfJoinStep(fields[0], rest);
      assert [fields[0]] + rest == fields;
    } else {
      PaddedWord(fields[0]);
      assert TrimAll(fields) == [Trim(fields[0])];
    }
  }

  lemma WordsOfJoinStep(f: string, rest: seq<string>)
    requires |Trim(f)| > 0 && NoSpace(Trim(f)) && |rest| > 0
    requires Words(Join(rest, ' ')) == TrimAll(rest)
    ensures Words(Join([f] + rest, ' ')) == TrimAll([f] + rest)
  {
    PaddedWord(f);
    JoinCons(f, rest, ' ');
    WordsSpaceConcat(f, Join(rest, ' '));
    TrimAllCons(f, rest);
  }

  lemma JoinCons(f: string, rest: seq<string>, sep: char)
    requires |rest| > 0
    ensures Join([f] + rest, sep) == f + [sep] + Join(rest, sep)
  {
    assert ([f] + rest)[1..] == rest;
  }

  lemma TrimAllCons(f: string, rest: seq<string>)
    ensures TrimAll([f] + rest) == [Trim(f)] + TrimAll(rest)
  {
    var l, r := TrimAll([f] + rest), [Trim(f)] + TrimAll(rest);
    assert |l| == |r|;
    forall k | 0 <= k < |l| ensures l[k] == r[k] {
      if k > 0 {
        assert ([f] + rest)[k] == rest[k - 1];
      }
    }
  }

  /** The first field ends at the first separator. */
  lemma SplitFirst(a: string, sep: char, rest: string)
    requires sep !in a
    ensures Split(a + [sep] + rest, sep) == [a] + Split(rest, sep)
  {
    var s := a + [sep] + rest;
    assert s == a + ([sep] + rest);
    IndexOfAfter(a, [sep] + rest, sep);
    assert s[..|a|] == a;
    assert s[|a| + 1..] == rest;
  }

  lemma SplitThree(a: string, b: string, c: string)
    requires ',' !in a && ',' !in b && ',' !in c
    ensures Split(a + [','] + (b + [','] + c), ',') == [a, b, c]
  {
    SplitFirst(a, ',', b + [','] + c);
    SplitFirst(b, ',', c);
    IndexOfAbsent(c, ',');
  }

  lemma SplitFour(a: string, b: string, c: string, d: string)
    requires ',' !in a && ',' !in b && ',' !in c && ',' !in d
    ensures Split(a + [','] + (b + [','] + (c + [','] + d)), ',') == [a, b, c, d]
  {
    SplitFirst(a, ',', b + [','] + (c + [','] + d));
    SplitThree(b, c, d);
  }

  /** A decimal integer holds only digits and perhaps a minus sign. */
  lemma IntToStringExcludes(n: int, c: char)
    requires !IsDigit(c) && c != '-'
    ensures c !in IntToString(n)
  {
    if n < 0 {
      var d := NatToString(-n);
      assert IntToString(n) == "-" + d;
      assert forall i :: 0 <= i < |d| ==> IsDigit(d[i]);
    } else {
      assert forall i :: 0 <= i < |IntToString(n)| ==> IsDigit(IntToString(n)[i]);
    }
  }

  /** Joining adds no character but the separator. */
  lemma {:induction false} JoinExcludes(parts: seq<string>, sep: char, c: char)
    requires |parts| > 0 && c != sep
    requires forall k :: 0 <= k < |parts| ==> c !in parts[k]
    ensures c !in Join(parts, sep)
    decreases |parts|
  {
    if |parts| > 1 {
      JoinExcludes(parts[1..], sep, c);
      assert Join(parts, sep) == parts[0] + [sep] + Join(parts[1..], sep);
    }
  }
}
