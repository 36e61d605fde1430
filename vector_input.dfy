/** readInputVector: a comma-separated list of numbers becomes a vector
    whose components keep the order in which they were written. The commas
    are replaced by spaces and the bracketed text is handed to the vector's
    own string form, "[x y z ...]". */
module VectorInput {
  import opened ScalarGrammar

  /** An ordered list of components; X is the first, Y the second, and so on. */
  datatype Vector = Vector(components: seq<real>) {
    function Count(): nat {
      |components|
    }
  }

  function CommasToSpaces(s: string): (r: string)
    ensures |r| == |s|
    ensures forall i :: 0 <= i < |s| ==> r[i] == (if s[i] == ',' then ' ' else s[i])
  {
    seq(|s|, i requires 0 <= i < |s| => if s[i] == ',' then ' ' else s[i])
  }

  /** Every word is a decimal number. */
  predicate AllNumbers(words: seq<string>) {
    forall k :: 0 <= k < |words| ==> ParseDecimal(words[k]).Some?
  }

  /** The vector's string form: numbers separated by whitespace, between
      square brackets. None when the brackets are missing or a word is not a
      number. */
  function VectorWithString(text: string): (r: Option<Vector>)
    ensures r.Some? <==>
      (|text| >= 2 && text[0] == '[' && text[|text| - 1] == ']' && AllNumbers(Words(text[1..|text| - 1])))
    ensures r.Some? ==> r.value.Count() == |Words(text[1..|text| - 1])|
    ensures r.Some? ==> forall k :: 0 <= k < r.value.Count() ==>
      Some(r.value.components[k]) == ParseDecimal(Words(text[1..|text| - 1])[k])
  {
    if |text| < 2 || text[0] != '[' || text[|text| - 1] != ']' then None
    else
      var xs :- ParseDecimals(Words(text[1..|text| - 1]));
      Some(Vector(xs))
  }

  /** The components are the numbers written in token, read left to right,
      where commas and whitespace both separate numbers; None when any of
      them is not a number. */
  function ReadInputVector(token: string): (r: Option<Vector>)
    ensures r.Some? <==> AllNumbers(Words(CommasToSpaces(token)))
    ensures r.Some? ==> r.value.Count() == |Words(CommasToSpaces(token))|
    ensures r.Some? ==> forall k :: 0 <= k < r.value.Count() ==>
      Some(r.value.components[k]) == ParseDecimal(Words(CommasToSpaces(token))[k])
  {
    var text := "[" + CommasToSpaces(token) + "]";
    assert text[1..|text| - 1] == CommasToSpaces(token);
    VectorWithString(text)
  }

  lemma {:induction false} CommasToSpacesJoin(fields: seq<string>)
    requires |fields| > 0
    requires forall k :: 0 <= k < |fields| ==> ',' !in fields[k]
    ensures CommasToSpaces(Join(fields, ',')) == Join(fields, ' ')
    decreases |fields|
  {
    if |fields| > 1 {
      CommasToSpacesJoin(fields[1..]);
      var a, b := fields[0], Join(fields[1..], ',');
      assert Join(fields, ',') == a + [','] + b;
      assert CommasToSpaces(a + [','] + b) == CommasToSpaces(a) + [' '] + CommasToSpaces(b);
      assert CommasToSpaces(a) == a by {
        forall i | 0 <= i < |a| ensures a[i] != ',' {
          assert a[i] in a;
        }
      }
    } else {
      assert CommasToSpaces(fields[0]) == fields[0] by {
        forall i | 0 <= i < |fields[0]| ensures fields[0][i] != ',' {
          assert fields[0][i] in fields[0];
        }
      }
    }
  }

  /** One component per comma-separated field, in the order written: when
      every field holds one number (spaces around it are allowed), the
      vector's components are exactly those numbers. */
  lemma OneComponentPerField(token: string)
    requires forall k :: 0 <= k < |Split(token, ',')| ==>
      |Trim(Split(token, ',')[k])| > 0 && NoSpace(Trim(Split(token, ',')[k]))
    ensures ReadInputVector(token).Some? <==> ParseDecimals(TrimAll(Split(token, ','))).Some?
    ensures ReadInputVector(token).Some? ==>
      ReadInputVector(token).value.components == ParseDecimals(TrimAll(Split(token, ','))).value
  {
    var fields := Split(token, ',');
    JoinSplit(token, ',');
    CommasToSpacesJoin(fields);
    WordsOfJoin(fields);
    var text := "[" + CommasToSpaces(token) + "]";
    assert text[1..|text| - 1] == CommasToSpaces(token);
  }

  /** The comma-separated rendering of a list of integers. */
  function FormatVector(xs: seq<int>): string
    requires |xs| > 0
  {
    Join(IntsToStrings(xs), ',')
  }

  /** Rendering integers as a comma-separated list and reading it back gives
      the same components in the same order. */
  lemma ReadFormattedVector(xs: seq<int>)
    requires |xs| > 0
    ensures ReadInputVector(FormatVector(xs)) == Some(Vector(IntsAsReals(xs)))
  {
    var fs := IntsToStrings(xs);
    SplitJoin(fs, ',');
    ParseIntsRoundTrip(xs);
    OneComponentPerField(FormatVector(xs));
  }

  /** "0,1,2" gives X = 0, Y = 1, Z = 2. */
  lemma DocExampleVector()
    ensures ReadInputVector("0,1,2") == Some(Vector([0.0, 1.0, 2.0]))
  {
    assert FormatVector([0, 1, 2]) == "0,1,2";
    ReadFormattedVector([0, 1, 2]);
    assert IntsAsReals([0, 1, 2]) == [0.0, 1.0, 2.0];
  }

  /** The rendering holds digits, minus signs and commas only. */
  lemma FormatVectorExcludes(xs: seq<int>, c: char)
    requires |xs| > 0
    requires !IsDigit(c) && c != '-' && c != ','
    ensures c !in FormatVector(xs)
  {
    var fs := IntsToStrings(xs);
    forall k | 0 <= k < |fs| ensures c !in fs[k] {
      IntToStringExcludes(xs[k], c);
    }
    JoinExcludes(fs, ',', c);
  }
}
