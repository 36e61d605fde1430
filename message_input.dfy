/** UTF-8, the byte encoding that literal messages are turned into. A Dafny
    char is a Unicode scalar value (0 to 0xD7FF or 0xE000 to 0x10FFFF). */
module Utf8 {
  import opened ScalarGrammar

  predicate IsContinuation(b: Byte) {
    0x80 <= b < 0xC0
  }

  /** The one to four bytes that encode one scalar value. */
  function EncodeChar(c: char): (r: seq<Byte>)
    ensures 1 <= |r| <= 4
    ensures (c as int < 0x80) <==> |r| == 1
    ensures forall k :: 1 <= k < |r| ==> IsContinuation(r[k])
  {
    var cp := c as int;
    if cp < 0x80 then [cp]
    else if cp < 0x800 then [0xC0 + cp / 0x40, 0x80 + cp % 0x40]
    else if cp < 0x1_0000 then [0xE0 + cp / 0x1000, 0x80 + (cp / 0x40) % 0x40, 0x80 + cp % 0x40]
    else [0xF0 + cp / 0x4_0000, 0x80 + (cp / 0x1000) % 0x40, 0x80 + (cp / 0x40) % 0x40, 0x80 + cp % 0x40]
  }

  function Encode(s: string): (r: seq<Byte>)
    ensures |s| <= |r| <= 4 * |s|
    decreases |s|
  {
    if s == [] then [] else EncodeChar(s[0]) + Encode(s[1..])
  }

  /** How many bytes a sequence starting with lead byte b occupies, or 0 when
      b cannot start a sequence. */
  function SequenceLength(b: Byte): (n: nat)
    ensures n <= 4
  {
    if b < 0x80 then 1
    else if 0xC0 <= b < 0xE0 then 2
    else if 0xE0 <= b < 0xF0 then 3
    else if 0xF0 <= b < 0xF8 then 4
    else 0
  }

  predicate IsScalarValue(cp: int) {
    (0 <= cp < 0xD800) || (0xE000 <= cp < 0x11_0000)
  }

  /** The smallest code point that needs n bytes; shorter forms are rejected. */
  function MinimumFor(n: nat): int {
    if n <= 1 then 0 else if n == 2 then 0x80 else if n == 3 then 0x800 else 0x1_0000
  }

  function CodePoint(bs: seq<Byte>): int
    requires 1 <= |bs| <= 4
  {
    var b0: int := bs[0];
    if |bs| == 1 then b0
    else
      var b1: int := bs[1];
      if |bs| == 2 then (b0 - 0xC0) * 0x40 + (b1 - 0x80)
      else
        var b2: int := bs[2];
        if |bs| == 3 then (b0 - 0xE0) * 0x1000 + (b1 - 0x80) * 0x40 + (b2 - 0x80)
        else
          var b3: int := bs[3];
          (b0 - 0xF0) * 0x4_0000 + (b1 - 0x80) * 0x1000 + (b2 - 0x80) * 0x40 + (b3 - 0x80)
  }

  /** Decodes exactly one well-formed sequence. */
  function DecodeChar(bs: seq<Byte>): (r: Option<char>)
    ensures r.Some? ==> EncodeChar(r.value) == bs
  {
    if |bs| == 0 || SequenceLength(bs[0]) != |bs| then None
    else if exists k :: 1 <= k < |bs| && !IsContinuation(bs[k]) then None
    else
      var cp := CodePoint(bs);
      if !IsScalarValue(cp) || cp < MinimumFor(|bs|) then None
      else
        EncodeCodePoint(bs, cp);
        Some(cp as char)
  }

  lemma EncodeCodePoint(bs: seq<Byte>, cp: int)
    requires 1 <= |bs| <= 4 && SequenceLength(bs[0]) == |bs|
    requires forall k :: 1 <= k < |bs| ==> IsContinuation(bs[k])
    requires cp == CodePoint(bs) && IsScalarValue(cp) && cp >= MinimumFor(|bs|)
    ensures EncodeChar(cp as char) == bs
  {
    if |bs| == 2 {
      EncodeTwo(bs[0], bs[1], cp);
      assert bs == [bs[0], bs[1]];
    } else if |bs| == 3 {
      EncodeThree(bs[0], bs[1], bs[2], cp);
      assert bs == [bs[0], bs[1], bs[2]];
    } else if |bs| == 4 {
      EncodeFour(bs[0], bs[1], bs[2], bs[3], cp);
      assert bs == [bs[0], bs[1], bs[2], bs[3]];
    }
  }

  lemma EncodeTwo(b0: Byte, b1: Byte, cp: int)
    requires 0xC0 <= b0 < 0xE0 && IsContinuation(b1)
    requires cp == (b0 - 0xC0) * 0x40 + (b1 - 0x80) && IsScalarValue(cp) && cp >= 0x80
    ensures EncodeChar(cp as char) == [b0, b1]
  {
    assert cp < 0x800;
    assert cp / 0x40 == b0 - 0xC0;
    assert cp % 0x40 == b1 - 0x80;
  }

  lemma EncodeThree(b0: Byte, b1: Byte, b2: Byte, cp: int)
    requires 0xE0 <= b0 < 0xF0 && IsContinuation(b1) && IsContinuation(b2)
    requires cp == (b0 - 0xE0) * 0x1000 + (b1 - 0x80) * 0x40 + (b2 - 0x80)
    requires IsScalarValue(cp) && cp >= 0x800
    ensures EncodeChar(cp as char) == [b0, b1, b2]
  {
    assert cp < 0x1_0000;
    assert cp / 0x1000 == b0 - 0xE0;
    assert cp / 0x40 == (b0 - 0xE0) * 0x40 + (b1 - 0x80);
    assert cp % 0x40 == b2 - 0x80;
  }

  lemma EncodeFour(b0: Byte, b1: Byte, b2: Byte, b3: Byte, cp: int)
    requires 0xF0 <= b0 < 0xF8 && IsContinuation(b1) && IsContinuation(b2) && IsContinuation(b3)
    requires cp == (b0 - 0xF0) * 0x4_0000 + (b1 - 0x80) * 0x1000 + (b2 - 0x80) * 0x40 + (b3 - 0x80)
    requires IsScalarValue(cp) && cp >= 0x1_0000
    ensures EncodeChar(cp as char) == [b0, b1, b2, b3]
  {
    assert cp / 0x4_0000 == b0 - 0xF0;
    assert cp / 0x1000 == (b0 - 0xF0) * 0x40 + (b1 - 0x80);
    assert cp / 0x40 == ((b0 - 0xF0) * 0x40 + (b1 - 0x80)) * 0x40 + (b2 - 0x80);
    assert cp % 0x40 == b3 - 0x80;
  }

  /** Decodes a whole byte string, or None when it is not well-formed UTF-8. */
  function Decode(bs: seq<Byte>): (r: Option<string>)
    ensures r.Some? ==> Encode(r.value) == bs
    decreases |bs|
  {
    if bs == [] then Some([])
    else
      var n := SequenceLength(bs[0]);
      if n == 0 || |bs| < n then None
      else
        var c :- DecodeChar(bs[..n]);
        var rest :- Decode(bs[n..]);
        assert ([c] + rest)[1..] == rest;
        assert bs == bs[..n] + bs[n..];
        Some([c] + rest)
  }

  lemma DecodeEncodeChar(c: char)
    ensures SequenceLength(EncodeChar(c)[0]) == |EncodeChar(c)|
    ensures DecodeChar(EncodeChar(c)) == Some(c)
  {
    var cp := c as int;
    if cp < 0x80 {
    } else if cp < 0x800 {
      CodePointTwo(cp);
    } else if cp < 0x1_0000 {
      CodePointThree(cp);
    } else {
      CodePointFour(cp);
    }
  }

  lemma CodePointTwo(cp: int)
    requires 0x80 <= cp < 0x800
    ensures CodePoint([0xC0 + cp / 0x40, 0x80 + cp % 0x40]) == cp
  {
    var q, r := cp / 0x40, cp % 0x40;
    assert cp == q * 0x40 + r;
  }

  lemma CodePointThree(cp: int)
    requires 0x800 <= cp < 0x1_0000
    ensures CodePoint([0xE0 + cp / 0x1000, 0x80 + (cp / 0x40) % 0x40, 0x80 + cp % 0x40]) == cp
  {
    var q, m, r := cp / 0x1000, (cp / 0x40) % 0x40, cp % 0x40;
    assert cp == q * 0x1000 + m * 0x40 + r;
  }

  lemma CodePointFour(cp: int)
    requires 0x1_0000 <= cp < 0x11_0000
    ensures CodePoint([0xF0 + cp / 0x4_0000, 0x80 + (cp / 0x1000) % 0x40, 0x80 + (cp / 0x40) % 0x40, 0x80 + cp % 0x40]) == cp
  {
    SixBitGroups(cp);
  }

  /** cp in base 64, in its four lowest digits. */
  lemma SixBitGroups(cp: nat)
    ensures cp == (cp / 0x4_0000) * 0x4_0000 + ((cp / 0x1000) % 0x40) * 0x1000 + ((cp / 0x40) % 0x40) * 0x40 + cp % 0x40
  {
    var x1 := cp / 0x40;
    var x2 := x1 / 0x40;
    var x3 := x2 / 0x40;
    assert cp == x1 * 0x40 + cp % 0x40;
    assert x1 == x2 * 0x40 + x1 % 0x40;
    assert x2 == x3 * 0x40 + x2 % 0x40;
    assert x2 == cp / 0x1000;
    assert x3 == cp / 0x4_0000;
  }

  /** Every string survives encoding: decoding the bytes gives it back. */
  lemma {:induction false} DecodeEncode(s: string)
    ensures Decode(Encode(s)) == Some(s)
    decreases |s|
  {
    if s != [] {
      var head := EncodeChar(s[0]);
      var bs := Encode(s);
      assert bs == head + Encode(s[1..]);
      DecodeEncodeChar(s[0]);
      assert bs[0] == head[0];
      assert bs[..|head|] == head;
      assert bs[|head|..] == Encode(s[1..]);
      DecodeEncode(s[1..]);
      assert [s[0]] + s[1..] == s;
    }
  }

  /** ASCII text is carried byte for byte. */
  lemma {:induction false} EncodeAscii(s: string)
    requires forall i :: 0 <= i < |s| ==> s[i] as int < 0x80
    ensures |Encode(s)| == |s|
    ensures forall i :: 0 <= i < |s| ==> Encode(s)[i] == s[i] as int
    decreases |s|
  {
    if s != [] {
      EncodeAscii(s[1..]);
    }
  }
}

/** readInputMessage: a message argument is either literal text, carried as
    its UTF-8 bytes, or, when it starts with '@', a reference to a file whose
    contents are the message. */
module MessageInput {
  import opened ScalarGrammar
  import opened Utf8

  datatype Message =
    | Literal(bytes: seq<Byte>)
    | FileReference(path: string)

  function ReadInputMessage(message: string): (m: Message)
    ensures m.FileReference? <==> |message| > 0 && message[0] == '@'
    ensures m.FileReference? ==> message == "@" + m.path
    ensures m.Literal? ==> Decode(m.bytes) == Some(message)
  {
    if |message| > 0 && message[0] == '@' then
      FileReference(message[1..])
    else
      DecodeEncode(message);
      Literal(Encode(message))
  }

  /** Any path can be referenced: prefixing it with '@' names that file. */
  lemma FileReferenceRoundTrip(path: string)
    ensures ReadInputMessage("@" + path) == FileReference(path)
  {
    assert ("@" + path)[1..] == path;
  }

  /** Doc example: a plain message is its own UTF-8 bytes. */
  lemma LiteralMessageExample()
    ensures ReadInputMessage("hello") == Literal([104, 101, 108, 108, 111])
  {
    EncodeAscii("hello");
  }
}
