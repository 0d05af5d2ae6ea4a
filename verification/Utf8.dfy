/** UTF-8 (section 3 of RFC 3629). A `char` is a Unicode scalar value. */
module Utf8 {
  import opened Prelude

  /** The length of the encoding of a scalar value. */
  function EncodedLength(c: char): (n: nat)
    ensures 1 <= n <= 4
  {
    var u := c as int;
    if u < 0x80 then 1 else if u < 0x800 then 2 else if u < 0x10000 then 3 else 4
  }

  function Encode(c: char): (bytes: seq<Byte>)
    ensures |bytes| == EncodedLength(c)
  {
    var u := c as int;
    if u < 0x80 then [u]
    else if u < 0x800 then [0xc0 + u / 0x40, 0x80 + u % 0x40]
    else if u < 0x10000 then [0xe0 + u / 0x1000, 0x80 + u / 0x40 % 0x40, 0x80 + u % 0x40]
    else [0xf0 + u / 0x40000, 0x80 + u / 0x1000 % 0x40, 0x80 + u / 0x40 % 0x40, 0x80 + u % 0x40]
  }

  function EncodeAll(s: string): seq<Byte> {
    if s == [] then [] else Encode(s[0]) + EncodeAll(s[1..])
  }

  predicate IsAscii(b: Byte) { b < 0x80 }

  predicate IsContinuation(b: Byte) { 0x80 <= b < 0xc0 }

  // ----- decoding -----

  predicate IsScalar(u: int) {
    0 <= u < 0xd800 || 0xe000 <= u < 0x11_0000
  }

  function Scalar(u: int, least: int, length: nat): Option<(char, nat)> {
    if IsScalar(u) && least <= u then Some((u as char, length)) else None
  }

  /** The six bits a continuation byte carries. */
  function Payload(b: Byte): int { b - 0x80 }

  function Lead(b: Byte, marker: Byte): int { b - marker }

  /** The first scalar value and the length of its encoding: no overlong forms, no
      surrogates. */
  function DecodeFirst(b: seq<Byte>): Option<(char, nat)> {
    if |b| == 0 then None
    else if b[0] < 0x80 then Scalar(b[0], 0, 1)
    else if |b| < 2 || b[0] < 0xc0 || !IsContinuation(b[1]) then None
    else if b[0] < 0xe0 then Scalar(Lead(b[0], 0xc0) * 0x40 + Payload(b[1]), 0x80, 2)
    else if |b| < 3 || !IsContinuation(b[2]) then None
    else if b[0] < 0xf0 then Scalar(Lead(b[0], 0xe0) * 0x1000 + Payload(b[1]) * 0x40 + Payload(b[2]), 0x800, 3)
    else if |b| < 4 || !IsContinuation(b[3]) || b[0] >= 0xf8 then None
    else Scalar(Lead(b[0], 0xf0) * 0x40000 + Payload(b[1]) * 0x1000 + Payload(b[2]) * 0x40 + Payload(b[3]), 0x10000, 4)
  }

  lemma DecodeFirstLength(b: seq<Byte>)
    ensures DecodeFirst(b).Some? ==> 0 < DecodeFirst(b).value.1 <= |b|
  {
  }

  function DecodeAll(b: seq<Byte>): Option<string> {
    if b == [] then Some([])
    else
      DecodeFirstLength(b);
      var first :- DecodeFirst(b);
      var rest :- DecodeAll(b[first.1..]);
      Some([first.0] + rest)
  }

  // ----- round trip -----

  lemma SixBitGroups(u: nat)
    ensures u / 0x1000 * 0x1000 + u / 0x40 % 0x40 * 0x40 + u % 0x40 == u
    ensures u / 0x40000 * 0x40000 + u / 0x1000 % 0x40 * 0x1000 + u / 0x40 % 0x40 * 0x40 + u % 0x40 == u
  {
    var q := u / 0x40;
    var r := q / 0x40;
    assert r == u / 0x1000;
    assert r / 0x40 == u / 0x40000;
  }

  lemma DecodeFirstBack(c: char, rest: seq<Byte>)
    ensures DecodeFirst(Encode(c) + rest) == Some((c, EncodedLength(c)))
  {
    var u := c as int;
    assert IsScalar(u);
    SixBitGroups(u);
    var code := Encode(c);
    var b := code + rest;
    assert b[..|code|] == code;
    assert b[0] == code[0];
    if |code| > 1 { assert b[1] == code[1] && IsContinuation(code[1]) && !IsAscii(code[0]); }
    if |code| > 2 { assert b[2] == code[2] && IsContinuation(code[2]); }
    if |code| > 3 { assert b[3] == code[3] && IsContinuation(code[3]); }
  }

  lemma {:induction false} DecodeAllBack(s: string)
    ensures DecodeAll(EncodeAll(s)) == Some(s)
  {
    if s != [] {
      var b := EncodeAll(s);
      DecodeFirstBack(s[0], EncodeAll(s[1..]));
      DecodeAllBack(s[1..]);
      assert b != [] && b[EncodedLength(s[0])..] == EncodeAll(s[1..]);
      assert s == [s[0]] + s[1..];
    }
  }

  lemma EncodeAllInjective(s: string, t: string)
    requires EncodeAll(s) == EncodeAll(t)
    ensures s == t
  {
    DecodeAllBack(s);
    DecodeAllBack(t);
  }

  lemma {:induction false} EncodeAllAppend(s: string, t: string)
    ensures EncodeAll(s + t) == EncodeAll(s) + EncodeAll(t)
  {
    if s == [] {
      assert s + t == t;
    } else {
      assert (s + t)[1..] == s[1..] + t;
      EncodeAllAppend(s[1..], t);
    }
  }

  /** No encoding of a nonempty string begins with a continuation byte, and a byte
      below 0x80 is a whole character. */
  lemma FirstByte(s: string)
    requires s != []
    ensures EncodeAll(s) != [] && !IsContinuation(EncodeAll(s)[0])
    ensures IsAscii(EncodeAll(s)[0]) <==> EncodedLength(s[0]) == 1
    ensures IsAscii(EncodeAll(s)[0]) ==> EncodeAll(s)[0] == s[0] as int && EncodeAll(s)[1..] == EncodeAll(s[1..])
    ensures !IsAscii(EncodeAll(s)[0]) ==> |EncodeAll(s)| > 1 && IsContinuation(EncodeAll(s)[1])
  {
  }

  lemma FirstCharOf(s: string, tail: seq<Byte>)
    requires s != []
    ensures DecodeFirst(EncodeAll(s) + tail) == Some((s[0], EncodedLength(s[0])))
    ensures (EncodeAll(s) + tail)[EncodedLength(s[0])..] == EncodeAll(s[1..]) + tail
  {
    hide Encode, DecodeFirst;
    var c, rest := Encode(s[0]), EncodeAll(s[1..]);
    assert c + rest + tail == c + (rest + tail);
    DecodeFirstBack(s[0], rest + tail);
  }

  lemma FirstCharAlone(s: string)
    requires s != []
    ensures DecodeFirst(EncodeAll(s)) == Some((s[0], EncodedLength(s[0])))
    ensures EncodeAll(s)[EncodedLength(s[0])..] == EncodeAll(s[1..])
  {
    DecodeFirstBack(s[0], EncodeAll(s[1..]));
  }

  lemma FirstCharAgrees(s: string, t: string)
    requires s != [] && EncodeAll(s) <= EncodeAll(t)
    ensures t != [] && s[0] == t[0] && EncodeAll(s[1..]) <= EncodeAll(t[1..])
  {
    FirstByte(s);
    assert t != [];
    hide EncodeAll, Encode, DecodeFirst, EncodedLength, IsAscii, IsContinuation;
    var tail := EncodeAll(t)[|EncodeAll(s)|..];
    assert EncodeAll(t) == EncodeAll(s) + tail;
    FirstCharOf(s, tail);
    FirstCharAlone(t);
    assert EncodeAll(t[1..]) == EncodeAll(s[1..]) + tail;
  }

  /** Texts whose encodings are prefixes of each other are prefixes of each other. */
  lemma {:induction false} EncodedPrefix(s: string, t: string)
    requires EncodeAll(s) <= EncodeAll(t)
    ensures s <= t && EncodeAll(t[|s|..]) == EncodeAll(t)[|EncodeAll(s)|..]
  {
    hide Encode;
    if s == [] {
      assert t[0..] == t;
    } else {
      FirstCharAgrees(s, t);
      EncodedPrefix(s[1..], t[1..]);
      assert t[|s|..] == t[1..][|s[1..]|..];
      assert EncodeAll(t)[|EncodeAll(s)|..] == EncodeAll(t[1..])[|EncodeAll(s[1..])|..];
    }
  }
}
