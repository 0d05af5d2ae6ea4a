/** Byte strings kept inside Unicode strings (src/string_bytes.rs). */
module StringBytes {
  import opened Prelude
  import opened Utf8

  const ESCAPED_BYTE_BASE: int := 0xe000
  const ESCAPED_BYTE_END: int := ESCAPED_BYTE_BASE + 0xff

  /** The private-use characters that stand for single bytes. */
  predicate IsMarker(c: char) {
    ESCAPED_BYTE_BASE <= c as int <= ESCAPED_BYTE_END
  }

  function EscapedByte(b: Byte): char {
    if IsAscii(b) then b as char else (ESCAPED_BYTE_BASE + b) as char
  }

  function EscapedBytes(bytes: seq<Byte>): string {
    if bytes == [] then [] else [EscapedByte(bytes[0])] + EscapedBytes(bytes[1..])
  }

  lemma {:induction false} EscapedBytesAppend(bytes: seq<Byte>, last: Byte)
    ensures EscapedBytes(bytes + [last]) == EscapedBytes(bytes) + [EscapedByte(last)]
  {
    if bytes != [] {
      EscapedBytesAppend(bytes[1..], last);
      assert (bytes + [last])[1..] == bytes[1..] + [last];
    }
  }

  function LiteralChar(c: char): string {
    if IsMarker(c) then EscapedBytes(Encode(c)) else [c]
  }

  // ----- building a literal -----

  method PushEscapedByte(byte: Byte, buffer: string) returns (out: string)
    ensures out == buffer + [EscapedByte(byte)]
    ensures PhpBytes(out) == PhpBytes(buffer) + [byte]
  {
    if IsAscii(byte) {
      out := buffer + [byte as char];
    } else {
      out := buffer + [(ESCAPED_BYTE_BASE + byte) as char];
    }
    PhpBytesAppend(buffer, [EscapedByte(byte)]);
    EscapedByteDecodes(byte);
  }

  method PushLiteralChar(ch: char, buffer: string) returns (out: string)
    ensures out == buffer + LiteralChar(ch)
    ensures PhpBytes(out) == PhpBytes(buffer) + Encode(ch)
  {
    out := buffer;
    if IsMarker(ch) {
      var encoded := Encode(ch);
      for i := 0 to |encoded|
        invariant out == buffer + EscapedBytes(encoded[..i])
        invariant PhpBytes(out) == PhpBytes(buffer) + encoded[..i]
      {
        EscapedBytesAppend(encoded[..i], encoded[i]);
        out := PushEscapedByte(encoded[i], out);
        assert encoded[..i] + [encoded[i]] == encoded[..i + 1];
      }
      assert encoded[..|encoded|] == encoded;
    } else {
      out := out + [ch];
      PhpBytesAppend(buffer, [ch]);
    }
  }

  // ----- decoding -----

  function CharBytes(c: char): (bytes: seq<Byte>) {
    if IsMarker(c) then [c as int - ESCAPED_BYTE_BASE] else Encode(c)
  }

  /** The PHP bytes a literal stands for. */
  function PhpBytes(value: string): seq<Byte> {
    if value == [] then [] else CharBytes(value[0]) + PhpBytes(value[1..])
  }

  lemma {:induction false} PhpBytesAppend(a: string, b: string)
    ensures PhpBytes(a + b) == PhpBytes(a) + PhpBytes(b)
  {
    if a == [] {
      assert a + b == b;
    } else {
      assert (a + b)[1..] == a[1..] + b;
      PhpBytesAppend(a[1..], b);
    }
  }

  /** Each of the 256 private-use characters stands for one byte, every other character for
      its UTF-8. */
  lemma MarkerBytes(c: char)
    ensures PhpBytes([c]) == if 0xe000 <= c as int <= 0xe0ff then [c as int - 0xe000] else Encode(c)
  {
    assert [c][1..] == [];
  }

  lemma EscapedByteDecodes(b: Byte)
    ensures PhpBytes([EscapedByte(b)]) == [b]
  {
    assert PhpBytes([EscapedByte(b)][1..]) == [];
  }

  method LiteralBytes(value: string) returns (bytes: seq<Byte>)
    ensures bytes == PhpBytes(value)
  {
    bytes := [];
    for i := 0 to |value|
      invariant bytes == PhpBytes(value[..i])
    {
      var ch := value[i];
      assert value[..i + 1] == value[..i] + [ch];
      PhpBytesAppend(value[..i], [ch]);
      if IsMarker(ch) {
        bytes := bytes + [ch as int - ESCAPED_BYTE_BASE];
      } else {
        bytes := bytes + Encode(ch);
      }
    }
    assert value[..|value|] == value;
  }

  /** The byte length computed without decoding. */
  function LiteralByteLen(value: string): (n: nat)
    ensures n == |PhpBytes(value)|
  {
    if value == [] then 0
    else (if IsMarker(value[0]) then 1 else EncodedLength(value[0])) + LiteralByteLen(value[1..])
  }

  // ----- payload and bytes -----

  predicate NoMarker(value: string) {
    forall c :: c in value ==> !IsMarker(c)
  }

  /** A literal stands for its own UTF-8 exactly when it holds no marker; otherwise for fewer bytes. */
  lemma {:induction false} OwnBytesExact(value: string)
    ensures PhpBytes(value) == EncodeAll(value) <==> NoMarker(value)
    ensures |PhpBytes(value)| <= |EncodeAll(value)|
    ensures |PhpBytes(value)| == |EncodeAll(value)| <==> NoMarker(value)
  {
    hide Encode;
    if value != [] {
      OwnBytesExact(value[1..]);
      assert value[0] in value && forall c :: c in value <==> c == value[0] || c in value[1..];
      MarkerIsLonger(value[0]);
    }
  }

  lemma MarkerIsLonger(c: char)
    ensures IsMarker(c) ==> EncodedLength(c) == 3
  {
  }

  // ----- a whole literal -----

  /** What the lexer appends to a literal, piece by piece. */
  datatype Piece = RawByte(byte: Byte) | SourceChar(ch: char)

  function PieceBytes(p: Piece): seq<Byte> {
    match p
    case RawByte(b) => [b]
    case SourceChar(c) => Encode(c)
  }

  function Meant(pieces: seq<Piece>): seq<Byte> {
    if pieces == [] then [] else PieceBytes(pieces[0]) + Meant(pieces[1..])
  }

  function Built(pieces: seq<Piece>): string {
    if pieces == [] then []
    else (match pieces[0] case RawByte(b) => [EscapedByte(b)] case SourceChar(c) => LiteralChar(c)) + Built(pieces[1..])
  }

  lemma {:induction false} EscapedBytesDecode(bytes: seq<Byte>)
    ensures PhpBytes(EscapedBytes(bytes)) == bytes
  {
    if bytes != [] {
      EscapedBytesDecode(bytes[1..]);
      EscapedByteDecodes(bytes[0]);
      PhpBytesAppend([EscapedByte(bytes[0])], EscapedBytes(bytes[1..]));
    }
  }

  /** Decoding a built literal gives the bytes and the encoded characters it was built
      from, also for characters inside the marker range. */
  lemma {:induction false} BuiltDecodes(pieces: seq<Piece>)
    ensures PhpBytes(Built(pieces)) == Meant(pieces)
    ensures LiteralByteLen(Built(pieces)) == |Meant(pieces)|
  {
    if pieces != [] {
      BuiltDecodes(pieces[1..]);
      var first := match pieces[0] case RawByte(b) => [EscapedByte(b)] case SourceChar(c) => LiteralChar(c);
      PhpBytesAppend(first, Built(pieces[1..]));
      match pieces[0]
      case RawByte(b) => EscapedByteDecodes(b);
      case SourceChar(c) =>
        if IsMarker(c) {
          EscapedBytesDecode(Encode(c));
        } else {
          assert PhpBytes([c][1..]) == [];
        }
    }
  }
}
