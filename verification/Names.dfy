/** Lookup keys and assembly labels of PHP names (src/names.rs). */
module Names {
  import opened Prelude
  import opened Digits
  import opened Utf8

  /** Global names are written with or without leading backslashes. */
  function TrimBackslashes(name: string): string {
    if name != [] && name[0] == '\\' then TrimBackslashes(name[1..]) else name
  }

  /** Leading backslashes are removed, all of them and nothing else. */
  lemma {:induction false} TrimExact(name: string, rest: string)
    ensures TrimBackslashes(name) == rest
            <==> |rest| <= |name| && name[|name| - |rest|..] == rest && (rest == [] || rest[0] != '\\')
                 && forall i :: 0 <= i < |name| - |rest| ==> name[i] == '\\'
  {
    if name != [] && name[0] == '\\' {
      TrimExact(name[1..], rest);
      assert |rest| < |name| ==> name[1..][|name| - 1 - |rest|..] == name[|name| - |rest|..];
      assert forall i :: 0 < i < |name| ==> name[i] == name[1..][i - 1];
    } else {
      assert name[0..] == name;
    }
  }

  // ----- lookup keys -----

  function AsciiLower(c: char): char {
    if 'A' <= c <= 'Z' then c + 32 as char else c
  }

  const UPPER: string := "ABCDEFGHIJKLMNOPQRSTUVWXYZ"
  const LOWER: string := "abcdefghijklmnopqrstuvwxyz"

  lemma AsciiLowerExact(c: char)
    ensures forall i :: 0 <= i < 26 ==> AsciiLower(UPPER[i]) == LOWER[i]
    ensures c !in UPPER ==> AsciiLower(c) == c
  {
    if 'A' <= c <= 'Z' {
      assert UPPER[c as int - 'A' as int] == c;
    }
  }

  function Lowercase(s: string): (r: string)
    ensures |r| == |s|
  {
    if s == [] then [] else [AsciiLower(s[0])] + Lowercase(s[1..])
  }

  function SymbolKey(name: string): string {
    Lowercase(name)
  }

  function CanonicalName(namespace: Option<string>, localName: string): string {
    if namespace.Some? && namespace.value != "" then namespace.value + "\\" + localName else localName
  }

  /** Equal up to the case of ASCII letters. */
  predicate EqualIgnoringCase(a: string, b: string) {
    |a| == |b| && forall i :: 0 <= i < |a| ==> AsciiLower(a[i]) == AsciiLower(b[i])
  }

  lemma {:induction false} LowercaseAppend(a: string, b: string)
    ensures Lowercase(a + b) == Lowercase(a) + Lowercase(b)
  {
    if a == [] {
      assert a + b == b;
    } else {
      assert (a + b)[1..] == a[1..] + b;
      LowercaseAppend(a[1..], b);
    }
  }

  lemma {:induction false} LowercaseBackslash(a: string)
    ensures '\\' in Lowercase(a) <==> '\\' in a
  {
    if a != [] {
      LowercaseBackslash(a[1..]);
      assert a == [a[0]] + a[1..];
    }
  }

  lemma {:induction false} LowercaseEach(s: string)
    ensures forall i :: 0 <= i < |s| ==> Lowercase(s)[i] == AsciiLower(s[i])
  {
    if s != [] {
      LowercaseEach(s[1..]);
      forall i | 0 <= i < |s| ensures Lowercase(s)[i] == AsciiLower(s[i]) {
        if i > 0 {
          assert s[i] == s[1..][i - 1] && Lowercase(s)[i] == Lowercase(s[1..])[i - 1];
        }
      }
    }
  }

  lemma IgnoringCaseIsLowercase(a: string, b: string)
    ensures EqualIgnoringCase(a, b) <==> Lowercase(a) == Lowercase(b)
  {
    LowercaseEach(a);
    LowercaseEach(b);
    hide Lowercase, AsciiLower;
    if EqualIgnoringCase(a, b) {
      assert forall i :: 0 <= i < |a| ==> Lowercase(a)[i] == Lowercase(b)[i];
    }
    if Lowercase(a) == Lowercase(b) {
      forall i | 0 <= i < |a| ensures AsciiLower(a[i]) == AsciiLower(b[i]) {
        assert Lowercase(a)[i] == Lowercase(b)[i];
      }
    }
  }

  lemma QualifiedKey(namespace: string, name: string)
    ensures SymbolKey(namespace + "\\" + name) == Lowercase(namespace) + "\\" + Lowercase(name)
    ensures '\\' in SymbolKey(namespace + "\\" + name)
  {
    LowercaseAppend(namespace + "\\", name);
    LowercaseAppend(namespace, "\\");
    assert Lowercase("\\") == "\\" by { assert "\\"[1..] == ""; }
    var key := Lowercase(namespace) + "\\" + Lowercase(name);
    assert key[|Lowercase(namespace)|] == '\\';
  }

  lemma {:induction false} LowercaseText(s: string)
    requires forall c :: c in s ==> !('A' <= c <= 'Z')
    ensures Lowercase(s) == s
  {
    if s != [] {
      assert s[0] in s && forall c :: c in s[1..] ==> c in s;
      LowercaseText(s[1..]);
    }
  }

  // ----- mangling, as the code does it -----

  predicate IsPlain(c: char) {
    'A' <= c <= 'Z' || 'a' <= c <= 'z' || '0' <= c <= '9'
  }

  function HexEscape(b: Byte): string {
    "_x" + Hex(b, 2) + "_"
  }

  function HexEscapes(bytes: seq<Byte>): string {
    if bytes == [] then [] else HexEscape(bytes[0]) + HexEscapes(bytes[1..])
  }

  function MangledChar(c: char): string {
    if IsPlain(c) then [c]
    else if c == '_' then "_u_"
    else if c == '\\' then "_N_"
    else HexEscapes(Encode(c))
  }

  function Mangled(name: string): string {
    if name == [] then [] else MangledChar(name[0]) + Mangled(name[1..])
  }

  lemma {:induction false} HexEscapesSnoc(bytes: seq<Byte>, last: Byte)
    ensures HexEscapes(bytes + [last]) == HexEscapes(bytes) + HexEscape(last)
  {
    if bytes != [] {
      HexEscapesSnoc(bytes[1..], last);
      assert (bytes + [last])[1..] == bytes[1..] + [last];
    }
  }

  lemma {:induction false} MangledSnoc(name: string, last: char)
    ensures Mangled(name + [last]) == Mangled(name) + MangledChar(last)
  {
    if name != [] {
      MangledSnoc(name[1..], last);
      assert (name + [last])[1..] == name[1..] + [last];
    }
  }

  method PushHexEscapes(encoded: seq<Byte>, buffer: string) returns (out: string)
    ensures out == buffer + HexEscapes(encoded)
  {
    out := buffer;
    for j := 0 to |encoded|
      invariant out == buffer + HexEscapes(encoded[..j])
    {
      assert encoded[..j + 1] == encoded[..j] + [encoded[j]];
      HexEscapesSnoc(encoded[..j], encoded[j]);
      out := out + HexEscape(encoded[j]);
    }
    assert encoded[..|encoded|] == encoded;
  }

  method MangleFqn(name: string) returns (mangled: string)
    ensures mangled == Mangled(name)
    ensures Unmangled(mangled) == Some(name)
  {
    mangled := "";
    assert Mangled("") == "";
    hide Mangled, HexEscapes, Encode, Unmangled;
    for i := 0 to |name|
      invariant mangled == Mangled(name[..i])
    {
      var ch := name[i];
      assert name[..i + 1] == name[..i] + [ch];
      MangledSnoc(name[..i], ch);
      if IsPlain(ch) {
        mangled := mangled + [ch];
      } else if ch == '_' {
        mangled := mangled + "_u_";
      } else if ch == '\\' {
        mangled := mangled + "_N_";
      } else {
        mangled := PushHexEscapes(Encode(ch), mangled);
      }
    }
    assert name[..|name|] == name;
    UnmangledBack(name);
  }

  // ----- mangling, byte by byte -----

  /** The text between the underscores of an escape. */
  function Content(b: Byte): (s: string)
    ensures |s| == 1 || |s| == 3
    ensures s[0] in "uNx" && forall c :: c in s ==> IsPlain(c)
  {
    if b == '_' as int then "u" else if b == '\\' as int then "N" else
      HexIsPlain(b);
      "x" + Hex(b, 2)
  }

  predicate PlainByte(b: Byte) {
    IsPlain(b as char)
  }

  function Group(b: Byte): (s: string)
    ensures s != []
    ensures s[0] == '_' <==> !PlainByte(b)
  {
    if PlainByte(b) then [b as char] else "_" + Content(b) + "_"
  }

  function Groups(bytes: seq<Byte>): string {
    if bytes == [] then [] else Group(bytes[0]) + Groups(bytes[1..])
  }

  lemma HexIsPlain(b: Byte)
    ensures forall c :: c in Hex(b, 2) ==> IsPlain(c)
  {
    assert b / 16 % 16 == b / 16;
    assert Hex(b / 16, 1) == Hex(b / 16 / 16, 0) + [DigitChar(b / 16)];
    assert Hex(b, 2) == Hex(b / 16, 1) + [DigitChar(b % 16)];
  }

  lemma {:induction false} GroupsAppend(x: seq<Byte>, y: seq<Byte>)
    ensures Groups(x + y) == Groups(x) + Groups(y)
  {
    if x == [] {
      assert x + y == y;
    } else {
      assert (x + y)[1..] == x[1..] + y;
      GroupsAppend(x[1..], y);
    }
  }

  lemma {:induction false} EscapesAreGroups(bytes: seq<Byte>)
    requires forall b :: b in bytes ==> !PlainByte(b) && b != '_' as int && b != '\\' as int
    ensures HexEscapes(bytes) == Groups(bytes)
  {
    if bytes != [] {
      assert forall b :: b in bytes[1..] ==> b in bytes;
      EscapesAreGroups(bytes[1..]);
      assert HexEscape(bytes[0]) == Group(bytes[0]);
    }
  }

  lemma CharIsBytewise(c: char)
    ensures MangledChar(c) == Groups(Encode(c))
  {
    if IsPlain(c) || c == '_' || c == '\\' {
      assert Encode(c)[1..] == [];
    } else {
      EscapesAreGroups(Encode(c));
    }
  }

  lemma {:induction false} MangledIsBytewise(name: string)
    ensures Mangled(name) == Groups(EncodeAll(name))
  {
    if name != [] {
      CharIsBytewise(name[0]);
      MangledIsBytewise(name[1..]);
      GroupsAppend(Encode(name[0]), EncodeAll(name[1..]));
    }
  }

  // ----- decoding -----

  function UngroupFirst(s: string): Option<(Byte, nat)> {
    if s == [] then None
    else if IsPlain(s[0]) then Some((s[0] as int, 1))
    else if s[0] != '_' || |s| < 3 then None
    else if s[1] == 'u' && s[2] == '_' then Some(('_' as int, 3))
    else if s[1] == 'N' && s[2] == '_' then Some(('\\' as int, 3))
    else if s[1] == 'x' && |s| >= 5 && s[4] == '_' && HexValue(s[2..4]) < 256 then Some((HexValue(s[2..4]), 5))
    else None
  }

  function Ungrouped(s: string): Option<seq<Byte>>
    decreases |s|
  {
    if s == [] then Some([])
    else
      var first :- UngroupFirst(s);
      if first.1 > |s| then None
      else
        var rest :- Ungrouped(s[first.1..]);
        Some([first.0] + rest)
  }

  function Unmangled(s: string): Option<string> {
    var bytes :- Ungrouped(s);
    DecodeAll(bytes)
  }

  lemma HexReads(b: Byte, rest: string)
    requires !PlainByte(b) && b != '_' as int && b != '\\' as int
    ensures UngroupFirst("_x" + Hex(b, 2) + "_" + rest) == Some((b, 5))
  {
    var s := "_x" + Hex(b, 2) + "_" + rest;
    assert Pow16(2) == 256 by { assert Pow16(1) == 16 * Pow16(0); }
    HexBack(b, 2);
    hide Hex, HexValue;
    assert s[2..4] == Hex(b, 2) && s[1] == 'x' && s[4] == '_';
  }

  lemma GroupReads(b: Byte, rest: string)
    ensures UngroupFirst(Group(b) + rest) == Some((b, |Group(b)|))
  {
    hide Hex, HexValue;
    if !PlainByte(b) && b != '_' as int && b != '\\' as int {
      HexReads(b, rest);
      assert Group(b) == "_x" + Hex(b, 2) + "_";
    } else {
      assert (Group(b) + rest)[0] == Group(b)[0];
    }
  }

  lemma {:induction false} GroupsRead(bytes: seq<Byte>)
    ensures Ungrouped(Groups(bytes)) == Some(bytes)
  {
    hide Group, UngroupFirst, Content;
    if bytes != [] {
      GroupReads(bytes[0], Groups(bytes[1..]));
      GroupsRead(bytes[1..]);
      assert Groups(bytes) == Group(bytes[0]) + Groups(bytes[1..]);
      assert Groups(bytes)[|Group(bytes[0])|..] == Groups(bytes[1..]);
      assert bytes == [bytes[0]] + bytes[1..];
    }
  }

  /** Every mangled name decodes to the name. */
  lemma UnmangledBack(name: string)
    ensures Unmangled(Mangled(name)) == Some(name)
  {
    MangledIsBytewise(name);
    GroupsRead(EncodeAll(name));
    DecodeAllBack(name);
  }

  lemma MangledInjective(a: string, b: string)
    requires Mangled(a) == Mangled(b)
    ensures a == b
  {
    UnmangledBack(a);
    UnmangledBack(b);
  }

  // ----- underscores -----

  function Underscores(s: string): nat {
    if s == [] then 0 else (if s[0] == '_' then 1 else 0) + Underscores(s[1..])
  }

  lemma {:induction false} UnderscoresAppend(s: string, t: string)
    ensures Underscores(s + t) == Underscores(s) + Underscores(t)
  {
    if s == [] {
      assert s + t == t;
    } else {
      assert (s + t)[1..] == s[1..] + t;
      UnderscoresAppend(s[1..], t);
    }
  }

  lemma {:induction false} NoUnderscores(s: string)
    requires forall c :: c in s ==> c != '_'
    ensures Underscores(s) == 0
  {
    if s != [] {
      assert forall c :: c in s[1..] ==> c in s;
      assert s[0] in s;
      NoUnderscores(s[1..]);
    }
  }

  /** The number of escapes in a mangled byte string. */
  function Escapes(bytes: seq<Byte>): nat {
    if bytes == [] then 0 else (if PlainByte(bytes[0]) then 0 else 1) + Escapes(bytes[1..])
  }

  lemma {:induction false} EscapesAppend(x: seq<Byte>, y: seq<Byte>)
    ensures Escapes(x + y) == Escapes(x) + Escapes(y)
  {
    if x == [] {
      assert x + y == y;
    } else {
      assert (x + y)[1..] == x[1..] + y;
      EscapesAppend(x[1..], y);
    }
  }

  lemma GroupUnderscores(b: Byte)
    ensures Underscores(Group(b)) == if PlainByte(b) then 0 else 2
  {
    if PlainByte(b) {
      NoUnderscores(Group(b));
    } else {
      NoUnderscores(Content(b));
      UnderscoresAppend("_", Content(b));
      UnderscoresAppend("_" + Content(b), "_");
      assert Underscores("_") == 1 by { assert "_"[1..] == ""; }
    }
  }

  lemma {:induction false} GroupsUnderscores(bytes: seq<Byte>)
    ensures Underscores(Groups(bytes)) == 2 * Escapes(bytes)
  {
    if bytes != [] {
      GroupUnderscores(bytes[0]);
      GroupsUnderscores(bytes[1..]);
      UnderscoresAppend(Group(bytes[0]), Groups(bytes[1..]));
    }
  }

  /** A mangled name has two underscores for every escape, so an even number. */
  lemma MangledUnderscores(name: string)
    ensures Underscores(Mangled(name)) == 2 * Escapes(EncodeAll(name))
  {
    MangledIsBytewise(name);
    GroupsUnderscores(EncodeAll(name));
  }
}
