/** The label builders of src/names.rs, and how a label of a class and a member is read
    from its front: the texts of two pairs agree escape by escape up to the separator of
    one of them. From there on the other pair's class goes on with what the first one's
    member begins with, which must then look like the content of an escape followed by an
    escaped character; the separator can be moved behind both. */
module Symbols {
  import opened Prelude
  import opened Digits
  import opened Utf8
  import opened Names

  // ----- builders -----

  function FunctionSymbol(name: string): string { "_fn_" + Mangled(name) }

  function VariantActiveSymbol(name: string): string { "_fn_variant_active_" + Mangled(name) }

  function EpilogueSymbol(name: string): string { FunctionSymbol(name) + "_epilogue" }

  function GlobalSymbol(name: string): string { "_eir_global_" + Mangled(TrimBackslashes(name)) }

  function WrapperSymbol(classId: nat, interfaceId: nat, name: string): string {
    "_ifacewrap_" + (Decimal(classId) + ("_" + (Decimal(interfaceId) + ("_" + Mangled(name)))))
  }

  /** A class or enum name and a member name. */
  datatype Pair = Pair(owner: string, member: string)

  function PairText(p: Pair): string { Mangled(p.owner) + ("_" + Mangled(p.member)) }

  datatype PairKind = MethodKind | StaticMethodKind | StaticPropertyKind | EnumCaseKind

  function PairPrefix(kind: PairKind): string {
    match kind
    case MethodKind => "_method_"
    case StaticMethodKind => "_static_"
    case StaticPropertyKind => "_static_prop_"
    case EnumCaseKind => "_enum_case_"
  }

  function PairSymbol(kind: PairKind, p: Pair): string { PairPrefix(kind) + PairText(p) }

  // ----- the define() guard -----

  function DefineByte(b: Byte): string {
    if PlainByte(b) then [b as char]
    else if b == '_' as int then "_u"
    else if b == '\\' as int then "_ns"
    else "_x" + Hex(b, 2)
  }

  function DefineBytes(bytes: seq<Byte>): string {
    if bytes == [] then [] else DefineByte(bytes[0]) + DefineBytes(bytes[1..])
  }

  function DefineSeen(name: string): string { "_define_seen" + DefineBytes(EncodeAll(name)) }

  lemma {:induction false} DefineBytesSnoc(bytes: seq<Byte>, last: Byte)
    ensures DefineBytes(bytes + [last]) == DefineBytes(bytes) + DefineByte(last)
  {
    if bytes != [] {
      DefineBytesSnoc(bytes[1..], last);
      assert (bytes + [last])[1..] == bytes[1..] + [last];
    }
  }

  lemma Regroup(a: string, b: string, c: string)
    ensures a + b + c == a + (b + c)
    ensures (a + b + c)[|a|..] == b + c
  {
  }

  method PushDefineBytes(bytes: seq<Byte>, buffer: string) returns (symbol: string)
    ensures symbol == buffer + DefineBytes(bytes)
  {
    symbol := buffer;
    assert DefineBytes([]) == [];
    hide DefineBytes, Hex, PlainByte;
    for i := 0 to |bytes|
      invariant symbol == buffer + DefineBytes(bytes[..i])
    {
      var b := bytes[i];
      assert bytes[..i + 1] == bytes[..i] + [b];
      DefineBytesSnoc(bytes[..i], b);
      ghost var done := DefineBytes(bytes[..i]);
      if PlainByte(b) {
        symbol := symbol + [b as char];
      } else if b == '_' as int {
        symbol := symbol + "_u";
      } else if b == '\\' as int {
        symbol := symbol + "_ns";
      } else {
        symbol := symbol + ("_x" + Hex(b, 2));
      }
      Regroup(buffer, done, DefineByte(b));
    }
    assert bytes[..|bytes|] == bytes;
  }

  method DefineSeenSymbol(name: string) returns (symbol: string)
    ensures symbol == DefineSeen(name)
  {
    symbol := PushDefineBytes(EncodeAll(name), "_define_seen");
  }

  /** The byte a guard label goes on with, and the length of its text. */
  function DefineFirst(s: string): Option<(Byte, nat)> {
    if s == [] then None
    else if IsPlain(s[0]) then Some((s[0] as int, 1))
    else if |s| < 2 then None
    else if s[1] == 'u' then Some(('_' as int, 2))
    else if s[1] == 'n' then Some(('\\' as int, 3))
    else if |s| >= 4 && HexValue(s[2..4]) < 256 then Some((HexValue(s[2..4]), 4))
    else None
  }

  lemma DefineByteReads(b: Byte, rest: string)
    ensures DefineByte(b) != [] && DefineFirst(DefineByte(b) + rest) == Some((b, |DefineByte(b)|))
  {
    var s := DefineByte(b) + rest;
    if !PlainByte(b) && b != '_' as int && b != '\\' as int {
      assert Pow16(2) == 256 by { assert Pow16(1) == 16 * Pow16(0); }
      HexBack(b, 2);
      hide Hex, HexValue;
      assert s[2..4] == Hex(b, 2) && s[1] == 'x';
    } else {
      hide Hex, HexValue;
      assert s[0] == DefineByte(b)[0];
    }
  }

  lemma {:induction false} DefineBytesInjective(x: seq<Byte>, y: seq<Byte>)
    requires DefineBytes(x) == DefineBytes(y)
    ensures x == y
  {
    if x != [] && y != [] {
      DefineByteReads(x[0], DefineBytes(x[1..]));
      DefineByteReads(y[0], DefineBytes(y[1..]));
      assert DefineBytes(x)[|DefineByte(x[0])|..] == DefineBytes(x[1..]);
      assert DefineBytes(y)[|DefineByte(y[0])|..] == DefineBytes(y[1..]);
      DefineBytesInjective(x[1..], y[1..]);
      assert x == [x[0]] + x[1..] && y == [y[0]] + y[1..];
    } else if x != [] {
      DefineByteReads(x[0], DefineBytes(x[1..]));
    } else if y != [] {
      DefineByteReads(y[0], DefineBytes(y[1..]));
    }
  }

  lemma DefineSeenInjective(a: string, b: string)
    requires DefineSeen(a) == DefineSeen(b)
    ensures a == b
  {
    var prefix := "_define_seen";
    assert DefineSeen(a)[|prefix|..] == DefineBytes(EncodeAll(a));
    assert DefineSeen(b)[|prefix|..] == DefineBytes(EncodeAll(b));
    DefineBytesInjective(EncodeAll(a), EncodeAll(b));
    EncodeAllInjective(a, b);
  }

  // ----- reading two mangled texts side by side -----

  /** The texts of two group sequences, each followed by something, agree group by group. */
  lemma FirstGroupsAgree(x: seq<Byte>, s: string, y: seq<Byte>, t: string)
    requires x != [] && y != [] && Groups(x) + s == Groups(y) + t
    ensures x[0] == y[0] && Groups(x[1..]) + s == Groups(y[1..]) + t
  {
    var text := Groups(x) + s;
    FirstGroup(x, s);
    FirstGroup(y, t);
  }

  lemma FirstGroup(x: seq<Byte>, s: string)
    requires x != []
    ensures UngroupFirst(Groups(x) + s) == Some((x[0], |Group(x[0])|))
    ensures |Group(x[0])| <= |Groups(x) + s| && (Groups(x) + s)[|Group(x[0])|..] == Groups(x[1..]) + s
  {
    hide Group, UngroupFirst;
    Regroup(Group(x[0]), Groups(x[1..]), s);
    GroupReads(x[0], Groups(x[1..]) + s);
  }

  /** Both texts start with the shorter group sequence, if a lone underscore follows it. */
  lemma {:induction false} StripOwner(x: seq<Byte>, s: string, y: seq<Byte>, t: string)
    requires Groups(x) + ("_" + s) == Groups(y) + ("_" + t) && Escapes(x) <= Escapes(y)
    ensures |x| <= |y| && y[..|x|] == x
    ensures "_" + s == Groups(y[|x|..]) + ("_" + t)
    decreases |x|
  {
    assert Groups([]) + ("_" + t) == "_" + t;
    if x == [] {
      assert y[0..] == y && Groups(x) + ("_" + s) == "_" + s;
    } else {
      assert (Groups(x) + ("_" + s))[0] == Groups(x)[0];
      FirstGroupsAgree(x, "_" + s, y, "_" + t);
      StripOwner(x[1..], s, y[1..], t);
      assert x == [x[0]] + x[1..] && y == [y[0]] + y[1..];
      assert y[|x|..] == y[1..][|x[1..]|..];
    }
  }

  predicate AllPlain(p: string) {
    forall c :: c in p ==> IsPlain(c)
  }

  /** The bytes of a plain text. */
  function PlainBytes(p: string): (bytes: seq<Byte>)
    requires AllPlain(p)
    ensures |bytes| == |p|
  {
    if p == [] then [] else
      assert p[0] in p;
      assert forall c :: c in p[1..] ==> c in p;
      [p[0] as int] + PlainBytes(p[1..])
  }

  lemma FirstPlain(x: seq<Byte>, s: string, c: char, t: string)
    requires Groups(x) + s == [c] + t && IsPlain(c)
    requires s == [] || s[0] == '_'
    ensures x != [] && x[0] == c as int && Groups(x[1..]) + s == t
  {
    assert x == [] ==> Groups(x) + s == s;
    FirstGroup(x, s);
    assert ([c] + t)[0] == c && ([c] + t)[1..] == t;
    assert UngroupFirst([c] + t) == Some((c as int, 1));
  }

  /** A plain text in front of a group sequence is that many plain bytes. */
  lemma {:induction false} PlainPrefix(x: seq<Byte>, s: string, p: string, t: string)
    requires AllPlain(p) && Groups(x) + s == p + t
    requires s == [] || s[0] == '_'
    ensures |p| <= |x| && x[..|p|] == PlainBytes(p) && Groups(x[|p|..]) + s == t
    decreases |p|
  {
    hide Groups;
    if p == [] {
      assert x[0..] == x && p + t == t;
    } else {
      assert p[0] in p;
      assert p + t == [p[0]] + (p[1..] + t);
      FirstPlain(x, s, p[0], p[1..] + t);
      assert forall c :: c in p[1..] ==> c in p;
      PlainPrefix(x[1..], s, p[1..], t);
      assert x[|p|..] == x[1..][|p[1..]|..];
      assert x[..|p|] == [x[0]] + x[1..][..|p[1..]|];
    }
  }

  // ----- pairs with the same text -----

  predicate IsAsciiChar(c: char) { c as int < 0x80 }

  /** A character written as one escape. */
  predicate IsSpecial(c: char) {
    IsAsciiChar(c) && !IsPlain(c)
  }

  /** The character whose escape has this content. */
  function Unescaped(content: string): Option<char> {
    var b :- UngroupFirst("_" + content + "_");
    if b.0 < 0x80 && !PlainByte(b.0) && Content(b.0) == content then Some(b.0 as char) else None
  }

  /** The length of the content that a member name seems to start with. */
  function ContentLength(member: string): nat {
    if member != [] && member[0] == 'x' then 3 else 1
  }

  /** Moving the separator: a member that starts with the content of an escape and goes
      on with an escaped character can hand both to the owner. */
  function Shift(p: Pair): Option<Pair> {
    var n := ContentLength(p.member);
    if |p.member| <= n || !IsSpecial(p.member[n]) then None
    else
      var c :- Unescaped(p.member[..n]);
      Some(Pair(p.owner + [c] + Content(p.member[n] as int), p.member[n + 1..]))
  }

  function Shifted(p: Pair, n: nat): Option<Pair>
    decreases n
  {
    if n == 0 then Some(p) else
      var q :- Shift(p);
      Shifted(q, n - 1)
  }

  ghost predicate Reaches(p: Pair, q: Pair) {
    exists n: nat :: Shifted(p, n) == Some(q)
  }

  lemma {:induction false} PlainBytesEncode(p: string)
    requires AllPlain(p)
    ensures PlainBytes(p) == EncodeAll(p)
  {
    if p != [] {
      assert p[0] in p;
      assert forall c :: c in p[1..] ==> c in p;
      PlainBytesEncode(p[1..]);
      assert Encode(p[0]) == [p[0] as int];
    }
  }

  lemma {:induction false} PlainBytesGroup(p: string)
    requires AllPlain(p)
    ensures Groups(PlainBytes(p)) == p && Escapes(PlainBytes(p)) == 0
  {
    if p != [] {
      assert p[0] in p;
      assert forall c :: c in p[1..] ==> c in p;
      PlainBytesGroup(p[1..]);
      assert PlainBytes(p)[1..] == PlainBytes(p[1..]);
      assert p == [p[0]] + p[1..];
    }
  }

  lemma EncodeOne(c: char)
    requires IsSpecial(c)
    ensures EncodeAll([c]) == [c as int] && Groups(EncodeAll([c])) == Group(c as int) && Escapes(EncodeAll([c])) == 1
  {
    assert [c][1..] == [] && [c as int][1..] == [];
  }

  lemma {:induction false} MangledAppend(a: string, b: string)
    ensures Mangled(a + b) == Mangled(a) + Mangled(b)
    ensures Escapes(EncodeAll(a + b)) == Escapes(EncodeAll(a)) + Escapes(EncodeAll(b))
  {
    MangledIsBytewise(a);
    MangledIsBytewise(b);
    MangledIsBytewise(a + b);
    EncodeAllAppend(a, b);
    GroupsAppend(EncodeAll(a), EncodeAll(b));
    EscapesAppend(EncodeAll(a), EncodeAll(b));
  }

  lemma MangledSpecial(c: char)
    requires IsSpecial(c)
    ensures Mangled([c]) == "_" + Content(c as int) + "_" && Escapes(EncodeAll([c])) == 1
  {
    MangledIsBytewise([c]);
    EncodeOne(c);
  }

  lemma MangledPlain(p: string)
    requires AllPlain(p)
    ensures Mangled(p) == p && Escapes(EncodeAll(p)) == 0
  {
    MangledIsBytewise(p);
    PlainBytesEncode(p);
    PlainBytesGroup(p);
  }

  lemma UnescapedIs(content: string)
    ensures Unescaped(content).Some? ==> var c := Unescaped(content).value; IsSpecial(c) && Content(c as int) == content
  {
  }

  /** A shift changes neither the text nor anything but the place of the separator. */
  lemma ShiftKeepsText(p: Pair)
    requires Shift(p).Some?
    ensures PairText(Shift(p).value) == PairText(p)
    ensures Escapes(EncodeAll(Shift(p).value.owner)) == Escapes(EncodeAll(p.owner)) + 1
  {
    var n := ContentLength(p.member);
    var first, second, rest := p.member[..n], p.member[n], p.member[n + 1..];
    UnescapedIs(first);
    var c := Unescaped(first).value;
    var moved := Content(second as int);
    var q := Shift(p).value;
    assert q.owner == p.owner + [c] + moved && q.member == rest;
    hide Mangled, Content, Unescaped, EncodeAll, Escapes, Shift;
    assert p.member == first + ([second] + rest);
    MangledAppend(first, [second] + rest);
    MangledAppend([second], rest);
    MangledAppend(p.owner + [c], moved);
    MangledAppend(p.owner, [c]);
    MangledSpecial(c);
    MangledSpecial(second);
    MangledPlain(first);
    MangledPlain(moved);
    var o, r := Mangled(p.owner), Mangled(rest);
    assert Mangled(p.member) == first + ("_" + moved + "_" + r);
    assert Mangled(p.owner + [c] + moved) == o + ("_" + first + "_") + moved;
    SeparatorMoves(o, first, moved, r);
  }

  lemma SeparatorMoves(o: string, f: string, m: string, r: string)
    ensures o + ("_" + (f + ("_" + m + "_" + r))) == o + ("_" + f + "_") + m + ("_" + r)
  {
    var u := "_" + r;
    assert "_" + m + "_" + r == "_" + (m + u);
    Regroup("_", f, "_");
    assert f + ("_" + (m + u)) == f + "_" + (m + u);
    assert "_" + (f + "_" + (m + u)) == "_" + f + "_" + (m + u);
    var g := "_" + f + "_";
    assert o + (g + (m + u)) == o + g + m + u;
  }

  lemma Cancel(a: string, s: string, t: string)
    requires a + s == a + t
    ensures s == t
  {
    assert (a + s)[|a|..] == s && (a + t)[|a|..] == t;
  }

  lemma GroupInFront(c: string, r: string, s: string)
    ensures "_" + c + "_" + r + s == "_" + (c + ("_" + (r + s)))
  {
    assert "_" + c + "_" + r + s == "_" + c + "_" + (r + s);
    var u := r + s;
    assert "_" + c + "_" + u == "_" + (c + ("_" + u));
  }

  lemma FirstSpecial(x: seq<Byte>, s: string, t: string)
    requires x != [] && Groups(x) + s == "_" + t
    ensures !PlainByte(x[0]) && t == Content(x[0]) + ("_" + (Groups(x[1..]) + s))
  {
    var g, r := Group(x[0]), Groups(x[1..]);
    assert Groups(x) == g + r;
    hide Groups;
    assert (g + r + s)[0] == g[0];
    var c := Content(x[0]);
    assert g == "_" + c + "_";
    hide Group, Content;
    GroupInFront(c, r, s);
    Cancel("_", t, c + ("_" + (r + s)));
  }

  /** Where a member name must give way if the owner goes on with y. */
  lemma MemberSplits(y: seq<Byte>, b: seq<Byte>, t: string)
    requires y != [] && "_" + Groups(b) == Groups(y) + ("_" + t)
    ensures !PlainByte(y[0])
    ensures var c := Content(y[0]);
            |c| < |b| && b[..|c|] == PlainBytes(c) && !PlainByte(b[|c|])
            && Content(b[|c|]) + ("_" + Groups(b[|c| + 1..])) == Groups(y[1..]) + ("_" + t)
  {
    FirstSpecial(y, "_" + t, Groups(b));
    var c := Content(y[0]);
    var rest := Groups(y[1..]) + ("_" + t);
    hide Groups, Content;
    assert Groups(b) + "" == c + ("_" + rest);
    PlainPrefix(b, "", c, "_" + rest);
    var b2 := b[|c|..];
    assert Groups(b2) == "_" + rest;
    GroupsOfNone();
    FirstSpecial(b2, "", rest);
    assert b2[1..] == b[|c| + 1..];
    assert Groups(b2[1..]) + "" == Groups(b2[1..]);
  }

  lemma GroupsOfNone()
    ensures Groups([]) == ""
  {
  }

  lemma ExtraOwner(p: Pair, q: Pair)
    requires PairText(p) == PairText(q) && Escapes(EncodeAll(p.owner)) <= Escapes(EncodeAll(q.owner))
    ensures p.owner <= q.owner
    ensures var extra := EncodeAll(q.owner[|p.owner|..]);
            "_" + Groups(EncodeAll(p.member)) == Groups(extra) + ("_" + Groups(EncodeAll(q.member)))
            && Escapes(EncodeAll(q.owner)) == Escapes(EncodeAll(p.owner)) + Escapes(extra)
  {
    hide Mangled, EncodeAll, Groups, Escapes;
    var x, y := EncodeAll(p.owner), EncodeAll(q.owner);
    MangledIsBytewise(p.owner);
    MangledIsBytewise(q.owner);
    MangledIsBytewise(p.member);
    MangledIsBytewise(q.member);
    StripOwner(x, Groups(EncodeAll(p.member)), y, Groups(EncodeAll(q.member)));
    assert y == x + y[|x|..];
    EncodedPrefix(p.owner, q.owner);
    EscapesAppend(x, y[|x|..]);
  }

  /** The first byte of the extra owner text is a whole character. */
  lemma ExtraIsAscii(extra: string, rest: string, tail: string)
    requires extra != [] && rest != [] && rest[0] != '_'
    requires rest == Groups(EncodeAll(extra)[1..]) + tail
    ensures IsAsciiChar(extra[0]) && EncodeAll(extra)[0] == extra[0] as int
  {
    FirstByte(extra);
  }

  /** The escaped character behind the content is a whole character. */
  lemma BehindIsAscii(behind: string, y: seq<Byte>, member: string)
    requires behind != []
    requires Content(EncodeAll(behind)[0]) + ("_" + Groups(EncodeAll(behind)[1..]))
             == Groups(y) + ("_" + Groups(EncodeAll(member)))
    ensures IsAsciiChar(behind[0]) && EncodeAll(behind)[0] == behind[0] as int
  {
    FirstByte(behind);
    var b := EncodeAll(behind);
    if !IsAscii(b[0]) {
      var c, b', t := Content(b[0]), b[1..], "_" + Groups(EncodeAll(member));
      PlainPrefix(y, t, c, "_" + Groups(b'));
      var y' := y[|c|..];
      assert Groups(y') + t == "_" + Groups(b');
      assert !PlainByte(b'[0]) && Groups(b')[0] == '_';
      if y' == [] {
        GroupsOfNone();
        Cancel("_", Groups(EncodeAll(member)), Groups(b'));
        GroupsRead(b');
        GroupsRead(EncodeAll(member));
        FirstByte(member);
      } else {
        FirstSpecial(y', t, Groups(b'));
      }
    }
  }

  lemma PlainInFront(member: string, c: string)
    requires AllPlain(c) && |c| < |EncodeAll(member)| && EncodeAll(member)[..|c|] == PlainBytes(c)
    ensures c < member && EncodeAll(member[|c|..]) == EncodeAll(member)[|c|..]
  {
    PlainBytesEncode(c);
    assert EncodeAll([]) == [];
    hide EncodeAll, PlainBytes, Groups, Escapes;
    EncodedPrefix(c, member);
  }

  lemma CanShift(p: Pair, c: char)
    requires IsSpecial(c) && Content(c as int) < p.member && IsSpecial(p.member[|Content(c as int)|])
    ensures Shift(p).Some?
  {
    ContentUnescapes(c);
    hide Content, Unescaped;
    assert p.member[..|Content(c as int)|] == Content(c as int);
  }

  /** A member gives way to the text its owner could go on with. */
  lemma MemberYields(p: Pair, extra: string, member: string)
    requires extra != []
    requires "_" + Groups(EncodeAll(p.member)) == Groups(EncodeAll(extra)) + ("_" + Groups(EncodeAll(member)))
    ensures Shift(p).Some?
  {
    FirstByte(extra);
    hide EncodeAll, Groups, Content, Unescaped, PlainBytes, Shift;
    var y, b, t := EncodeAll(extra), EncodeAll(p.member), Groups(EncodeAll(member));
    MemberSplits(y, b, t);
    var c := Content(y[0]);
    var n := |c|;
    PlainInFront(p.member, c);
    var behind := p.member[n..];
    assert b[n..][0] == b[n] && b[n..][1..] == b[n + 1..];
    ExtraIsAscii(extra, Content(b[n]) + ("_" + Groups(b[n + 1..])), "_" + t);
    BehindIsAscii(behind, y[1..], member);
    assert behind[0] == p.member[n];
    CanShift(p, extra[0]);
  }

  /** If two pairs have the same text, the one whose owner has fewer escapes can shift. */
  lemma FewerEscapesShifts(p: Pair, q: Pair)
    requires PairText(p) == PairText(q) && Escapes(EncodeAll(p.owner)) < Escapes(EncodeAll(q.owner))
    ensures Shift(p).Some?
  {
    assert EncodeAll([]) == [] && Escapes([]) == 0;
    hide PairText, EncodeAll, Groups, Escapes, Shift;
    ExtraOwner(p, q);
    MemberYields(p, q.owner[|p.owner|..], q.member);
  }

  lemma ContentUnescapes(c: char)
    requires IsSpecial(c)
    ensures Unescaped(Content(c as int)) == Some(c)
    ensures |Content(c as int)| == if Content(c as int)[0] == 'x' then 3 else 1
  {
    GroupReads(c as int, "");
    assert Group(c as int) + "" == "_" + Content(c as int) + "_";
  }

  lemma SameEscapesSamePair(p: Pair, q: Pair)
    requires PairText(p) == PairText(q) && Escapes(EncodeAll(p.owner)) == Escapes(EncodeAll(q.owner))
    ensures p == q
  {
    ExtraOwner(p, q);
    ExtraOwner(q, p);
    assert p.owner == q.owner;
    Cancel(Mangled(p.owner), "_" + Mangled(p.member), "_" + Mangled(q.member));
    Cancel("_", Mangled(p.member), Mangled(q.member));
    MangledInjective(p.member, q.member);
  }
}
