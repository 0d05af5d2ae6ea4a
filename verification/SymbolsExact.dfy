/** When two labels of src/names.rs are equal. */
module SymbolsExact {
  import opened Prelude
  import opened Digits
  import opened Utf8
  import opened Names
  import opened Symbols

  // ----- exactly which pairs share a text -----

  lemma {:induction false} ShiftedKeepsText(p: Pair, n: nat)
    requires Shifted(p, n).Some?
    ensures PairText(Shifted(p, n).value) == PairText(p)
    ensures Escapes(EncodeAll(Shifted(p, n).value.owner)) == Escapes(EncodeAll(p.owner)) + n
    decreases n
  {
    hide Shift, PairText, EncodeAll, Escapes;
    if n > 0 {
      ShiftKeepsText(p);
      ShiftedKeepsText(Shift(p).value, n - 1);
    }
  }

  lemma {:induction false} SameTextShifts(p: Pair, q: Pair, n: nat)
    requires PairText(p) == PairText(q) && Escapes(EncodeAll(p.owner)) + n == Escapes(EncodeAll(q.owner))
    ensures Shifted(p, n) == Some(q)
    decreases n
  {
    hide Shift, PairText, EncodeAll, Escapes;
    if n == 0 {
      SameEscapesSamePair(p, q);
    } else {
      FewerEscapesShifts(p, q);
      ShiftKeepsText(p);
      SameTextShifts(Shift(p).value, q, n - 1);
    }
  }

  /** Two pairs share a text exactly when shifting the separator of one gives the other. */
  lemma SharedTextExact(p: Pair, q: Pair)
    ensures PairText(p) == PairText(q) <==> Reaches(p, q) || Reaches(q, p)
  {
    if PairText(p) == PairText(q) {
      var m, n := Escapes(EncodeAll(p.owner)), Escapes(EncodeAll(q.owner));
      if m <= n {
        SameTextShifts(p, q, n - m);
      } else {
        SameTextShifts(q, p, m - n);
      }
    }
    if Reaches(p, q) {
      var n: nat :| Shifted(p, n) == Some(q);
      ShiftedKeepsText(p, n);
    }
    if Reaches(q, p) {
      var n: nat :| Shifted(q, n) == Some(p);
      ShiftedKeepsText(q, n);
    }
  }

  // ----- all labels -----

  datatype Symbol =
    | FunctionEntry(name: string)
    | ActiveVariant(name: string)
    | Epilogue(name: string)
    | Global(name: string)
    | Wrapper(classId: nat, interfaceId: nat, name: string)
    | Member(kind: PairKind, pair: Pair)
    | DefineGuard(name: string)

  function LabelOf(s: Symbol): string {
    match s
    case FunctionEntry(name) => FunctionSymbol(name)
    case ActiveVariant(name) => VariantActiveSymbol(name)
    case Epilogue(name) => EpilogueSymbol(name)
    case Global(name) => GlobalSymbol(name)
    case Wrapper(classId, interfaceId, name) => WrapperSymbol(classId, interfaceId, name)
    case Member(kind, pair) => PairSymbol(kind, pair)
    case DefineGuard(name) => DefineSeen(name)
  }

  /** What the first letters of a label say. */
  function Family(s: Symbol): string {
    match s
    case FunctionEntry(_) => "fn"
    case ActiveVariant(_) => "fn"
    case Epilogue(_) => "fn"
    case Global(_) => "ei"
    case Wrapper(_, _, _) => "if"
    case Member(kind, _) =>
      (match kind
       case MethodKind => "me"
       case StaticMethodKind => "st"
       case StaticPropertyKind => "st"
       case EnumCaseKind => "en")
    case DefineGuard(_) => "de"
  }

  lemma FamilyShows(s: Symbol)
    ensures |LabelOf(s)| > 2 && LabelOf(s)[1..3] == Family(s)
  {
    hide Mangled, PairText, Decimal, DefineBytes, EncodeAll;
  }

  lemma OneMoreWord(p: string, word: string)
    requires forall c :: c in word ==> c != '_'
    ensures Underscores(p + word + "_") == Underscores(p) + 1
  {
    NoUnderscores(word);
    UnderscoresAppend(p, word);
    UnderscoresAppend(p + word, "_");
    assert "_"[1..] == "";
  }

  lemma SeparatorCounts()
    ensures Underscores("_") == 1
  {
    assert "_"[1..] == "";
  }

  lemma FunctionPrefixCounts()
    ensures Underscores("_fn_") == 2
  {
    hide Underscores;
    SeparatorCounts();
    OneMoreWord("_", "fn");
    assert "_" + "fn" + "_" == "_fn_";
  }

  lemma VariantPrefixCounts()
    ensures Underscores("_fn_variant_active_") == 4
  {
    hide Underscores;
    FunctionPrefixCounts();
    var p := "_fn_" + "variant" + "_";
    OneMoreWord("_fn_", "variant");
    OneMoreWord(p, "active");
    assert p + "active" + "_" == "_fn_variant_active_";
  }

  lemma EpilogueSuffixCounts()
    ensures Underscores("_epilogue") == 1
  {
    hide Underscores;
    SeparatorCounts();
    NoUnderscores("epilogue");
    UnderscoresAppend("_", "epilogue");
    assert "_" + "epilogue" == "_epilogue";
  }

  lemma StaticPrefixesCount()
    ensures Underscores("_static_") == 2 && Underscores("_static_prop_") == 3
  {
    hide Underscores;
    SeparatorCounts();
    OneMoreWord("_", "static");
    assert "_" + "static" + "_" == "_static_";
    OneMoreWord("_static_", "prop");
    assert "_static_" + "prop" + "_" == "_static_prop_";
  }

  /** Epilogue labels have an odd number of underscores; entry and variant labels an even one. */
  lemma FunctionParity(name: string)
    ensures Underscores(FunctionSymbol(name)) % 2 == 0
    ensures Underscores(VariantActiveSymbol(name)) % 2 == 0
    ensures Underscores(EpilogueSymbol(name)) % 2 == 1
  {
    hide Mangled, Underscores;
    FunctionPrefixCounts();
    VariantPrefixCounts();
    EpilogueSuffixCounts();
    MangledUnderscores(name);
    UnderscoresAppend("_fn_", Mangled(name));
    UnderscoresAppend("_fn_variant_active_", Mangled(name));
    UnderscoresAppend(FunctionSymbol(name), "_epilogue");
  }

  lemma StaticParity(p: Pair)
    ensures Underscores(PairSymbol(StaticMethodKind, p)) % 2 == 1
    ensures Underscores(PairSymbol(StaticPropertyKind, p)) % 2 == 0
  {
    hide Mangled, Underscores;
    SeparatorCounts();
    StaticPrefixesCount();
    MangledUnderscores(p.owner);
    MangledUnderscores(p.member);
    UnderscoresAppend("_", Mangled(p.member));
    UnderscoresAppend(Mangled(p.owner), "_" + Mangled(p.member));
    UnderscoresAppend("_static_", PairText(p));
    UnderscoresAppend("_static_prop_", PairText(p));
  }

  /** No mangled name goes on like a variant label. */
  lemma EntryIsNoVariant(a: string, b: string)
    ensures FunctionSymbol(a) != VariantActiveSymbol(b)
  {
    hide Mangled, Groups, EncodeAll;
    if FunctionSymbol(a) == VariantActiveSymbol(b) {
      var tail := "active_" + Mangled(b);
      assert tail[0] == 'a';
      assert "_fn_variant_active_" + Mangled(b) == "_fn_" + ("variant" + ("_" + tail));
      Cancel("_fn_", Mangled(a), "variant" + ("_" + tail));
      MangledIsBytewise(a);
      var x := EncodeAll(a);
      assert Groups(x) + "" == "variant" + ("_" + tail);
      PlainPrefix(x, "", "variant", "_" + tail);
      GroupsOfNone();
      var y := x[|"variant"|..];
      FirstSpecial(y, "", tail);
    }
  }

  lemma {:induction false} LeadingDigits(x: string, r: string, y: string, s: string)
    requires AllDigits(x) && AllDigits(y) && x + ("_" + r) == y + ("_" + s)
    ensures x == y && r == s
    decreases |x|
  {
    var text := x + ("_" + r);
    assert text[|x|] == '_' && text[|y|] == '_';
    assert forall i :: 0 <= i < |x| ==> text[i] == x[i] != '_';
    assert forall i :: 0 <= i < |y| ==> text[i] == y[i] != '_';
    assert |x| == |y| && text[..|x|] == x && text[..|y|] == y;
    Cancel(x, "_" + r, "_" + s);
    Cancel("_", r, s);
  }

  lemma WrapperInjective(c: nat, i: nat, m: string, c': nat, i': nat, m': string)
    requires WrapperSymbol(c, i, m) == WrapperSymbol(c', i', m')
    ensures c == c' && i == i' && m == m'
  {
    hide Mangled, Decimal;
    var inner, inner' := Decimal(i) + ("_" + Mangled(m)), Decimal(i') + ("_" + Mangled(m'));
    Cancel("_ifacewrap_", Decimal(c) + ("_" + inner), Decimal(c') + ("_" + inner'));
    LeadingDigits(Decimal(c), inner, Decimal(c'), inner');
    LeadingDigits(Decimal(i), Mangled(m), Decimal(i'), Mangled(m'));
    DecimalInjective(c, c');
    DecimalInjective(i, i');
    MangledInjective(m, m');
  }

  lemma CancelRight(s: string, t: string, a: string)
    requires s + a == t + a
    ensures s == t
  {
    assert |s| == |t|;
    assert (s + a)[..|s|] == s && (t + a)[..|t|] == t;
  }

  /** Which symbols may stand for one and the same label. */
  ghost predicate SameSymbol(s: Symbol, t: Symbol) {
    if s.Member? && t.Member? then s.kind == t.kind && (Reaches(s.pair, t.pair) || Reaches(t.pair, s.pair))
    else if s.Global? && t.Global? then TrimBackslashes(s.name) == TrimBackslashes(t.name)
    else s == t
  }

  lemma SameKind(s: Symbol, t: Symbol)
    requires LabelOf(s) == LabelOf(t)
    ensures s.FunctionEntry? <==> t.FunctionEntry?
    ensures s.ActiveVariant? <==> t.ActiveVariant?
    ensures s.Epilogue? <==> t.Epilogue?
    ensures s.Global? <==> t.Global?
    ensures s.Wrapper? <==> t.Wrapper?
    ensures s.DefineGuard? <==> t.DefineGuard?
    ensures s.Member? && t.Member? ==> s.kind == t.kind
  {
    hide FunctionSymbol, VariantActiveSymbol, EpilogueSymbol, GlobalSymbol, WrapperSymbol, PairSymbol, DefineSeen;
    FamilyShows(s);
    FamilyShows(t);
    if Family(s) == "fn" {
      FunctionParity(s.name);
      FunctionParity(t.name);
      EntryIsNoVariant(s.name, t.name);
      EntryIsNoVariant(t.name, s.name);
    }
    if Family(s) == "st" {
      StaticParity(s.pair);
      StaticParity(t.pair);
    }
  }

  /** Two symbols have the same label exactly when they are the same symbol, up to
      leading backslashes of globals and shifts of the separator of pairs. */
  lemma LabelsExact(s: Symbol, t: Symbol)
    ensures LabelOf(s) == LabelOf(t) <==> SameSymbol(s, t)
  {
    hide Mangled, PairText, Decimal, DefineSeen, WrapperSymbol, Reaches;
    if s.Member? && t.Member? {
      SharedTextExact(s.pair, t.pair);
    }
    if LabelOf(s) == LabelOf(t) {
      SameKind(s, t);
      match s
      case FunctionEntry(name) =>
        Cancel("_fn_", Mangled(name), Mangled(t.name));
        MangledInjective(name, t.name);
      case ActiveVariant(name) =>
        Cancel("_fn_variant_active_", Mangled(name), Mangled(t.name));
        MangledInjective(name, t.name);
      case Epilogue(name) =>
        CancelRight(FunctionSymbol(name), FunctionSymbol(t.name), "_epilogue");
        Cancel("_fn_", Mangled(name), Mangled(t.name));
        MangledInjective(name, t.name);
      case Global(name) =>
        Cancel("_eir_global_", Mangled(TrimBackslashes(name)), Mangled(TrimBackslashes(t.name)));
        MangledInjective(TrimBackslashes(name), TrimBackslashes(t.name));
      case Wrapper(c, i, m) => WrapperInjective(c, i, m, t.classId, t.interfaceId, t.name);
      case Member(kind, pair) => Cancel(PairPrefix(kind), PairText(pair), PairText(t.pair));
      case DefineGuard(name) => DefineSeenInjective(name, t.name);
    }
  }

  /** Labels of pairs are injective as long as no member name can shift. */
  lemma PairLabelsInjective(kind: PairKind, p: Pair, q: Pair)
    requires PairSymbol(kind, p) == PairSymbol(kind, q)
    requires (Shift(p).None? && Shift(q).None?) || Escapes(EncodeAll(p.owner)) == Escapes(EncodeAll(q.owner))
    ensures p == q
  {
    hide PairText, EncodeAll, Escapes, Shift;
    Cancel(PairPrefix(kind), PairText(p), PairText(q));
    if Escapes(EncodeAll(p.owner)) < Escapes(EncodeAll(q.owner)) {
      FewerEscapesShifts(p, q);
    } else if Escapes(EncodeAll(q.owner)) < Escapes(EncodeAll(p.owner)) {
      FewerEscapesShifts(q, p);
    } else {
      SameEscapesSamePair(p, q);
    }
  }

  /** A member name that can shift always has a partner with the same label. */
  lemma ShiftableCollides(kind: PairKind, p: Pair)
    requires Shift(p).Some?
    ensures PairSymbol(kind, Shift(p).value) == PairSymbol(kind, p) && Shift(p).value != p
  {
    ShiftKeepsText(p);
  }

  /** Class A with method u_B, and class A_u with method B. */
  lemma MethodLabelsCollide()
    ensures Shift(Pair("A", "u_B")) == Some(Pair("A_u", "B"))
    ensures PairSymbol(MethodKind, Pair("A", "u_B")) == PairSymbol(MethodKind, Pair("A_u", "B"))
  {
    var p := Pair("A", "u_B");
    assert p.member[..1] == "u" && p.member[2..] == "B";
    assert UngroupFirst("_u_") == Some(('_' as int, 3));
    assert "A" + ['_'] + "u" == "A_u";
    ShiftKeepsText(p);
  }

  // ----- labels as they are written -----

  /** Labels contain letters, digits and underscores only. */
  predicate Safe(s: string) {
    forall c :: c in s ==> IsPlain(c) || c == '_'
  }

  lemma {:induction false} GroupsAreSafe(bytes: seq<Byte>)
    ensures Safe(Groups(bytes))
  {
    if bytes != [] {
      GroupsAreSafe(bytes[1..]);
    }
  }

  /** A mangled name is a safe label, for every Unicode string. */
  lemma MangledIsSafe(name: string)
    ensures Safe(Mangled(name))
  {
    MangledIsBytewise(name);
    GroupsAreSafe(EncodeAll(name));
  }

  lemma MangledExamples()
    ensures Mangled("foo") == "foo" && Mangled("a_b") == "a_u_b" && Mangled("A\\B") == "A_N_B"
    ensures Mangled("-") == "_x2d_"
  {
    assert "foo"[1..] == "oo" && "oo"[1..] == "o" && "o"[1..] == "";
    assert "a_b"[1..] == "_b" && "_b"[1..] == "b" && "b"[1..] == "";
    assert "A\\B"[1..] == "\\B" && "\\B"[1..] == "B" && "B"[1..] == "";
    assert "-"[1..] == "";
    MangledDash();
  }

  lemma MangledDash()
    ensures MangledChar('-') == "_x2d_"
  {
    assert Encode('-') == [0x2d];
    assert HexEscapes([0x2d]) == HexEscape(0x2d) + HexEscapes([]);
    assert Hex(0x2d, 2) == Hex(0x2, 1) + [DigitChar(0xd)] && Hex(0x2, 1) == Hex(0, 0) + [DigitChar(2)];
  }

  lemma GuardDash()
    ensures DefineByte(0x2d) == "_x2d"
  {
    assert Hex(0x2d, 2) == Hex(0x2, 1) + [DigitChar(0xd)] && Hex(0x2, 1) == Hex(0, 0) + [DigitChar(2)];
  }

  lemma GuardExample()
    ensures DefineSeen("a_\\-") == "_define_seena_u_ns_x2d"
  {
    var bytes: seq<Byte> := ['a' as int, '_' as int, '\\' as int, 0x2d];
    assert EncodeAll("a_\\-") == bytes by {
      assert "a_\\-"[1..] == "_\\-" && "_\\-"[1..] == "\\-" && "\\-"[1..] == "-" && "-"[1..] == "";
    }
    hide EncodeAll, Hex;
    GuardDash();
    assert DefineByte('a' as int) == "a" && DefineByte('_' as int) == "_u" && DefineByte('\\' as int) == "_ns";
    hide DefineByte;
    assert bytes[1..][1..] == bytes[2..] && bytes[2..][1..] == bytes[3..] && bytes[3..][1..] == [];
    assert DefineBytes(bytes) == "a" + DefineBytes(bytes[1..]);
    assert DefineBytes(bytes[1..]) == "_u" + DefineBytes(bytes[2..]);
    assert DefineBytes(bytes[2..]) == "_ns" + DefineBytes(bytes[3..]);
    assert DefineBytes(bytes[3..]) == "_x2d" + DefineBytes([]);
  }

  lemma WrapperExample()
    ensures WrapperSymbol(1, 20, "a_b") == "_ifacewrap_1_20_a_u_b"
  {
    MangledExamples();
    assert Decimal(1) == "1" && Decimal(20) == Decimal(2) + "0" && Decimal(2) == "2";
    hide Mangled;
  }

  /** One label of every kind. */
  lemma LabelExamples()
    ensures FunctionSymbol("a_b") == "_fn_a_u_b" && VariantActiveSymbol("a_b") == "_fn_variant_active_a_u_b"
    ensures EpilogueSymbol("a_b") == "_fn_a_u_b_epilogue" && GlobalSymbol("\\a_b") == "_eir_global_a_u_b"
    ensures PairSymbol(MethodKind, Pair("foo", "a_b")) == "_method_foo_a_u_b"
    ensures PairSymbol(StaticMethodKind, Pair("foo", "a_b")) == "_static_foo_a_u_b"
    ensures PairSymbol(StaticPropertyKind, Pair("foo", "a_b")) == "_static_prop_foo_a_u_b"
    ensures PairSymbol(EnumCaseKind, Pair("foo", "a_b")) == "_enum_case_foo_a_u_b"
    ensures WrapperSymbol(1, 20, "a_b") == "_ifacewrap_1_20_a_u_b"
    ensures DefineSeen("a_\\-") == "_define_seena_u_ns_x2d"
  {
    MangledExamples();
    WrapperExample();
    GuardExample();
    hide DefineSeen, WrapperSymbol;
    assert "\\a_b"[1..] == "a_b";
    assert TrimBackslashes("\\a_b") == "a_b";
    hide Mangled;
  }
}
