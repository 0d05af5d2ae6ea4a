/** Reading a printed data section back (src/codegen/data_section.rs). The reader takes the
    text from the front, item by item: a common symbol, or a label followed by a string
    literal, by one number, or by lines of words. What is printed is written as such
    items, and every item is read back whatever comes after it. */
module SectionReader {
  import opened Prelude
  import opened Digits
  import opened DataSection
  import opened DataEmission

  // ----- pieces of text -----

  function Expect(piece: string, text: string): Option<string> {
    if piece <= text then Some(text[|piece|..]) else None
  }

  lemma ExpectReads(piece: string, rest: string)
    ensures Expect(piece, piece + rest) == Some(rest)
  {
  }

  /** The text up to the first such character, and what follows it. */
  function Until(text: string, stop: char): Option<(string, string)> {
    if text == [] then None
    else if text[0] == stop then Some(([], text[1..]))
    else
      var r :- Until(text[1..], stop);
      Some(([text[0]] + r.0, r.1))
  }

  lemma {:induction false} UntilReads(s: string, stop: char, rest: string)
    requires stop !in s
    ensures Until(s + ([stop] + rest), stop) == Some((s, rest))
  {
    var text := s + ([stop] + rest);
    if s == [] {
      assert text[1..] == rest;
    } else {
      assert s[0] in s && forall c :: c in s[1..] ==> c in s;
      UntilReads(s[1..], stop, rest);
      assert text[1..] == s[1..] + ([stop] + rest);
      assert s == [s[0]] + s[1..];
    }
  }

  const COMM := ".comm "
  const GLOBL := ".globl "
  const ALIGN := ".p2align 3\n"
  const ASCII := "    .ascii \""
  const QUAD := "    .quad "
  const HEX := "0x"

  // ----- items -----

  datatype Item =
    | CommItem(comm: Comm)
    | StringItem(symbol: string, bytes: seq<Byte>)
    | FloatItem(symbol: string, bits: U64)
    | WordsItem(symbol: string, words: seq<DataWord>)

  function CommLine(c: Comm): string {
    COMM + (c.symbol + ([','] + (" " + (Decimal(c.size) + ([','] + " 3\n")))))
  }

  function HeaderOf(symbol: string): string {
    GLOBL + (symbol + (['\n'] + (symbol + ":\n")))
  }

  function WordToken(w: DataWord): string {
    match w
    case Number(value) => HEX + Hex(value, 16)
    case Symbol(name) => name
  }

  function QuadLine(w: DataWord): string {
    QUAD + (WordToken(w) + ['\n'])
  }

  function QuadLines(words: seq<DataWord>): string {
    if words == [] then "" else QuadLine(words[0]) + QuadLines(words[1..])
  }

  function ItemText(item: Item): string {
    match item
    case CommItem(c) => CommLine(c)
    case StringItem(symbol, bytes) => HeaderOf(symbol) + (ASCII + (Escape(bytes) + ([QUOTE] + ['\n'])))
    case FloatItem(symbol, bits) => ALIGN + (HeaderOf(symbol) + QuadLine(Number(bits)))
    case WordsItem(symbol, words) => ALIGN + (HeaderOf(symbol) + QuadLines(words))
  }

  function ItemsText(items: seq<Item>): string {
    if items == [] then "" else ItemText(items[0]) + ItemsText(items[1..])
  }

  // ----- readers -----

  function ReadComm(text: string): Option<(Item, string)> {
    var t1 :- Expect(COMM, text);
    var symbol :- Until(t1, ',');
    var t2 :- Expect(" ", symbol.1);
    var size :- Until(t2, ',');
    var t3 :- Expect(" 3\n", size.1);
    Some((CommItem(Comm(symbol.0, DecimalValue(size.0))), t3))
  }

  function ReadHeader(text: string): Option<(string, string)> {
    var t1 :- Expect(GLOBL, text);
    var symbol :- Until(t1, '\n');
    var t2 :- Expect(symbol.0 + ":\n", symbol.1);
    Some((symbol.0, t2))
  }

  function ReadString(text: string): Option<(Item, string)> {
    var header :- ReadHeader(text);
    var t1 :- Expect(ASCII, header.1);
    var literal :- ReadLiteral(t1);
    var t2 :- Expect(['\n'], literal.1);
    Some((StringItem(header.0, literal.0), t2))
  }

  function ReadToken(token: string): Option<DataWord> {
    if HEX <= token then
      if HexValue(token[2..]) < 0x1_0000_0000_0000_0000 then Some(Number(HexValue(token[2..]))) else None
    else Some(Symbol(token))
  }

  function ReadQuad(text: string): Option<(DataWord, string)> {
    var t1 :- Expect(QUAD, text);
    var token :- Until(t1, '\n');
    var word :- ReadToken(token.0);
    Some((word, token.1))
  }

  /** Quads as long as the text goes on with an indented line. */
  function ReadQuads(text: string): Option<(seq<DataWord>, string)>
    decreases |text|
  {
    if text == [] || text[0] != ' ' then Some(([], text))
    else
      var quad :- ReadQuad(text);
      if |quad.1| >= |text| then None
      else
        var rest :- ReadQuads(quad.1);
        Some(([quad.0] + rest.0, rest.1))
  }

  /** Float labels begin with `_f`. */
  function ReadAligned(text: string): Option<(Item, string)> {
    var t1 :- Expect(ALIGN, text);
    var header :- ReadHeader(t1);
    if |header.0| > 1 && header.0[1] == 'f' then
      var quad :- ReadQuad(header.1);
      if quad.0.Number? then Some((FloatItem(header.0, quad.0.value), quad.1)) else None
    else
      var quads :- ReadQuads(header.1);
      Some((WordsItem(header.0, quads.0), quads.1))
  }

  function ReadItem(text: string): Option<(Item, string)> {
    if |text| < 2 then None
    else if text[1] == 'c' then ReadComm(text)
    else if text[1] == 'g' then ReadString(text)
    else ReadAligned(text)
  }

  function ReadItems(text: string): Option<seq<Item>>
    decreases |text|
  {
    if text == [] then Some([])
    else
      var item :- ReadItem(text);
      if |item.1| >= |text| then None
      else
        var rest :- ReadItems(item.1);
        Some([item.0] + rest)
  }

  // ----- what can be read -----

  /** Symbols are made of letters, digits and underscores and do not begin with a digit. */
  predicate IsSymbol(s: string) {
    s != [] && !IsDigit(s[0]) && forall c :: c in s ==> c != '\n' && c != ','
  }

  predicate ReadableWord(w: DataWord) {
    w.Symbol? ==> IsSymbol(w.name)
  }

  predicate Readable(item: Item) {
    match item
    case CommItem(c) => IsSymbol(c.symbol)
    case StringItem(symbol, _) => '\n' !in symbol
    case FloatItem(symbol, _) => '\n' !in symbol && |symbol| > 1 && symbol[1] == 'f'
    case WordsItem(symbol, words) =>
      '\n' !in symbol && |symbol| > 1 && symbol[1] != 'f' && forall w :: w in words ==> ReadableWord(w)
  }

  lemma DigitsOnly(n: nat)
    ensures ',' !in Decimal(n)
  {
  }

  lemma CommReads(c: Comm, rest: string)
    requires IsSymbol(c.symbol)
    ensures ReadComm(CommLine(c) + rest) == Some((CommItem(c), rest))
  {
    var digits := Decimal(c.size);
    var t4 := " 3\n" + rest;
    var t3 := digits + ([','] + t4);
    var t2 := " " + t3;
    var t1 := c.symbol + ([','] + t2);
    DecimalBack(c.size);
    DigitsOnly(c.size);
    UntilReads(c.symbol, ',', t2);
    UntilReads(digits, ',', t4);
    ExpectReads(" ", t3);
    ExpectReads(" 3\n", rest);
    ExpectReads(COMM, t1);
    hide Decimal, DecimalValue, Until, Expect, COMM;
    CommLineSplits(COMM, c.symbol, digits, rest);
  }

  lemma CommLineSplits(a: string, s: string, d: string, rest: string)
    ensures a + (s + ([','] + (" " + (d + ([','] + " 3\n"))))) + rest
            == a + (s + ([','] + (" " + (d + ([','] + (" 3\n" + rest))))))
  {
  }

  lemma HeaderReads(symbol: string, rest: string)
    requires '\n' !in symbol
    ensures ReadHeader(HeaderOf(symbol) + rest) == Some((symbol, rest))
  {
    var t2 := symbol + ":\n" + rest;
    var t1 := symbol + (['\n'] + t2);
    ExpectReads(GLOBL, t1);
    UntilReads(symbol, '\n', t2);
    ExpectReads(symbol + ":\n", rest);
    hide Until, Expect, GLOBL;
    assert HeaderOf(symbol) + rest == GLOBL + t1;
  }

  lemma StringReads(symbol: string, bytes: seq<Byte>, rest: string)
    requires '\n' !in symbol
    ensures ReadString(ItemText(StringItem(symbol, bytes)) + rest) == Some((StringItem(symbol, bytes), rest))
  {
    var t2 := ['\n'] + rest;
    var t1 := Escape(bytes) + [QUOTE] + t2;
    HeaderReads(symbol, ASCII + t1);
    ExpectReads(ASCII, t1);
    LiteralReadsBack(bytes, t2);
    ExpectReads(['\n'], rest);
    hide HeaderOf, ReadHeader, Expect, ReadLiteral, Escape, ASCII;
    LiteralJoins(HeaderOf(symbol), ASCII, Escape(bytes), rest);
  }

  lemma LiteralJoins(header: string, a: string, text: string, rest: string)
    ensures header + (a + (text + ([QUOTE] + ['\n']))) + rest == header + (a + (text + [QUOTE] + (['\n'] + rest)))
  {
    assert text + ([QUOTE] + ['\n']) + rest == text + [QUOTE] + (['\n'] + rest);
  }

  lemma TokenReads(w: DataWord)
    requires ReadableWord(w)
    ensures ReadToken(WordToken(w)) == Some(w) && '\n' !in WordToken(w)
  {
    match w
    case Number(value) =>
      SixteenDigits();
      HexBack(value, 16);
      HexHasNoBreak(value, 16);
      assert (HEX + Hex(value, 16))[2..] == Hex(value, 16);
    case Symbol(name) => assert HEX[0] == '0';
  }

  lemma {:induction false} HexHasNoBreak(n: nat, width: nat)
    ensures '\n' !in Hex(n, width)
    decreases width
  {
    if width > 0 {
      DigitBack(n % 16);
      HexHasNoBreak(n / 16, width - 1);
      assert DigitChar(n % 16) != '\n';
    }
  }

  lemma QuadReads(w: DataWord, rest: string)
    requires ReadableWord(w)
    ensures ReadQuad(QuadLine(w) + rest) == Some((w, rest))
  {
    var t1 := WordToken(w) + (['\n'] + rest);
    TokenReads(w);
    ExpectReads(QUAD, t1);
    UntilReads(WordToken(w), '\n', rest);
    hide WordToken, ReadToken, Expect, Until, QUAD, ReadableWord;
    TokenJoins(QUAD, WordToken(w), rest);
  }

  lemma TokenJoins(a: string, token: string, rest: string)
    ensures a + (token + ['\n']) + rest == a + (token + (['\n'] + rest))
  {
  }

  lemma QuadsJoin(line: string, lines: string, rest: string)
    ensures line + lines + rest == line + (lines + rest)
  {
  }

  lemma QuadStarts(w: DataWord)
    ensures QuadLine(w) != [] && QuadLine(w)[0] == ' '
  {
    hide WordToken;
    assert QUAD[0] == ' ';
  }

  lemma {:induction false} QuadsRead(words: seq<DataWord>, rest: string)
    requires (forall w :: w in words ==> ReadableWord(w)) && (rest == [] || rest[0] != ' ')
    ensures ReadQuads(QuadLines(words) + rest) == Some((words, rest))
    decreases |words|
  {
    if words == [] {
      assert QuadLines(words) + rest == rest;
    } else {
      var tail := QuadLines(words[1..]) + rest;
      assert words[0] in words && forall w :: w in words[1..] ==> w in words;
      QuadReads(words[0], tail);
      QuadsRead(words[1..], rest);
      QuadStarts(words[0]);
      hide QuadLine, ReadQuad, ReadableWord;
      QuadsJoin(QuadLine(words[0]), QuadLines(words[1..]), rest);
      assert words == [words[0]] + words[1..];
    }
  }

  lemma FloatReads(symbol: string, bits: U64, rest: string)
    requires Readable(FloatItem(symbol, bits))
    ensures ReadAligned(ItemText(FloatItem(symbol, bits)) + rest) == Some((FloatItem(symbol, bits), rest))
  {
    var t2 := QuadLine(Number(bits)) + rest;
    ExpectReads(ALIGN, HeaderOf(symbol) + t2);
    HeaderReads(symbol, t2);
    QuadReads(Number(bits), rest);
    hide HeaderOf, ReadHeader, QuadLine, ReadQuad, Expect, ALIGN;
    assert ItemText(FloatItem(symbol, bits)) + rest == ALIGN + (HeaderOf(symbol) + t2);
  }

  lemma WordsRead(symbol: string, words: seq<DataWord>, rest: string)
    requires Readable(WordsItem(symbol, words)) && (rest == [] || rest[0] != ' ')
    ensures ReadAligned(ItemText(WordsItem(symbol, words)) + rest) == Some((WordsItem(symbol, words), rest))
  {
    var t2 := QuadLines(words) + rest;
    ExpectReads(ALIGN, HeaderOf(symbol) + t2);
    HeaderReads(symbol, t2);
    QuadsRead(words, rest);
    hide HeaderOf, ReadHeader, QuadLines, ReadQuads, Expect, ALIGN;
    assert ItemText(WordsItem(symbol, words)) + rest == ALIGN + (HeaderOf(symbol) + t2);
  }

  lemma ItemStarts(item: Item, rest: string)
    ensures var text := ItemText(item) + rest;
            |ItemText(item)| >= 2 && text[0] == '.'
              && text[1] == (if item.CommItem? then 'c' else if item.StringItem? then 'g' else 'p')
  {
    var text := ItemText(item);
    hide Decimal, Escape, QuadLines, QuadLine;
    assert |COMM| > 2 && COMM[0] == '.' && COMM[1] == 'c';
    assert |GLOBL| > 2 && GLOBL[0] == '.' && GLOBL[1] == 'g';
    assert |ALIGN| > 2 && ALIGN[0] == '.' && ALIGN[1] == 'p';
    hide COMM, GLOBL, ALIGN, ASCII;
    match item
    case CommItem(c) => assert text[..2] == COMM[..2];
    case StringItem(_, _) => assert text[..2] == GLOBL[..2];
    case FloatItem(_, _) => assert text[..2] == ALIGN[..2];
    case WordsItem(_, _) => assert text[..2] == ALIGN[..2];
  }

  lemma ItemReads(item: Item, rest: string)
    requires Readable(item) && (rest == [] || rest[0] != ' ')
    ensures ReadItem(ItemText(item) + rest) == Some((item, rest))
  {
    ItemStarts(item, rest);
    hide ReadComm, ReadString, ReadAligned, CommLine;
    match item
    case CommItem(c) => CommReads(c, rest);
    case StringItem(symbol, bytes) => StringReads(symbol, bytes, rest);
    case FloatItem(symbol, bits) => FloatReads(symbol, bits, rest);
    case WordsItem(symbol, words) => WordsRead(symbol, words, rest);
  }

  lemma {:induction false} ItemsRead(items: seq<Item>)
    requires forall item :: item in items ==> Readable(item)
    ensures ReadItems(ItemsText(items)) == Some(items)
    decreases |items|
  {
    hide ItemText, ReadItem, Readable;
    if items != [] {
      var rest := ItemsText(items[1..]);
      assert items[0] in items && forall item :: item in items[1..] ==> item in items;
      ItemStarts(items[0], rest);
      if |items| > 1 {
        ItemStarts(items[1], ItemsText(items[1..][1..]));
        assert rest[0] != ' ';
      }
      ItemReads(items[0], rest);
      ItemsRead(items[1..]);
      assert items == [items[0]] + items[1..];
    }
  }

  // ----- the whole section -----

  function CommItems(comms: seq<Comm>): seq<Item> {
    if comms == [] then [] else CommItems(comms[..|comms| - 1]) + [CommItem(comms[|comms| - 1])]
  }

  function StringItems(entries: seq<Entry<seq<Byte>>>): seq<Item> {
    if entries == [] then [] else
      var e := entries[|entries| - 1];
      StringItems(entries[..|entries| - 1]) + [StringItem(Label(STR, e.number), e.content)]
  }

  function FloatItems(entries: seq<Entry<U64>>): seq<Item> {
    if entries == [] then [] else
      var e := entries[|entries| - 1];
      FloatItems(entries[..|entries| - 1]) + [FloatItem(Label(FLOAT, e.number), e.content)]
  }

  function WordsItems(entries: seq<Entry<seq<DataWord>>>): seq<Item> {
    if entries == [] then [] else
      var e := entries[|entries| - 1];
      WordsItems(entries[..|entries| - 1]) + [WordsItem(Label(DATA, e.number), e.content)]
  }

  /** What a pool holds, in the order in which it is printed. */
  function PoolItems(pool: Pool): seq<Item> {
    CommItems(pool.comms) + StringItems(pool.strings) + FloatItems(pool.floats) + WordsItems(pool.words)
  }

  const DATA_DIRECTIVE := ".data\n"

  function ReadSection(text: string): Option<seq<Item>> {
    if text == "" then Some([])
    else
      var body :- Expect(DATA_DIRECTIVE, text);
      ReadItems(body)
  }

  lemma {:induction false} ItemsTextAppend(a: seq<Item>, b: seq<Item>)
    ensures ItemsText(a + b) == ItemsText(a) + ItemsText(b)
    decreases |a|
  {
    hide ItemText;
    if a == [] {
      assert a + b == b;
    } else {
      assert (a + b)[1..] == a[1..] + b;
      ItemsTextAppend(a[1..], b);
    }
  }

  lemma ItemsTextSnoc(items: seq<Item>, item: Item)
    ensures ItemsText(items + [item]) == ItemsText(items) + ItemText(item)
  {
    ItemsTextAppend(items, [item]);
    assert [item][1..] == [];
  }

  lemma {:induction false} CommsPrinted(comms: seq<Comm>)
    ensures ItemsText(CommItems(comms)) == CommText(comms)
  {
    if comms != [] {
      var n := |comms| - 1;
      CommsPrinted(comms[..n]);
      ItemsTextSnoc(CommItems(comms[..n]), CommItem(comms[n]));
      hide Decimal, ItemsText;
      CommLineIs(comms[n]);
      assert CommText(comms[..n]) + CommLine(comms[n]) == CommText(comms);
    }
  }

  lemma CommLineIs(c: Comm)
    ensures forall before :: before + CommLine(c) == before + ".comm " + c.symbol + ", " + Decimal(c.size) + ", 3\n"
  {
    var d := Decimal(c.size);
    hide Decimal;
    forall before ensures before + CommLine(c) == before + ".comm " + c.symbol + ", " + d + ", 3\n" {
      CommLineJoins(before, COMM, c.symbol, d);
    }
  }

  lemma CommLineJoins(before: string, a: string, s: string, d: string)
    ensures before + (a + (s + ([','] + (" " + (d + ([','] + " 3\n")))))) == before + a + s + ", " + d + ", 3\n"
  {
    assert [','] + " " == ", " && [','] + " 3\n" == ", 3\n";
    assert s + ([','] + (" " + (d + ", 3\n"))) == s + ", " + d + ", 3\n";
  }

  lemma HeaderIs(symbol: string)
    ensures HeaderOf(symbol) == Header(symbol)
  {
    assert symbol + (['\n'] + (symbol + ":\n")) == symbol + "\n" + symbol + ":\n";
  }

  lemma {:induction false} StringsPrinted(entries: seq<Entry<seq<Byte>>>)
    ensures ItemsText(StringItems(entries)) == StringText(entries)
  {
    if entries != [] {
      var n := |entries| - 1;
      var symbol, content := Label(STR, entries[n].number), entries[n].content;
      StringsPrinted(entries[..n]);
      ItemsTextSnoc(StringItems(entries[..n]), StringItem(symbol, content));
      HeaderIs(symbol);
      hide ItemsText, Escape, Header, HeaderOf, Label;
      StringJoins(StringText(entries[..n]), Header(symbol), ASCII, Escape(content));
    }
  }

  lemma StringJoins(before: string, header: string, a: string, text: string)
    ensures before + (header + (a + (text + ([QUOTE] + ['\n'])))) == before + header + a + text + "\"\n"
  {
    assert [QUOTE] + ['\n'] == "\"\n";
  }

  lemma {:induction false} FloatsPrinted(entries: seq<Entry<U64>>)
    ensures ItemsText(FloatItems(entries)) == FloatText(entries)
  {
    if entries != [] {
      var n := |entries| - 1;
      var symbol, content := Label(FLOAT, entries[n].number), entries[n].content;
      FloatsPrinted(entries[..n]);
      ItemsTextSnoc(FloatItems(entries[..n]), FloatItem(symbol, content));
      HeaderIs(symbol);
      hide ItemsText, Hex, Header, HeaderOf, Label;
      FloatJoins(FloatText(entries[..n]), ALIGN, Header(symbol), Hex(content, 16));
    }
  }

  lemma FloatJoins(before: string, align: string, header: string, digits: string)
    ensures before + (align + (header + (QUAD + (HEX + digits + ['\n']))))
            == before + align + header + "    .quad 0x" + digits + "\n"
  {
    assert QUAD + HEX == "    .quad 0x";
    assert QUAD + (HEX + digits + ['\n']) == "    .quad 0x" + digits + "\n";
  }

  lemma {:induction false} QuadLinesAppend(a: seq<DataWord>, b: seq<DataWord>)
    ensures QuadLines(a + b) == QuadLines(a) + QuadLines(b)
    decreases |a|
  {
    hide QuadLine;
    if a == [] {
      assert a + b == b;
    } else {
      assert (a + b)[1..] == a[1..] + b;
      QuadLinesAppend(a[1..], b);
    }
  }

  lemma QuadLineIs(w: DataWord)
    ensures QuadLine(w) ==
              match w
              case Number(value) => "    .quad 0x" + Hex(value, 16) + "\n"
              case Symbol(name) => "    .quad " + name + "\n"
  {
    match w
    case Number(value) =>
      var digits := Hex(value, 16);
      hide Hex;
      assert QUAD + HEX == "    .quad 0x";
      assert QUAD + (HEX + digits + ['\n']) == "    .quad 0x" + digits + "\n";
    case Symbol(name) =>
      assert QUAD + (name + ['\n']) == "    .quad " + name + "\n";
  }

  lemma {:induction false} QuadsPrinted(words: seq<DataWord>)
    ensures QuadLines(words) == WordText(words)
  {
    if words != [] {
      var n := |words| - 1;
      QuadsPrinted(words[..n]);
      assert words == words[..n] + [words[n]];
      QuadLinesAppend(words[..n], [words[n]]);
      assert [words[n]][1..] == [];
      QuadLineIs(words[n]);
      hide QuadLine, Hex;
    }
  }

  lemma {:induction false} WordsPrinted(entries: seq<Entry<seq<DataWord>>>)
    ensures ItemsText(WordsItems(entries)) == WordsText(entries)
  {
    if entries != [] {
      var n := |entries| - 1;
      var symbol, content := Label(DATA, entries[n].number), entries[n].content;
      WordsPrinted(entries[..n]);
      ItemsTextSnoc(WordsItems(entries[..n]), WordsItem(symbol, content));
      HeaderIs(symbol);
      QuadsPrinted(content);
      hide ItemsText, WordText, QuadLines, Header, HeaderOf, Label;
      WordsJoin(WordsText(entries[..n]), ALIGN, Header(symbol), WordText(content));
    }
  }

  lemma WordsJoin(before: string, align: string, header: string, lines: string)
    ensures before + (align + (header + lines)) == before + align + header + lines
  {
  }

  lemma PoolPrinted(pool: Pool)
    ensures ItemsText(PoolItems(pool))
            == CommText(pool.comms) + StringText(pool.strings) + FloatText(pool.floats) + WordsText(pool.words)
  {
    CommsPrinted(pool.comms);
    StringsPrinted(pool.strings);
    FloatsPrinted(pool.floats);
    WordsPrinted(pool.words);
    hide ItemsText, CommItems, StringItems, FloatItems, WordsItems, CommText, StringText, FloatText, WordsText;
    ItemsTextAppend(CommItems(pool.comms) + StringItems(pool.strings) + FloatItems(pool.floats),
      WordsItems(pool.words));
    ItemsTextAppend(CommItems(pool.comms) + StringItems(pool.strings), FloatItems(pool.floats));
    ItemsTextAppend(CommItems(pool.comms), StringItems(pool.strings));
  }

  /** Common symbols and symbols in word records are assembler symbols. */
  ghost predicate SymbolsReadable(pool: Pool) {
    && (forall c :: c in pool.comms ==> IsSymbol(c.symbol))
    && (forall e, w :: e in pool.words && w in e.content ==> ReadableWord(w))
  }

  lemma LabelReadable(prefix: string, n: nat)
    requires GeneratedPrefix(prefix)
    ensures '\n' !in Label(prefix, n) && |Label(prefix, n)| > 1 && (Label(prefix, n)[1] == 'f' <==> prefix == FLOAT)
  {
    hide Decimal;
    assert '\n' !in STR && '\n' !in FLOAT && '\n' !in DATA;
    assert Label(prefix, n)[1] == prefix[1];
  }

  lemma {:induction false} CommsReadable(comms: seq<Comm>)
    requires forall c :: c in comms ==> IsSymbol(c.symbol)
    ensures forall item :: item in CommItems(comms) ==> Readable(item)
  {
    hide IsSymbol;
    if comms != [] {
      CommsReadable(comms[..|comms| - 1]);
    }
  }

  lemma {:induction false} StringsReadable(entries: seq<Entry<seq<Byte>>>)
    ensures forall item :: item in StringItems(entries) ==> Readable(item)
  {
    if entries != [] {
      StringsReadable(entries[..|entries| - 1]);
      LabelReadable(STR, entries[|entries| - 1].number);
      hide Label;
    }
  }

  lemma {:induction false} FloatsReadable(entries: seq<Entry<U64>>)
    ensures forall item :: item in FloatItems(entries) ==> Readable(item)
  {
    if entries != [] {
      FloatsReadable(entries[..|entries| - 1]);
      LabelReadable(FLOAT, entries[|entries| - 1].number);
      hide Label;
    }
  }

  lemma {:induction false} WordsReadable(entries: seq<Entry<seq<DataWord>>>)
    requires forall e, w :: e in entries && w in e.content ==> ReadableWord(w)
    ensures forall item :: item in WordsItems(entries) ==> Readable(item)
  {
    hide ReadableWord;
    if entries != [] {
      assert entries[|entries| - 1] in entries;
      WordsReadable(entries[..|entries| - 1]);
      LabelReadable(DATA, entries[|entries| - 1].number);
      hide Label;
    }
  }

  lemma AllReadable(pool: Pool)
    requires SymbolsReadable(pool)
    ensures forall item :: item in PoolItems(pool) ==> Readable(item)
  {
    CommsReadable(pool.comms);
    StringsReadable(pool.strings);
    FloatsReadable(pool.floats);
    WordsReadable(pool.words);
    hide Readable, CommItems, StringItems, FloatItems, WordsItems;
  }

  lemma NothingPrinted(pool: Pool)
    requires pool.strings == [] && pool.floats == [] && pool.words == [] && pool.comms == []
    ensures PoolItems(pool) == []
  {
  }

  function BodyText(pool: Pool): string {
    CommText(pool.comms) + StringText(pool.strings) + FloatText(pool.floats) + WordsText(pool.words)
  }

  predicate IsEmpty(pool: Pool) {
    pool.strings == [] && pool.floats == [] && pool.words == [] && pool.comms == []
  }

  lemma SectionJoins(a: string, b: string, c: string, d: string, e: string)
    ensures a + b + c + d + e == a + (b + c + d + e)
  {
  }

  lemma PoolTextSplits(pool: Pool)
    requires !IsEmpty(pool)
    ensures PoolText(pool) == DATA_DIRECTIVE + BodyText(pool)
  {
    hide CommText, StringText, FloatText, WordsText;
    SectionJoins(DATA_DIRECTIVE, CommText(pool.comms), StringText(pool.strings), FloatText(pool.floats),
      WordsText(pool.words));
  }

  lemma BodyReads(body: string)
    ensures ReadSection(DATA_DIRECTIVE + body) == ReadItems(body)
  {
    ExpectReads(DATA_DIRECTIVE, body);
    assert |DATA_DIRECTIVE| > 0;
    hide DATA_DIRECTIVE, Expect, ReadItems;
  }

  /** The printed section gives back everything the pool holds, under the same labels and in
      the same order. */
  lemma SectionReadsBack(pool: Pool)
    requires SymbolsReadable(pool)
    ensures ReadSection(PoolText(pool)) == Some(PoolItems(pool))
  {
    if IsEmpty(pool) {
      NothingPrinted(pool);
    } else {
      PoolPrinted(pool);
      AllReadable(pool);
      ItemsRead(PoolItems(pool));
      PoolTextSplits(pool);
      BodyReads(BodyText(pool));
      hide PoolText, ReadSection, ReadItems, ItemsText, PoolItems, CommText, StringText, FloatText, WordsText,
           DATA_DIRECTIVE;
    }
  }
}
