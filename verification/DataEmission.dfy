/** The data section as the code keeps and prints it (src/codegen/data_section.rs). */
module DataEmission {
  import opened Prelude
  import opened Digits
  import opened DataSection

  // ----- the `.ascii` escapes -----

  const QUOTE: char := '\"'
  const BACKSLASH: char := '\\'

  function Octal3(b: Byte): string {
    [DigitChar(b / 64), DigitChar(b / 8 % 8), DigitChar(b % 8)]
  }

  function EscapeByte(b: Byte): string {
    if b == 10 then [BACKSLASH, 'n']
    else if b == 9 then [BACKSLASH, 't']
    else if b == 92 then [BACKSLASH, BACKSLASH]
    else if b == 34 then [BACKSLASH, QUOTE]
    else if 0x20 <= b <= 0x7e then [b as char]
    else [BACKSLASH] + Octal3(b)
  }

  function Escape(bytes: seq<Byte>): string {
    if bytes == [] then [] else EscapeByte(bytes[0]) + Escape(bytes[1..])
  }

  predicate IsOctal(c: char) {
    '0' <= c <= '7'
  }

  /** How many octal digits, at most `most`, the text begins with. */
  function OctalRun(text: string, most: nat): (n: nat)
    ensures n <= most && n <= |text|
  {
    if most == 0 || text == [] || !IsOctal(text[0]) then 0 else 1 + OctalRun(text[1..], most - 1)
  }

  function OctalValue(digits: string): nat {
    if digits == [] then 0 else 8 * OctalValue(digits[..|digits| - 1]) + DigitValue(digits[|digits| - 1])
  }

  /** One character of a string literal as the assembler reads it: an octal escape takes
      up to three digits. */
  function ReadByte(text: string): Option<(Byte, string)> {
    if text == [] then None
    else if text[0] != BACKSLASH then
      if text[0] as int < 128 then Some((text[0] as int, text[1..])) else None
    else if |text| < 2 then None
    else if text[1] == 'n' then Some((10, text[2..]))
    else if text[1] == 't' then Some((9, text[2..]))
    else if text[1] == BACKSLASH then Some((92, text[2..]))
    else if text[1] == QUOTE then Some((34, text[2..]))
    else
      var run := OctalRun(text[1..], 3);
      if run == 0 then None else Some((OctalValue(text[1..1 + run]) % 256, text[1 + run..]))
  }

  /** A literal up to its closing quote, and what follows. */
  function ReadLiteral(text: string): Option<(seq<Byte>, string)>
    decreases |text|
  {
    if text == [] then None
    else if text[0] == QUOTE then Some(([], text[1..]))
    else
      match ReadByte(text)
      case None => None
      case Some((b, rest)) =>
        if |rest| >= |text| then None
        else
          match ReadLiteral(rest)
          case None => None
          case Some((bytes, tail)) => Some(([b] + bytes, tail))
  }

  lemma Octal3Reads(b: Byte, rest: string)
    ensures OctalRun(Octal3(b) + rest, 3) == 3 && OctalValue(Octal3(b)) == b
  {
    var d := Octal3(b);
    DigitBack(b / 64);
    DigitBack(b / 8 % 8);
    DigitBack(b % 8);
    assert forall k :: 0 <= k < 3 ==> IsOctal(d[k]);
    var t := d + rest;
    assert t[1..][0] == d[1] && t[1..][1..][0] == d[2];
    assert OctalRun(t[1..][1..], 1) == 1;
    assert OctalRun(t[1..], 2) == 2;
    assert d[..2][..1] == d[..1] && d[..1][..0] == [];
    assert OctalValue(d[..1]) == b / 64;
    assert OctalValue(d[..2]) == 8 * (b / 64) + b / 8 % 8;
    assert b / 8 / 8 == b / 64;
  }

  lemma OctalEscapeReads(b: Byte, rest: string)
    requires EscapeByte(b) == [BACKSLASH] + Octal3(b)
    ensures ReadByte(EscapeByte(b) + rest) == Some((b, rest))
  {
    var text := EscapeByte(b) + rest;
    Octal3Reads(b, rest);
    assert text[1..] == Octal3(b) + rest;
    DigitBack(b / 64);
    assert text[1..4] == Octal3(b) && text[4..] == rest;
  }

  lemma EscapeByteReads(b: Byte, rest: string)
    ensures ReadByte(EscapeByte(b) + rest) == Some((b, rest))
    ensures EscapeByte(b)[0] != QUOTE
  {
    var text := EscapeByte(b) + rest;
    if b in {10, 9, 92, 34} {
      assert text[2..] == rest;
    } else if 0x20 <= b <= 0x7e {
      assert text[1..] == rest;
      assert (b as char) as int == b;
    } else {
      OctalEscapeReads(b, rest);
    }
  }

  /** Every byte string survives its `.ascii` text, whatever is printed after it. */
  lemma {:induction false} LiteralReadsBack(bytes: seq<Byte>, rest: string)
    ensures ReadLiteral(Escape(bytes) + [QUOTE] + rest) == Some((bytes, rest))
    decreases |bytes|
  {
    var text := Escape(bytes) + [QUOTE] + rest;
    if bytes == [] {
      assert text == [QUOTE] + rest;
    } else {
      var tail := Escape(bytes[1..]) + [QUOTE] + rest;
      assert text == EscapeByte(bytes[0]) + tail;
      EscapeByteReads(bytes[0], tail);
      LiteralReadsBack(bytes[1..], rest);
      assert text[0] == EscapeByte(bytes[0])[0];
      assert [bytes[0]] + bytes[1..] == bytes;
    }
  }

  // ----- the printed section -----

  function CommText(comms: seq<Comm>): string {
    if comms == [] then "" else
      var c := comms[|comms| - 1];
      CommText(comms[..|comms| - 1]) + ".comm " + c.symbol + ", " + Decimal(c.size) + ", 3\n"
  }

  function Header(symbol: string): string {
    ".globl " + symbol + "\n" + symbol + ":\n"
  }

  function StringText(entries: seq<Entry<seq<Byte>>>): string {
    if entries == [] then "" else
      var e := entries[|entries| - 1];
      StringText(entries[..|entries| - 1])
      + Header(Label(STR, e.number)) + "    .ascii \"" + Escape(e.content) + "\"\n"
  }

  function FloatText(entries: seq<Entry<U64>>): string {
    if entries == [] then "" else
      var e := entries[|entries| - 1];
      FloatText(entries[..|entries| - 1])
      + ".p2align 3\n" + Header(Label(FLOAT, e.number)) + "    .quad 0x" + Hex(e.content, 16) + "\n"
  }

  function WordText(words: seq<DataWord>): string {
    if words == [] then "" else
      WordText(words[..|words| - 1]) +
      match words[|words| - 1]
      case Number(value) => "    .quad 0x" + Hex(value, 16) + "\n"
      case Symbol(name) => "    .quad " + name + "\n"
  }

  function WordsText(entries: seq<Entry<seq<DataWord>>>): string {
    if entries == [] then "" else
      var e := entries[|entries| - 1];
      WordsText(entries[..|entries| - 1])
      + ".p2align 3\n" + Header(Label(DATA, e.number)) + WordText(e.content)
  }

  function PoolText(pool: Pool): string {
    if pool.strings == [] && pool.floats == [] && pool.words == [] && pool.comms == [] then ""
    else ".data\n" + CommText(pool.comms) + StringText(pool.strings) + FloatText(pool.floats) + WordsText(pool.words)
  }

  // ----- the mutable section -----

  lemma {:induction false} FindAppend<T>(entries: seq<Entry<T>>, e: Entry<T>, content: T)
    ensures Find(entries + [e], content) ==
              if Find(entries, content).Some? then Find(entries, content)
              else if e.content == content then Some(e.number) else None
  {
    if entries != [] {
      assert (entries + [e])[1..] == entries[1..] + [e];
      FindAppend(entries[1..], e, content);
    }
  }

  /** A deduplication map that answers as a search through the entries would. */
  ghost predicate Mirrors<T(!new)>(dedup: map<T, nat>, entries: seq<Entry<T>>) {
    forall content :: Find(entries, content) == if content in dedup then Some(dedup[content]) else None
  }

  lemma MirrorsAppend<T(!new)>(dedup: map<T, nat>, entries: seq<Entry<T>>, content: T, number: nat)
    requires Mirrors(dedup, entries) && content !in dedup
    ensures Mirrors(dedup[content := number], entries + [Entry(number, content)])
  {
    forall c ensures Find(entries + [Entry(number, content)], c)
                     == if c in dedup[content := number] then Some(dedup[content := number][c]) else None
    {
      FindAppend(entries, Entry(number, content), c);
    }
  }

  class Section {
    var strings: seq<Entry<seq<Byte>>>
    var floats: seq<Entry<U64>>
    var words: seq<Entry<seq<DataWord>>>
    var comms: seq<Comm>
    var counter: nat
    var stringDedup: map<seq<Byte>, nat>
    var floatDedup: map<U64, nat>
    var wordDedup: map<seq<DataWord>, nat>
    var commDedup: map<string, string>

    ghost predicate InStep()
      reads this
    {
      && Mirrors(stringDedup, strings) && Mirrors(floatDedup, floats) && Mirrors(wordDedup, words)
      && (forall name :: name in commDedup <==> HasComm(comms, name))
      && (forall name :: name in commDedup ==> commDedup[name] == name)
    }

    ghost function View(): Pool
      reads this
    {
      Pool(strings, floats, words, comms, counter)
    }

    constructor ()
      ensures InStep() && View() == EMPTY
    {
      strings, floats, words, comms, counter := [], [], [], [], 0;
      stringDedup, floatDedup, wordDedup, commDedup := map[], map[], map[], map[];
    }

    method AddFloatBits(bits: U64) returns (symbol: string)
      requires InStep()
      modifies this
      ensures InStep() && (View(), symbol) == AddFloat(old(View()), bits)
    {
      if bits in floatDedup {
        return Label(FLOAT, floatDedup[bits]);
      }
      symbol := Label(FLOAT, counter);
      MirrorsAppend(floatDedup, floats, bits, counter);
      floatDedup := floatDedup[bits := counter];
      floats := floats + [Entry(counter, bits)];
      counter := counter + 1;
    }

    method AddStringBytes(bytes: seq<Byte>) returns (symbol: string, length: nat)
      requires InStep()
      modifies this
      ensures InStep() && (View(), symbol) == AddString(old(View()), bytes) && length == |bytes|
    {
      length := |bytes|;
      if bytes in stringDedup {
        symbol := Label(STR, stringDedup[bytes]);
        return;
      }
      symbol := Label(STR, counter);
      MirrorsAppend(stringDedup, strings, bytes, counter);
      stringDedup := stringDedup[bytes := counter];
      strings := strings + [Entry(counter, bytes)];
      counter := counter + 1;
    }

    method AddWordRecord(record: seq<DataWord>) returns (symbol: string)
      requires InStep()
      modifies this
      ensures InStep() && (View(), symbol) == AddWords(old(View()), record)
    {
      if record in wordDedup {
        return Label(DATA, wordDedup[record]);
      }
      symbol := Label(DATA, counter);
      MirrorsAppend(wordDedup, words, record, counter);
      wordDedup := wordDedup[record := counter];
      words := words + [Entry(counter, record)];
      counter := counter + 1;
    }

    method AddCommSymbol(name: string, size: nat) returns (symbol: string)
      requires InStep()
      modifies this
      ensures InStep() && View() == AddComm(old(View()), name, size) && symbol == name
    {
      if name in commDedup {
        return commDedup[name];
      }
      commDedup := commDedup[name := name];
      ghost var before := comms;
      comms := comms + [Comm(name, size)];
      assert comms[|before|] == Comm(name, size);
      assert forall c :: c in comms <==> c in before || c == Comm(name, size);
      return name;
    }

    method Emit() returns (out: string)
      ensures out == PoolText(View())
    {
      if strings == [] && floats == [] && words == [] && comms == [] {
        return "";
      }
      var text := EmitComms();
      out := ".data\n" + text;
      text := EmitStrings();
      out := out + text;
      text := EmitFloats();
      out := out + text;
      text := EmitWords();
      out := out + text;
    }

    method EmitComms() returns (out: string)
      ensures out == CommText(comms)
    {
      out := "";
      for i := 0 to |comms|
        invariant out == CommText(comms[..i])
      {
        assert comms[..i + 1][..i] == comms[..i];
        out := out + ".comm " + comms[i].symbol + ", " + Decimal(comms[i].size) + ", 3\n";
      }
      assert comms[..|comms|] == comms;
    }

    method EmitStrings() returns (out: string)
      ensures out == StringText(strings)
    {
      out := "";
      for i := 0 to |strings|
        invariant out == StringText(strings[..i])
      {
        assert strings[..i + 1][..i] == strings[..i];
        var text := EmitBytes(strings[i].content);
        out := out + Header(Label(STR, strings[i].number)) + "    .ascii \"" + text + "\"\n";
      }
      assert strings[..|strings|] == strings;
    }

    method EmitBytes(bytes: seq<Byte>) returns (out: string)
      ensures out == Escape(bytes)
    {
      out := "";
      for i := 0 to |bytes|
        invariant out + Escape(bytes[i..]) == Escape(bytes)
      {
        assert bytes[i..][0] == bytes[i] && bytes[i..][1..] == bytes[i + 1..];
        assert out + (EscapeByte(bytes[i]) + Escape(bytes[i + 1..]))
               == (out + EscapeByte(bytes[i])) + Escape(bytes[i + 1..]);
        out := out + EscapeByte(bytes[i]);
      }
      assert bytes[|bytes|..] == [] && out + [] == out;
    }

    method EmitFloats() returns (out: string)
      ensures out == FloatText(floats)
    {
      out := "";
      for i := 0 to |floats|
        invariant out == FloatText(floats[..i])
      {
        assert floats[..i + 1][..i] == floats[..i];
        out := out + ".p2align 3\n" + Header(Label(FLOAT, floats[i].number)) + "    .quad 0x"
          + Hex(floats[i].content, 16) + "\n";
      }
      assert floats[..|floats|] == floats;
    }

    method EmitWords() returns (out: string)
      ensures out == WordsText(words)
    {
      out := "";
      for i := 0 to |words|
        invariant out == WordsText(words[..i])
      {
        assert words[..i + 1][..i] == words[..i];
        var record := words[i].content;
        var text := "";
        for j := 0 to |record|
          invariant text == WordText(record[..j])
        {
          assert record[..j + 1][..j] == record[..j];
          match record[j] {
            case Number(value) => text := text + ("    .quad 0x" + Hex(value, 16) + "\n");
            case Symbol(name) => text := text + ("    .quad " + name + "\n");
          }
        }
        assert record[..|record|] == record;
        out := out + ".p2align 3\n" + Header(Label(DATA, words[i].number)) + text;
      }
      assert words[..|words|] == words;
    }
  }
}
