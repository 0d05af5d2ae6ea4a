/** The constant pool of src/codegen/data_section.rs. A label is kept as the number
    it was made from. */
module DataSection {
  import opened Prelude
  import opened Digits

  datatype DataWord = Number(value: U64) | Symbol(name: string)

  datatype Entry<T> = Entry(number: nat, content: T)

  datatype Comm = Comm(symbol: string, size: nat)

  const STR := "_str_"
  const FLOAT := "_float_"
  const DATA := "_data_"

  function Label(prefix: string, number: nat): string {
    prefix + Decimal(number)
  }

  // ----- labels -----

  predicate GeneratedPrefix(prefix: string) {
    prefix in {STR, FLOAT, DATA}
  }

  lemma LabelsApart(p: string, m: nat, q: string, n: nat)
    requires GeneratedPrefix(p) && GeneratedPrefix(q) && Label(p, m) == Label(q, n)
    ensures p == q && m == n
  {
    assert !IsDigit(p[|p| - 1]) && !IsDigit(q[|q| - 1]);
    TrailingDigits(p, Decimal(m), q, Decimal(n));
    DecimalInjective(m, n);
  }

  // ----- the pool as a value -----

  datatype Pool = Pool(
    strings: seq<Entry<seq<Byte>>>,
    floats: seq<Entry<U64>>,
    words: seq<Entry<seq<DataWord>>>,
    comms: seq<Comm>,
    counter: nat)

  const EMPTY := Pool([], [], [], [], 0)

  function Find<T(==)>(entries: seq<Entry<T>>, content: T): (n: Option<nat>)
    ensures n.None? <==> forall e :: e in entries ==> e.content != content
    ensures n.Some? ==> Entry(n.value, content) in entries
  {
    if entries == [] then None
    else if entries[0].content == content then
      assert entries[0] == Entry(entries[0].number, content);
      Some(entries[0].number)
    else Find(entries[1..], content)
  }

  /** Interning: the number of an equal entry, or the next free one. */
  function Intern<T(==)>(entries: seq<Entry<T>>, content: T, counter: nat): (r: (seq<Entry<T>>, nat, nat))
    ensures Entry(r.1, content) in r.0
  {
    match Find(entries, content)
    case Some(n) => (entries, n, counter)
    case None => (entries + [Entry(counter, content)], counter, counter + 1)
  }

  function AddString(pool: Pool, bytes: seq<Byte>): (Pool, string) {
    var (strings, n, counter) := Intern(pool.strings, bytes, pool.counter);
    (pool.(strings := strings, counter := counter), Label(STR, n))
  }

  function AddFloat(pool: Pool, bits: U64): (Pool, string) {
    var (floats, n, counter) := Intern(pool.floats, bits, pool.counter);
    (pool.(floats := floats, counter := counter), Label(FLOAT, n))
  }

  function AddWords(pool: Pool, words: seq<DataWord>): (Pool, string) {
    var (entries, n, counter) := Intern(pool.words, words, pool.counter);
    (pool.(words := entries, counter := counter), Label(DATA, n))
  }

  predicate HasComm(comms: seq<Comm>, symbol: string) {
    exists c :: c in comms && c.symbol == symbol
  }

  function AddComm(pool: Pool, symbol: string, size: nat): Pool {
    if HasComm(pool.comms, symbol) then pool else pool.(comms := pool.comms + [Comm(symbol, size)])
  }

  // ----- what every sequence of additions keeps -----

  ghost predicate Numbered<T>(entries: seq<Entry<T>>, counter: nat) {
    && (forall i :: 0 <= i < |entries| ==> entries[i].number < counter)
    && (forall i, j :: 0 <= i < j < |entries| ==> entries[i].number != entries[j].number)
    && (forall i, j :: 0 <= i < j < |entries| ==> entries[i].content != entries[j].content)
  }

  ghost predicate Apart<S, T>(a: seq<Entry<S>>, b: seq<Entry<T>>) {
    forall x, y :: x in a && y in b ==> x.number != y.number
  }

  /** Numbers are used once over all three lists, and equal contents are stored once. */
  ghost predicate Valid(pool: Pool) {
    && Numbered(pool.strings, pool.counter) && Numbered(pool.floats, pool.counter) && Numbered(pool.words, pool.counter)
    && Apart(pool.strings, pool.floats) && Apart(pool.strings, pool.words) && Apart(pool.floats, pool.words)
    && (forall i, j :: 0 <= i < j < |pool.comms| ==> pool.comms[i].symbol != pool.comms[j].symbol)
  }

  /** `later` holds everything `pool` holds, under the same labels. */
  ghost predicate Extends(pool: Pool, later: Pool) {
    pool.strings <= later.strings && pool.floats <= later.floats && pool.words <= later.words
      && pool.comms <= later.comms
  }

  lemma InternKeeps<T>(entries: seq<Entry<T>>, content: T, counter: nat)
    requires Numbered(entries, counter)
    ensures var r := Intern(entries, content, counter);
            Numbered(r.0, r.2) && entries <= r.0 && counter <= r.2
            && forall e :: e in r.0 ==> e in entries || e.number == counter
  {
    if Find(entries, content).None? {
      var r := Intern(entries, content, counter);
      forall i, j | 0 <= i < j < |r.0| ensures r.0[i].number != r.0[j].number && r.0[i].content != r.0[j].content {
        if j == |entries| {
          assert r.0[i] == entries[i] && entries[i] in entries;
        }
      }
    }
  }

  lemma AddStringKeeps(pool: Pool, bytes: seq<Byte>)
    requires Valid(pool)
    ensures Valid(AddString(pool, bytes).0) && Extends(pool, AddString(pool, bytes).0)
  {
    InternKeeps(pool.strings, bytes, pool.counter);
  }

  lemma AddFloatKeeps(pool: Pool, bits: U64)
    requires Valid(pool)
    ensures Valid(AddFloat(pool, bits).0) && Extends(pool, AddFloat(pool, bits).0)
  {
    InternKeeps(pool.floats, bits, pool.counter);
  }

  lemma AddWordsKeeps(pool: Pool, words: seq<DataWord>)
    requires Valid(pool)
    ensures Valid(AddWords(pool, words).0) && Extends(pool, AddWords(pool, words).0)
  {
    InternKeeps(pool.words, words, pool.counter);
  }

  lemma AddCommKeeps(pool: Pool, symbol: string, size: nat)
    requires Valid(pool)
    ensures Valid(AddComm(pool, symbol, size)) && Extends(pool, AddComm(pool, symbol, size))
  {
    var later := AddComm(pool, symbol, size);
    if !HasComm(pool.comms, symbol) {
      forall i, j | 0 <= i < j < |later.comms| ensures later.comms[i].symbol != later.comms[j].symbol {
        if j == |pool.comms| {
          assert pool.comms[i] in pool.comms;
        }
      }
    }
  }

  // ----- reading back -----

  /** The content stored under a label. */
  function Lookup<T>(entries: seq<Entry<T>>, prefix: string, symbol: string): Option<T> {
    if entries == [] then None
    else if Label(prefix, entries[0].number) == symbol then Some(entries[0].content)
    else Lookup(entries[1..], prefix, symbol)
  }

  lemma {:induction false} LookupStored<T>(entries: seq<Entry<T>>, prefix: string, counter: nat, e: Entry<T>)
    requires Numbered(entries, counter) && GeneratedPrefix(prefix) && e in entries
    ensures Lookup(entries, prefix, Label(prefix, e.number)) == Some(e.content)
  {
    if Label(prefix, entries[0].number) == Label(prefix, e.number) {
      LabelsApart(prefix, entries[0].number, prefix, e.number);
      var i :| 0 <= i < |entries| && entries[i] == e;
      assert i == 0;
    } else {
      LookupStored(entries[1..], prefix, counter, e);
    }
  }

  lemma {:induction false} LookupExtends<T>(entries: seq<Entry<T>>, later: seq<Entry<T>>, prefix: string,
    symbol: string)
    requires entries <= later && Lookup(entries, prefix, symbol).Some?
    ensures Lookup(later, prefix, symbol) == Lookup(entries, prefix, symbol)
  {
    if Label(prefix, entries[0].number) != symbol {
      LookupExtends(entries[1..], later[1..], prefix, symbol);
    }
  }

  function StringAt(pool: Pool, symbol: string): Option<seq<Byte>> { Lookup(pool.strings, STR, symbol) }

  function FloatAt(pool: Pool, symbol: string): Option<U64> { Lookup(pool.floats, FLOAT, symbol) }

  function WordsAt(pool: Pool, symbol: string): Option<seq<DataWord>> { Lookup(pool.words, DATA, symbol) }

  /** A string reads back under its label, now and after any further additions. */
  lemma StringReadsBack(pool: Pool, bytes: seq<Byte>, later: Pool)
    requires Valid(pool) && Extends(AddString(pool, bytes).0, later)
    ensures StringAt(later, AddString(pool, bytes).1) == Some(bytes)
  {
    var (p, symbol) := AddString(pool, bytes);
    AddStringKeeps(pool, bytes);
    LookupStored(p.strings, STR, p.counter, Entry(Intern(pool.strings, bytes, pool.counter).1, bytes));
    LookupExtends(p.strings, later.strings, STR, symbol);
  }

  lemma FloatReadsBack(pool: Pool, bits: U64, later: Pool)
    requires Valid(pool) && Extends(AddFloat(pool, bits).0, later)
    ensures FloatAt(later, AddFloat(pool, bits).1) == Some(bits)
  {
    var (p, symbol) := AddFloat(pool, bits);
    AddFloatKeeps(pool, bits);
    LookupStored(p.floats, FLOAT, p.counter, Entry(Intern(pool.floats, bits, pool.counter).1, bits));
    LookupExtends(p.floats, later.floats, FLOAT, symbol);
  }

  lemma WordsReadBack(pool: Pool, words: seq<DataWord>, later: Pool)
    requires Valid(pool) && Extends(AddWords(pool, words).0, later)
    ensures WordsAt(later, AddWords(pool, words).1) == Some(words)
  {
    var (p, symbol) := AddWords(pool, words);
    AddWordsKeeps(pool, words);
    LookupStored(p.words, DATA, p.counter, Entry(Intern(pool.words, words, pool.counter).1, words));
    LookupExtends(p.words, later.words, DATA, symbol);
  }

  // ----- any sequence of additions -----

  datatype Request =
    | WantString(bytes: seq<Byte>) | WantFloat(bits: U64) | WantWords(words: seq<DataWord>)
    | WantComm(symbol: string, size: nat)

  function Serve(pool: Pool, r: Request): (Pool, string) {
    match r
    case WantString(bytes) => AddString(pool, bytes)
    case WantFloat(bits) => AddFloat(pool, bits)
    case WantWords(words) => AddWords(pool, words)
    case WantComm(symbol, size) => (AddComm(pool, symbol, size), symbol)
  }

  function ServeAll(pool: Pool, requests: seq<Request>): Pool
    decreases |requests|
  {
    if requests == [] then pool else ServeAll(Serve(pool, requests[0]).0, requests[1..])
  }

  /** The label the i-th request of a sequence gets. */
  function LabelOf(pool: Pool, requests: seq<Request>, i: nat): string
    requires i < |requests|
  {
    Serve(ServeAll(pool, requests[..i]), requests[i]).1
  }

  lemma ServeKeeps(pool: Pool, r: Request)
    requires Valid(pool)
    ensures Valid(Serve(pool, r).0) && Extends(pool, Serve(pool, r).0)
  {
    match r
    case WantString(bytes) => AddStringKeeps(pool, bytes);
    case WantFloat(bits) => AddFloatKeeps(pool, bits);
    case WantWords(words) => AddWordsKeeps(pool, words);
    case WantComm(symbol, size) => AddCommKeeps(pool, symbol, size);
  }

  lemma {:induction false} ServeAllKeeps(pool: Pool, requests: seq<Request>)
    requires Valid(pool)
    ensures Valid(ServeAll(pool, requests)) && Extends(pool, ServeAll(pool, requests))
    decreases |requests|
  {
    if requests != [] {
      ServeKeeps(pool, requests[0]);
      ServeAllKeeps(Serve(pool, requests[0]).0, requests[1..]);
    }
  }

  lemma {:induction false} ServeAllSplits(pool: Pool, requests: seq<Request>, i: nat)
    requires i < |requests|
    ensures ServeAll(pool, requests) == ServeAll(Serve(ServeAll(pool, requests[..i]), requests[i]).0, requests[i + 1..])
    decreases i
  {
    if i > 0 {
      ServeAllSplits(Serve(pool, requests[0]).0, requests[1..], i - 1);
      assert requests[..i][0] == requests[0] && requests[..i][1..] == requests[1..][..i - 1];
      assert requests[1..][i - 1 + 1..] == requests[i + 1..];
    }
  }

  /** What a request asked for, read from a pool by label. */
  ghost predicate Reads(pool: Pool, symbol: string, r: Request) {
    match r
    case WantString(bytes) => StringAt(pool, symbol) == Some(bytes)
    case WantFloat(bits) => FloatAt(pool, symbol) == Some(bits)
    case WantWords(words) => WordsAt(pool, symbol) == Some(words)
    case WantComm(name, _) => symbol == name && HasComm(pool.comms, name)
  }

  /** The pool at the i-th request and the final pool. */
  lemma AroundRequest(requests: seq<Request>, i: nat)
    requires i < |requests|
    ensures Valid(ServeAll(EMPTY, requests[..i])) && Valid(ServeAll(EMPTY, requests))
    ensures Extends(Serve(ServeAll(EMPTY, requests[..i]), requests[i]).0, ServeAll(EMPTY, requests))
  {
    ServeAllKeeps(EMPTY, requests[..i]);
    var before := ServeAll(EMPTY, requests[..i]);
    ServeKeeps(before, requests[i]);
    ServeAllKeeps(Serve(before, requests[i]).0, requests[i + 1..]);
    ServeAllSplits(EMPTY, requests, i);
  }

  lemma ServedReads(before: Pool, r: Request, later: Pool)
    requires Valid(before) && Extends(Serve(before, r).0, later)
    ensures Reads(later, Serve(before, r).1, r)
  {
    match r
    case WantString(bytes) => StringReadsBack(before, bytes, later);
    case WantFloat(bits) => FloatReadsBack(before, bits, later);
    case WantWords(words) => WordsReadBack(before, words, later);
    case WantComm(name, size) => CommStays(before, name, size, later);
  }

  lemma CommStays(before: Pool, name: string, size: nat, later: Pool)
    requires AddComm(before, name, size).comms <= later.comms
    ensures HasComm(later.comms, name)
  {
    var at := AddComm(before, name, size);
    if !HasComm(before.comms, name) {
      assert at.comms[|before.comms|] == Comm(name, size);
    }
    assert HasComm(at.comms, name);
    var c :| c in at.comms && c.symbol == name;
    assert c in later.comms;
  }

  /** After any sequence of additions, every label handed out still stands for what was
      asked for. */
  lemma EveryLabelKeepsItsContent(requests: seq<Request>, i: nat)
    requires i < |requests|
    ensures Reads(ServeAll(EMPTY, requests), LabelOf(EMPTY, requests, i), requests[i])
  {
    AroundRequest(requests, i);
    ServedReads(ServeAll(EMPTY, requests[..i]), requests[i], ServeAll(EMPTY, requests));
  }

  /** Two requests get the same label exactly when they ask for the same constant. */
  lemma SameLabelSameContent(requests: seq<Request>, i: nat, j: nat)
    requires i < |requests| && j < |requests| && !requests[i].WantComm? && !requests[j].WantComm?
    ensures LabelOf(EMPTY, requests, i) == LabelOf(EMPTY, requests, j) <==> requests[i] == requests[j]
  {
    var x := StoredUnder(requests, i);
    var y := StoredUnder(requests, j);
    AroundRequest(requests, i);
    if LabelOf(EMPTY, requests, i) == LabelOf(EMPTY, requests, j) {
      LabelsApart(PrefixOf(requests[i]), x, PrefixOf(requests[j]), y);
      EveryLabelKeepsItsContent(requests, i);
      EveryLabelKeepsItsContent(requests, j);
    }
    if requests[i] == requests[j] {
      StoredOnce(ServeAll(EMPTY, requests), requests[i], x, y);
    }
  }

  function PrefixOf(r: Request): string
    requires !r.WantComm?
  {
    match r
    case WantString(_) => STR
    case WantFloat(_) => FLOAT
    case WantWords(_) => DATA
  }

  /** The content of a request sits in the final pool under the number of its label. */
  ghost predicate StoredAs(pool: Pool, r: Request, n: nat)
    requires !r.WantComm?
  {
    match r
    case WantString(bytes) => Entry(n, bytes) in pool.strings
    case WantFloat(bits) => Entry(n, bits) in pool.floats
    case WantWords(words) => Entry(n, words) in pool.words
  }

  lemma ServedStored(before: Pool, r: Request, later: Pool) returns (n: nat)
    requires !r.WantComm? && Extends(Serve(before, r).0, later)
    ensures Serve(before, r).1 == Label(PrefixOf(r), n) && StoredAs(later, r, n)
  {
    match r
    case WantString(bytes) => n := Intern(before.strings, bytes, before.counter).1;
    case WantFloat(bits) => n := Intern(before.floats, bits, before.counter).1;
    case WantWords(words) => n := Intern(before.words, words, before.counter).1;
  }

  lemma StoredOnce(pool: Pool, r: Request, m: nat, n: nat)
    requires Valid(pool) && !r.WantComm? && StoredAs(pool, r, m) && StoredAs(pool, r, n)
    ensures m == n
  {
  }

  lemma StoredUnder(requests: seq<Request>, i: nat) returns (n: nat)
    requires i < |requests| && !requests[i].WantComm?
    ensures LabelOf(EMPTY, requests, i) == Label(PrefixOf(requests[i]), n)
    ensures StoredAs(ServeAll(EMPTY, requests), requests[i], n)
  {
    AroundRequest(requests, i);
    n := ServedStored(ServeAll(EMPTY, requests[..i]), requests[i], ServeAll(EMPTY, requests));
  }

  // ----- which label a constant gets -----

  /** A constant under its number as the assembly writes it; common symbols name themselves. */
  function Written(r: Request, n: nat): string {
    match r
    case WantString(_) => "_str_" + Decimal(n)
    case WantFloat(_) => "_float_" + Decimal(n)
    case WantWords(_) => "_data_" + Decimal(n)
    case WantComm(symbol, _) => symbol
  }

  /** The different constants of a sequence of requests. */
  function Constants(requests: seq<Request>): set<Request> {
    set r | r in requests && !r.WantComm?
  }

  predicate Has(pool: Pool, r: Request) {
    match r
    case WantString(bytes) => Find(pool.strings, bytes).Some?
    case WantFloat(bits) => Find(pool.floats, bits).Some?
    case WantWords(words) => Find(pool.words, words).Some?
    case WantComm(symbol, _) => HasComm(pool.comms, symbol)
  }

  lemma InternAdds<T>(entries: seq<Entry<T>>, content: T, counter: nat, other: T)
    ensures Find(Intern(entries, content, counter).0, other).Some? <==> Find(entries, other).Some? || content == other
  {
    if Find(entries, content).None? {
      assert Entry(counter, content) in Intern(entries, content, counter).0;
    }
  }

  lemma ServeAdds(pool: Pool, q: Request, r: Request)
    requires !r.WantComm?
    ensures Has(Serve(pool, q).0, r) <==> Has(pool, r) || q == r
  {
    match (q, r)
    case (WantString(x), WantString(y)) => InternAdds(pool.strings, x, pool.counter, y);
    case (WantFloat(x), WantFloat(y)) => InternAdds(pool.floats, x, pool.counter, y);
    case (WantWords(x), WantWords(y)) => InternAdds(pool.words, x, pool.counter, y);
    case _ =>
  }

  lemma ServeCounts(pool: Pool, q: Request)
    ensures Serve(pool, q).0.counter == pool.counter + if q.WantComm? || Has(pool, q) then 0 else 1
  {
  }

  lemma ConstantsGrow(requests: seq<Request>, q: Request)
    ensures Constants(requests + [q]) == if q.WantComm? then Constants(requests) else Constants(requests) + {q}
  {
  }

  /** A pool holds the constants asked for, and its counter is their number. */
  lemma {:induction false} CounterCounts(requests: seq<Request>, r: Request)
    requires !r.WantComm?
    ensures Has(ServeAll(EMPTY, requests), r) <==> r in Constants(requests)
    ensures ServeAll(EMPTY, requests).counter == |Constants(requests)|
    decreases |requests|
  {
    hide Has, Serve;
    if requests == [] {
      NothingHeld(r);
      assert Constants(requests) == {};
    } else {
      var n := |requests| - 1;
      var earlier, q := requests[..n], requests[n];
      assert requests == earlier + [q] && requests[n + 1..] == [];
      ServeAllSplits(EMPTY, requests, n);
      var pool := ServeAll(EMPTY, earlier);
      assert ServeAll(EMPTY, requests) == Serve(pool, q).0;
      hide ServeAll;
      ServeAdds(pool, q, r);
      ServeCounts(pool, q);
      ConstantsGrow(earlier, q);
      CounterCounts(earlier, r);
      if !q.WantComm? {
        CounterCounts(earlier, q);
      }
      hide Constants;
    }
  }

  lemma NothingHeld(r: Request)
    requires !r.WantComm?
    ensures !Has(EMPTY, r)
  {
  }

  /** The first request of a constant gets the number of the different constants asked for before,
      and every request of it gets that label. */
  lemma LabelsCountConstants(requests: seq<Request>, first: nat, i: nat)
    requires first <= i < |requests| && requests[i] == requests[first] && requests[first] !in requests[..first]
    ensures LabelOf(EMPTY, requests, i) == Written(requests[i], |Constants(requests[..first])|)
  {
    var r := requests[first];
    if !r.WantComm? {
      SameLabelSameContent(requests, first, i);
      CounterCounts(requests[..first], r);
      assert !Has(ServeAll(EMPTY, requests[..first]), r);
    }
  }
}
