/** Reading a serialised descriptor back from its label at the declared offsets. A reader
    starts from the label of the eight descriptor words, follows labels into the pool for
    strings, tables and nested records, and checks the recorded lengths and counts and that
    unused words are zero. Each writer is paired with its reader, in any pool that extends
    the one the writer left, so that whatever is interned later does not matter. The last
    part is about default values: what an expression denotes, what is recorded, and when
    the two are the same. */
module DescriptorReadback {
  import opened Prelude
  import opened DataSection
  import opened CallableDescriptor
  import opened Utf8
  import opened StringBytes

  // ----- what a reader sees -----

  datatype SigView = SigView(
    params: seq<Param>, required: nat, regular: nat, variadicIndex: U64,
    returnTag: U64, returnRegisters: U64, declaredReturn: bool,
    defaults: seq<DefaultValue>, refParams: seq<bool>, declaredParams: seq<bool>)

  datatype View = View(
    kind: U64, entry: string, phpName: Option<Bytes>, sig: Option<SigView>,
    captures: seq<Binding>, hidden: seq<Binding>, invocation: Invocation, invoker: Option<string>)

  function EncodedAll(defaults: seq<Option<DefaultExpr>>): seq<DefaultValue> {
    if defaults == [] then [] else [EncodedOption(defaults[0])] + EncodedAll(defaults[1..])
  }

  function SigViewOf(sig: FunctionSig): SigView {
    SigView(sig.params, RequiredCount(sig), RegularCount(sig), VariadicIndex(sig),
            sig.returnType.tag, sig.returnType.registers, sig.declaredReturn,
            EncodedAll(sig.defaults), sig.refParams, sig.declaredParams)
  }

  function ViewOf(spec: Spec): View {
    View(spec.kind, spec.entry, spec.phpName,
         if spec.sig.None? then None else Some(SigViewOf(spec.sig.value)),
         spec.captures, spec.hidden, spec.invocation, spec.invoker)
  }

  // ----- reading -----

  function ReadNumber(w: DataWord): Option<U64> {
    if w.Number? then Some(w.value) else None
  }

  function ReadFlag(w: DataWord): Option<bool> {
    if w == Number(1) then Some(true) else if w == Number(0) then Some(false) else None
  }

  function ReadSymbol(w: DataWord): Option<Option<string>> {
    if w.Symbol? then Some(Some(w.name)) else if w == Number(0) then Some(None) else None
  }

  function ReadString(pool: Pool, w: DataWord, length: DataWord): Option<Option<Bytes>> {
    var name :- ReadSymbol(w);
    var n :- ReadNumber(length);
    if name.None? then if n == 0 then Some(None) else None
    else
      var bytes :- StringAt(pool, name.value);
      if |bytes| == n then var b: Bytes := bytes; Some(Some(b)) else None
  }

  function ReadTable(pool: Pool, w: DataWord): Option<seq<DataWord>> {
    var name :- ReadSymbol(w);
    if name.None? then Some([]) else WordsAt(pool, name.value)
  }

  function ReadParams(pool: Pool, names: seq<DataWord>, types: seq<DataWord>): Option<seq<Param>>
    decreases |names|
  {
    if names == [] then Some([])
    else if |names| < 2 || |types| < 3 then None
    else
      var name :- ReadString(pool, names[0], names[1]);
      if name.None? then None
      else
        var tag :- ReadNumber(types[0]);
        var size :- ReadNumber(types[1]);
        var registers :- ReadNumber(types[2]);
        var rest :- ReadParams(pool, names[2..], types[3..]);
        Some([Param(name.value, PhpType(tag, size, registers))] + rest)
  }

  function ReadBindings(pool: Pool, words: seq<DataWord>): Option<seq<Binding>>
    decreases |words|
  {
    if words == [] then Some([])
    else if |words| < 4 then None
    else
      var name :- ReadString(pool, words[0], words[1]);
      if name.None? then None
      else
        var tag :- ReadNumber(words[2]);
        var byRef :- ReadFlag(words[3]);
        var rest :- ReadBindings(pool, words[4..]);
        Some([Binding(name.value, tag, byRef)] + rest)
  }

  function ReadFlags(words: seq<DataWord>): Option<seq<bool>> {
    if words == [] then Some([])
    else
      var first :- ReadFlag(words[0]);
      var rest :- ReadFlags(words[1..]);
      Some([first] + rest)
  }

  function ReadDefault(pool: Pool, kind: DataWord, lo: DataWord, hi: DataWord): Option<DefaultValue> {
    var k :- ReadNumber(kind);
    if k == 2 then
      var s :- ReadString(pool, lo, hi);
      if s.None? then None else Some(StringValue(s.value))
    else if hi != Number(0) then None
    else if k == 1 then var w :- ReadNumber(lo); Some(IntValue(Signed(w)))
    else if k == 3 then var w :- ReadNumber(lo); Some(FloatValue(w))
    else if k == 4 then var b :- ReadFlag(lo); Some(BoolValue(b))
    else if lo != Number(0) then None
    else if k == 0 then Some(NoDefault)
    else if k == 5 then Some(NullValue)
    else if k == 6 then Some(EmptyArray)
    else if k == 255 then Some(Complex)
    else None
  }

  function ReadDefaults(pool: Pool, words: seq<DataWord>): Option<seq<DefaultValue>>
    decreases |words|
  {
    if words == [] then Some([])
    else if |words| < 3 then None
    else
      var first :- ReadDefault(pool, words[0], words[1], words[2]);
      var rest :- ReadDefaults(pool, words[3..]);
      Some([first] + rest)
  }

  function ReadSignature(pool: Pool, name: string): Option<SigView> {
    var words :- WordsAt(pool, name);
    if |words| != 12 then None
    else
      var count :- ReadNumber(words[0]);
      var required :- ReadNumber(words[1]);
      var regular :- ReadNumber(words[2]);
      var variadic :- ReadNumber(words[3]);
      var tag :- ReadNumber(words[4]);
      var registers :- ReadNumber(words[5]);
      var declared :- ReadFlag(words[6]);
      var names :- ReadTable(pool, words[7]);
      var types :- ReadTable(pool, words[8]);
      var params :- ReadParams(pool, names, types);
      var defaultWords :- ReadTable(pool, words[9]);
      var defaults :- ReadDefaults(pool, defaultWords);
      var refWords :- ReadTable(pool, words[10]);
      var refs :- ReadFlags(refWords);
      var declaredWords :- ReadTable(pool, words[11]);
      var declareds :- ReadFlags(declaredWords);
      if |params| != count || |defaults| != count || |refs| != count || |declareds| != count then None
      else Some(SigView(params, required, regular, variadic, tag, registers, declared, defaults, refs, declareds))
  }

  function ReadEnvironment(pool: Pool, name: string): Option<(seq<Binding>, seq<Binding>)> {
    var words :- WordsAt(pool, name);
    if |words| != 4 then None
    else
      var captureCount :- ReadNumber(words[0]);
      var hiddenCount :- ReadNumber(words[1]);
      var captureWords :- ReadTable(pool, words[2]);
      var captures :- ReadBindings(pool, captureWords);
      var hiddenWords :- ReadTable(pool, words[3]);
      var hidden :- ReadBindings(pool, hiddenWords);
      if |captures| != captureCount || |hidden| != hiddenCount then None else Some((captures, hidden))
  }

  function ReadInvocation(pool: Pool, name: string): Option<Invocation> {
    var words :- WordsAt(pool, name);
    if |words| != 7 then None
    else
      var shape :- ReadNumber(words[0]);
      var receiver :- ReadString(pool, words[1], words[2]);
      var methodName :- ReadString(pool, words[3], words[4]);
      var aux :- ReadString(pool, words[5], words[6]);
      Some(Invocation(shape, receiver, methodName, aux))
  }

  /** The eight words of a descriptor, at offsets 0, 8, ..., 56. */
  function ReadDescriptor(pool: Pool, name: string): Option<View> {
    var words :- WordsAt(pool, name);
    if |words| != 8 then None
    else
      var kind :- ReadNumber(words[0]);
      var entry :- ReadSymbol(words[1]);
      var phpName :- ReadString(pool, words[2], words[3]);
      var sigName :- ReadSymbol(words[4]);
      var sig :- ReadOptionalSignature(pool, sigName);
      var envName :- ReadSymbol(words[5]);
      var env :- ReadOptionalEnvironment(pool, envName);
      var invocationName :- ReadSymbol(words[6]);
      if entry.None? || invocationName.None? then None
      else
        var invocation :- ReadInvocation(pool, invocationName.value);
        var invoker :- ReadSymbol(words[7]);
        Some(View(kind, entry.value, phpName, sig, env.0, env.1, invocation, invoker))
  }

  function ReadOptionalSignature(pool: Pool, name: Option<string>): Option<Option<SigView>> {
    if name.None? then Some(None) else
      var sig :- ReadSignature(pool, name.value);
      Some(Some(sig))
  }

  function ReadOptionalEnvironment(pool: Pool, name: Option<string>): Option<(seq<Binding>, seq<Binding>)> {
    if name.None? then Some(([], [])) else ReadEnvironment(pool, name.value)
  }

  // ----- each piece reads back, in any later pool -----

  lemma ExtendsTransitive(a: Pool, b: Pool, c: Pool)
    requires Extends(a, b) && Extends(b, c)
    ensures Extends(a, c)
  {
  }

  lemma OptionalStringKeeps(pool: Pool, value: Option<Bytes>)
    requires Valid(pool)
    ensures Valid(OptionalString(pool, value).0) && Extends(pool, OptionalString(pool, value).0)
  {
    if value.Some? {
      AddStringKeeps(pool, value.value);
    }
  }

  lemma OptionalStringReads(pool: Pool, value: Option<Bytes>, later: Pool)
    requires Valid(pool) && Extends(OptionalString(pool, value).0, later)
    ensures var words := OptionalString(pool, value).1; ReadString(later, words[0], words[1]) == Some(value)
  {
    if value.Some? {
      StringReadsBack(pool, value.value, later);
    }
  }

  lemma TableKeeps(pool: Pool, words: seq<DataWord>)
    requires Valid(pool)
    ensures Valid(Table(pool, words).0) && Extends(pool, Table(pool, words).0)
  {
    if words != [] {
      AddWordsKeeps(pool, words);
    }
  }

  lemma TableReads(pool: Pool, words: seq<DataWord>, later: Pool)
    requires Valid(pool) && Extends(Table(pool, words).0, later)
    ensures ReadTable(later, OptionalSymbol(Table(pool, words).1)) == Some(words)
  {
    if words != [] {
      WordsReadBack(pool, words, later);
    }
  }

  lemma {:induction false} NameWordsKeeps(pool: Pool, params: seq<Param>)
    requires Valid(pool)
    ensures Valid(NameWords(pool, params).0) && Extends(pool, NameWords(pool, params).0)
    decreases |params|
  {
    if params != [] {
      OptionalStringKeeps(pool, Some(params[0].name));
      NameWordsKeeps(OptionalString(pool, Some(params[0].name)).0, params[1..]);
    }
  }

  lemma {:induction false} ParamsRead(pool: Pool, params: seq<Param>, later: Pool)
    requires Valid(pool) && Extends(NameWords(pool, params).0, later)
    ensures ReadParams(later, NameWords(pool, params).1, TypeWords(params)) == Some(params)
    decreases |params|
  {
    hide Valid, Extends, AddString, ReadString;
    if params != [] {
      var (p, first) := OptionalString(pool, Some(params[0].name));
      OptionalStringKeeps(pool, Some(params[0].name));
      NameWordsKeeps(p, params[1..]);
      ExtendsTransitive(p, NameWords(p, params[1..]).0, later);
      OptionalStringReads(pool, Some(params[0].name), later);
      ParamsRead(p, params[1..], later);
      ParamReads(later, first, params[0], NameWords(p, params[1..]).1, TypeWords(params[1..]), params[1..]);
      assert params == [params[0]] + params[1..];
      hide OptionalString, ReadParams;
    }
  }

  /** One parameter in front of those already read. */
  lemma ParamReads(later: Pool, first: seq<DataWord>, param: Param, names: seq<DataWord>, types: seq<DataWord>,
    params: seq<Param>)
    requires |first| == 2 && ReadString(later, first[0], first[1]) == Some(Some(param.name))
    requires ReadParams(later, names, types) == Some(params)
    ensures var ty := [Number(param.ty.tag), Number(param.ty.stackSize), Number(param.ty.registers)];
            ReadParams(later, first + names, ty + types) == Some([param] + params)
  {
    var ty := [Number(param.ty.tag), Number(param.ty.stackSize), Number(param.ty.registers)];
    assert (first + names)[2..] == names && (ty + types)[3..] == types;
    hide ReadString;
  }

  lemma {:induction false} BindingWordsKeeps(pool: Pool, bindings: seq<Binding>)
    requires Valid(pool)
    ensures Valid(BindingWords(pool, bindings).0) && Extends(pool, BindingWords(pool, bindings).0)
    decreases |bindings|
  {
    if bindings != [] {
      OptionalStringKeeps(pool, Some(bindings[0].name));
      BindingWordsKeeps(OptionalString(pool, Some(bindings[0].name)).0, bindings[1..]);
    }
  }

  lemma {:induction false} BindingsRead(pool: Pool, bindings: seq<Binding>, later: Pool)
    requires Valid(pool) && Extends(BindingWords(pool, bindings).0, later)
    ensures ReadBindings(later, BindingWords(pool, bindings).1) == Some(bindings)
    decreases |bindings|
  {
    hide Valid, Extends, AddString, ReadString;
    if bindings != [] {
      var (p, first) := OptionalString(pool, Some(bindings[0].name));
      OptionalStringKeeps(pool, Some(bindings[0].name));
      BindingWordsKeeps(p, bindings[1..]);
      ExtendsTransitive(p, BindingWords(p, bindings[1..]).0, later);
      OptionalStringReads(pool, Some(bindings[0].name), later);
      BindingsRead(p, bindings[1..], later);
      BindingReads(later, first, bindings[0], BindingWords(p, bindings[1..]).1, bindings[1..]);
      assert bindings == [bindings[0]] + bindings[1..];
      hide OptionalString, ReadBindings;
    }
  }

  lemma BindingReads(later: Pool, first: seq<DataWord>, binding: Binding, words: seq<DataWord>, bindings: seq<Binding>)
    requires |first| == 2 && ReadString(later, first[0], first[1]) == Some(Some(binding.name))
    requires ReadBindings(later, words) == Some(bindings)
    ensures ReadBindings(later, first + [Number(binding.tag), Flag(binding.byRef)] + words)
            == Some([binding] + bindings)
  {
    assert (first + [Number(binding.tag), Flag(binding.byRef)] + words)[4..] == words;
    hide ReadString;
  }

  lemma {:induction false} FlagsRead(flags: seq<bool>)
    ensures ReadFlags(FlagWords(flags)) == Some(flags)
  {
    if flags != [] {
      FlagsRead(flags[1..]);
      assert FlagWords(flags)[1..] == FlagWords(flags[1..]);
      assert flags == [flags[0]] + flags[1..];
    }
  }

  /** Integers in the range of the literal type. */
  predicate InRange(v: DefaultValue) {
    v.IntValue? ==> -0x8000_0000_0000_0000 <= v.n < 0x8000_0000_0000_0000
  }

  lemma SignedWrap(n: int)
    requires -0x8000_0000_0000_0000 <= n < 0x8000_0000_0000_0000
    ensures Signed(Wrap(n)) == n
  {
  }

  lemma DefaultReads(pool: Pool, v: DefaultValue, later: Pool)
    requires Valid(pool) && InRange(v) && Extends(DefaultWords(pool, v).0, later)
    ensures var words := DefaultWords(pool, v).1; ReadDefault(later, words[0], words[1], words[2]) == Some(v)
  {
    match v
    case StringValue(s) => StringReadsBack(pool, s, later);
    case IntValue(n) => SignedWrap(n);
    case _ =>
  }

  ghost predicate DefaultsInRange(defaults: seq<Option<DefaultExpr>>) {
    forall d :: d in defaults ==> InRange(EncodedOption(d))
  }

  lemma DefaultKeeps(pool: Pool, v: DefaultValue)
    requires Valid(pool)
    ensures Valid(DefaultWords(pool, v).0) && Extends(pool, DefaultWords(pool, v).0)
  {
    if v.StringValue? {
      AddStringKeeps(pool, v.s);
    }
  }

  lemma {:induction false} DefaultsKeep(pool: Pool, defaults: seq<Option<DefaultExpr>>)
    requires Valid(pool)
    ensures Valid(DefaultsWords(pool, defaults).0) && Extends(pool, DefaultsWords(pool, defaults).0)
    decreases |defaults|
  {
    hide Valid, AddString;
    if defaults != [] {
      var p := DefaultWords(pool, EncodedOption(defaults[0])).0;
      DefaultKeeps(pool, EncodedOption(defaults[0]));
      DefaultsKeep(p, defaults[1..]);
      ExtendsTransitive(pool, p, DefaultsWords(p, defaults[1..]).0);
    }
  }

  lemma {:induction false} DefaultsRead(pool: Pool, defaults: seq<Option<DefaultExpr>>, later: Pool)
    requires Valid(pool) && DefaultsInRange(defaults) && Extends(DefaultsWords(pool, defaults).0, later)
    ensures ReadDefaults(later, DefaultsWords(pool, defaults).1) == Some(EncodedAll(defaults))
    decreases |defaults|
  {
    hide Valid, Extends, AddString, ReadString, Encoded;
    if defaults != [] {
      var v := EncodedOption(defaults[0]);
      var (p, first) := DefaultWords(pool, v);
      DefaultKeeps(pool, v);
      DefaultsKeep(p, defaults[1..]);
      ExtendsTransitive(p, DefaultsWords(p, defaults[1..]).0, later);
      DefaultReads(pool, v, later);
      DefaultsRead(p, defaults[1..], later);
      DefaultIsRead(later, first, v, DefaultsWords(p, defaults[1..]).1, EncodedAll(defaults[1..]));
      hide DefaultWords, ReadDefaults, EncodedOption;
    }
  }

  lemma DefaultIsRead(later: Pool, first: seq<DataWord>, v: DefaultValue, words: seq<DataWord>, vs: seq<DefaultValue>)
    requires |first| == 3 && ReadDefault(later, first[0], first[1], first[2]) == Some(v)
    requires ReadDefaults(later, words) == Some(vs)
    ensures ReadDefaults(later, first + words) == Some([v] + vs)
  {
    assert (first + words)[3..] == words;
    hide ReadDefault;
  }

  // ----- the records -----

  /** A signature with one entry per parameter in every vector, and small integers. */
  ghost predicate WellFormed(sig: FunctionSig) {
    && |sig.defaults| == |sig.params| && |sig.refParams| == |sig.params| && |sig.declaredParams| == |sig.params|
    && DefaultsInRange(sig.defaults)
  }

  lemma {:induction false} EncodedAllLength(defaults: seq<Option<DefaultExpr>>)
    ensures |EncodedAll(defaults)| == |defaults|
  {
    if defaults != [] {
      EncodedAllLength(defaults[1..]);
    }
  }

  /** The pools a signature record goes through. */
  ghost function SignaturePools(pool: Pool, sig: FunctionSig): seq<Pool> {
    var p1 := NameWords(pool, sig.params).0;
    var p2 := Table(p1, NameWords(pool, sig.params).1).0;
    var p3 := Table(p2, TypeWords(sig.params)).0;
    var p4 := DefaultsWords(p3, sig.defaults).0;
    var p5 := Table(p4, DefaultsWords(p3, sig.defaults).1).0;
    var p6 := Table(p5, FlagWords(sig.refParams)).0;
    var p7 := Table(p6, FlagWords(sig.declaredParams)).0;
    [pool, p1, p2, p3, p4, p5, p6, p7]
  }

  ghost predicate Chain(pools: seq<Pool>, last: Pool) {
    forall i :: 0 <= i < |pools| ==> Valid(pools[i]) && Extends(pools[i], last)
  }

  lemma SignatureChain(pool: Pool, sig: FunctionSig)
    requires Valid(pool)
    ensures Valid(SignatureRecord(pool, sig).0) && Chain(SignaturePools(pool, sig), SignatureRecord(pool, sig).0)
  {
    hide Valid, AddString, AddWords, NameWords, TypeWords, Table, DefaultsWords, FlagWords;
    var p := SignaturePools(pool, sig);
    NameWordsKeeps(pool, sig.params);
    TableKeeps(p[1], NameWords(pool, sig.params).1);
    TableKeeps(p[2], TypeWords(sig.params));
    DefaultsKeep(p[3], sig.defaults);
    TableKeeps(p[4], DefaultsWords(p[3], sig.defaults).1);
    TableKeeps(p[5], FlagWords(sig.refParams));
    TableKeeps(p[6], FlagWords(sig.declaredParams));
    var tables := [Table(p[1], NameWords(pool, sig.params).1).1, Table(p[2], TypeWords(sig.params)).1,
                   Table(p[4], DefaultsWords(p[3], sig.defaults).1).1, Table(p[5], FlagWords(sig.refParams)).1,
                   Table(p[6], FlagWords(sig.declaredParams)).1];
    AddWordsKeeps(p[7], SignatureWords(sig, tables));
  }

  lemma SignatureReads(pool: Pool, sig: FunctionSig, later: Pool)
    requires Valid(pool) && WellFormed(sig) && Extends(SignatureRecord(pool, sig).0, later)
    ensures ReadSignature(later, SignatureRecord(pool, sig).1) == Some(SigViewOf(sig))
  {
    hide Valid, AddString, AddWords, NameWords, TypeWords, Table, DefaultsWords, FlagWords,
         ReadTable, ReadParams, ReadDefaults, ReadFlags, WordsAt, EncodedAll, RequiredAmong;
    var p := SignaturePools(pool, sig);
    var end := SignatureRecord(pool, sig).0;
    SignatureChain(pool, sig);
    var names := NameWords(pool, sig.params).1;
    var defaults := DefaultsWords(p[3], sig.defaults).1;
    assert Chain(p, later) by {
      forall i | 0 <= i < |p| ensures Extends(p[i], later) {
        ExtendsTransitive(p[i], end, later);
      }
    }
    assert Extends(p[1], later) && Extends(p[2], later) && Extends(p[3], later) && Extends(p[4], later);
    assert Extends(p[5], later) && Extends(p[6], later) && Extends(p[7], later);
    assert Valid(p[1]) && Valid(p[2]) && Valid(p[3]) && Valid(p[4]) && Valid(p[5]) && Valid(p[6]) && Valid(p[7]);
    ParamsRead(pool, sig.params, later);
    TableReads(p[1], names, later);
    TableReads(p[2], TypeWords(sig.params), later);
    DefaultsRead(p[3], sig.defaults, later);
    TableReads(p[4], defaults, later);
    TableReads(p[5], FlagWords(sig.refParams), later);
    TableReads(p[6], FlagWords(sig.declaredParams), later);
    FlagsRead(sig.refParams);
    FlagsRead(sig.declaredParams);
    EncodedAllLength(sig.defaults);
    var tables := [Table(p[1], names).1, Table(p[2], TypeWords(sig.params)).1, Table(p[4], defaults).1,
                   Table(p[5], FlagWords(sig.refParams)).1, Table(p[6], FlagWords(sig.declaredParams)).1];
    WordsReadBack(p[7], SignatureWords(sig, tables), later);
  }

  lemma EnvironmentReads(pool: Pool, captures: Vec<Binding>, hidden: Vec<Binding>, later: Pool)
    requires Valid(pool) && Extends(EnvironmentRecord(pool, captures, hidden).0, later)
    ensures ReadEnvironment(later, EnvironmentRecord(pool, captures, hidden).1) == Some((captures, hidden))
    ensures Valid(EnvironmentRecord(pool, captures, hidden).0)
            && Extends(pool, EnvironmentRecord(pool, captures, hidden).0)
  {
    hide Valid, AddString, AddWords, BindingWords, Table, ReadTable, ReadBindings, WordsAt;
    var (p1, captureWords) := BindingWords(pool, captures);
    var (p2, captureTable) := Table(p1, captureWords);
    var (p3, hiddenWords) := BindingWords(p2, hidden);
    var (p4, hiddenTable) := Table(p3, hiddenWords);
    BindingWordsKeeps(pool, captures);
    TableKeeps(p1, captureWords);
    BindingWordsKeeps(p2, hidden);
    TableKeeps(p3, hiddenWords);
    var words := [Number(|captures|), Number(|hidden|), OptionalSymbol(captureTable), OptionalSymbol(hiddenTable)];
    AddWordsKeeps(p4, words);
    BindingsRead(pool, captures, later);
    TableReads(p1, captureWords, later);
    BindingsRead(p2, hidden, later);
    TableReads(p3, hiddenWords, later);
    WordsReadBack(p4, words, later);
  }

  lemma InvocationReads(pool: Pool, inv: Invocation, later: Pool)
    requires Valid(pool) && Extends(InvocationRecord(pool, inv).0, later)
    ensures ReadInvocation(later, InvocationRecord(pool, inv).1) == Some(inv)
    ensures Valid(InvocationRecord(pool, inv).0) && Extends(pool, InvocationRecord(pool, inv).0)
  {
    hide Valid, AddString, AddWords, ReadString, WordsAt;
    var (p1, receiver) := OptionalString(pool, inv.receiver);
    var (p2, methodName) := OptionalString(p1, inv.methodName);
    var (p3, aux) := OptionalString(p2, inv.aux);
    OptionalStringKeeps(pool, inv.receiver);
    OptionalStringKeeps(p1, inv.methodName);
    OptionalStringKeeps(p2, inv.aux);
    var words := [Number(inv.shape)] + receiver + methodName + aux;
    AddWordsKeeps(p3, words);
    OptionalStringReads(pool, inv.receiver, later);
    OptionalStringReads(p1, inv.methodName, later);
    OptionalStringReads(p2, inv.aux, later);
    WordsReadBack(p3, words, later);
  }

  lemma OptionalSignatureReads(pool: Pool, sig: Option<FunctionSig>, later: Pool)
    requires Valid(pool) && (sig.Some? ==> WellFormed(sig.value)) && Extends(OptionalSignature(pool, sig).0, later)
    ensures ReadOptionalSignature(later, OptionalSignature(pool, sig).1)
            == Some(if sig.None? then None else Some(SigViewOf(sig.value)))
    ensures Valid(OptionalSignature(pool, sig).0) && Extends(pool, OptionalSignature(pool, sig).0)
  {
    hide Valid, SignatureRecord, ReadSignature, SigViewOf;
    if sig.Some? {
      SignatureReads(pool, sig.value, later);
      SignatureChain(pool, sig.value);
      assert SignaturePools(pool, sig.value)[0] == pool;
    }
  }

  lemma OptionalEnvironmentReads(pool: Pool, captures: Vec<Binding>, hidden: Vec<Binding>, later: Pool)
    requires Valid(pool) && Extends(OptionalEnvironment(pool, captures, hidden).0, later)
    ensures ReadOptionalEnvironment(later, OptionalEnvironment(pool, captures, hidden).1) == Some((captures, hidden))
    ensures Valid(OptionalEnvironment(pool, captures, hidden).0)
            && Extends(pool, OptionalEnvironment(pool, captures, hidden).0)
  {
    hide Valid, EnvironmentRecord, ReadEnvironment;
    if captures != [] || hidden != [] {
      EnvironmentReads(pool, captures, hidden, later);
    }
  }

  /** A descriptor reads back from its label, and later additions to the pool never
      change what is read. */
  lemma DescriptorReadsBack(pool: Pool, spec: Spec, later: Pool)
    requires Valid(pool) && (spec.sig.Some? ==> WellFormed(spec.sig.value))
    requires Extends(StaticDescriptor(pool, spec).0, later)
    ensures ReadDescriptor(later, StaticDescriptor(pool, spec).1) == Some(ViewOf(spec))
  {
    hide Valid, OptionalSignature, OptionalEnvironment, InvocationRecord, AddString, AddWords, WordsAt,
         ReadString, ReadOptionalSignature, ReadOptionalEnvironment, ReadInvocation, SigViewOf;
    var (p1, nameWords) := OptionalString(pool, spec.phpName);
    var (p2, signature) := OptionalSignature(p1, spec.sig);
    var (p3, environment) := OptionalEnvironment(p2, spec.captures, spec.hidden);
    var (p4, invocation) := InvocationRecord(p3, spec.invocation);
    var words := [Number(spec.kind), Symbol(spec.entry)] + nameWords
                 + [OptionalSymbol(signature), OptionalSymbol(environment), Symbol(invocation),
                   OptionalSymbol(spec.invoker)];
    OptionalStringKeeps(pool, spec.phpName);
    OptionalSignatureReads(p1, spec.sig, p2);
    OptionalEnvironmentReads(p2, spec.captures, spec.hidden, p3);
    InvocationReads(p3, spec.invocation, p4);
    AddWordsKeeps(p4, words);
    OptionalStringReads(pool, spec.phpName, later);
    OptionalSignatureReads(p1, spec.sig, later);
    OptionalEnvironmentReads(p2, spec.captures, spec.hidden, later);
    InvocationReads(p3, spec.invocation, later);
    WordsReadBack(p4, words, later);
  }

  lemma DescriptorKeeps(pool: Pool, spec: Spec)
    requires Valid(pool)
    ensures Valid(StaticDescriptor(pool, spec).0)
  {
    hide Valid, SignatureRecord, OptionalEnvironment, InvocationRecord, AddString, AddWords;
    var (p1, nameWords) := OptionalString(pool, spec.phpName);
    var (p2, signature) := OptionalSignature(p1, spec.sig);
    var (p3, environment) := OptionalEnvironment(p2, spec.captures, spec.hidden);
    var (p4, invocation) := InvocationRecord(p3, spec.invocation);
    OptionalStringKeeps(pool, spec.phpName);
    if spec.sig.Some? {
      SignatureChain(p1, spec.sig.value);
    }
    OptionalEnvironmentReads(p2, spec.captures, spec.hidden, p3);
    InvocationReads(p3, spec.invocation, p4);
    AddWordsKeeps(p4, [Number(spec.kind), Symbol(spec.entry)] + nameWords
                      + [OptionalSymbol(signature), OptionalSymbol(environment), Symbol(invocation),
                        OptionalSymbol(spec.invoker)]);
  }

  /** Whatever is interned before and after it, a descriptor reads back from its label. */
  lemma DescriptorSurvives(before: seq<Request>, spec: Spec, after: seq<Request>)
    requires spec.sig.Some? ==> WellFormed(spec.sig.value)
    ensures var (pool, name) := StaticDescriptor(ServeAll(EMPTY, before), spec);
            ReadDescriptor(ServeAll(pool, after), name) == Some(ViewOf(spec))
  {
    ServeAllKeeps(EMPTY, before);
    hide Valid, ServeAll, StaticDescriptor, ReadDescriptor, ViewOf, Extends;
    var pool := StaticDescriptor(ServeAll(EMPTY, before), spec).0;
    DescriptorKeeps(ServeAll(EMPTY, before), spec);
    ServeAllKeeps(pool, after);
    DescriptorReadsBack(ServeAll(EMPTY, before), spec, ServeAll(pool, after));
  }

  // ----- defaults -----

  /** What a default expression denotes: a string literal its PHP bytes; numbers can be
      negated, nothing else. */
  function Denoted(e: DefaultExpr): DefaultValue {
    match e
    case IntLit(n) => IntValue(n)
    case FloatLit(bits) => FloatValue(bits)
    case StringLit(s) => OwnBytesExact(s); StringValue(PhpBytes(s))
    case BoolLit(b) => BoolValue(b)
    case NullLit => NullValue
    case EmptyArrayLit => EmptyArray
    case ComplexExpr => Complex
    case Negate(inner) =>
      match Denoted(inner)
      case IntValue(n) => IntValue(Signed(Wrap(-n)))
      case FloatValue(bits) => FloatValue(FlipSign(bits))
      case _ => Complex
  }

  /** How often the innermost operand is negated, and that operand. */
  function Negations(e: DefaultExpr): nat {
    if e.Negate? then 1 + Negations(e.inner) else 0
  }

  function Operand(e: DefaultExpr): (operand: DefaultExpr)
    ensures !operand.Negate?
  {
    if e.Negate? then Operand(e.inner) else e
  }

  /** The encoding keeps the markers of strings and drops every negation but the innermost. */
  predicate EncodesFaithfully(e: DefaultExpr) {
    var base := Operand(e);
    || (Negations(e) == 0 && (base.StringLit? ==> NoMarker(base.s)))
    || base.ComplexExpr?
    || (base.IntLit? && (Negations(e) % 2 == 1 || Signed(Wrap(-base.n)) == base.n))
    || (base.FloatLit? && Negations(e) % 2 == 1)
  }

  function NegateOnce(v: DefaultValue): DefaultValue {
    match v
    case IntValue(n) => IntValue(Signed(Wrap(-n)))
    case FloatValue(bits) => FloatValue(FlipSign(bits))
    case _ => Complex
  }

  lemma {:induction false} DenotedByParity(e: DefaultExpr)
    requires InRange(Denoted(Operand(e)))
    ensures Negations(e) % 2 == 0 && (Negations(e) == 0 || Operand(e).IntLit? || Operand(e).FloatLit?)
            ==> Denoted(e) == Denoted(Operand(e))
    ensures Negations(e) % 2 == 1 ==> Denoted(e) == NegateOnce(Denoted(Operand(e)))
    ensures Negations(e) > 0 && !Operand(e).IntLit? && !Operand(e).FloatLit? ==> Denoted(e) == Complex
  {
    if e.Negate? {
      DenotedByParity(e.inner);
      var v := Denoted(Operand(e));
      if v.IntValue? {
        NegateTwice(v.n);
      }
    }
  }

  lemma NegateTwice(n: int)
    requires -0x8000_0000_0000_0000 <= n < 0x8000_0000_0000_0000
    ensures Signed(Wrap(-Signed(Wrap(-n)))) == n
  {
  }

  lemma {:induction false} EncodedByInnermost(e: DefaultExpr)
    ensures Encoded(e) ==
              if Negations(e) == 0 || !(Operand(e).IntLit? || Operand(e).FloatLit?) then Encoded(Operand(e))
              else NegateOnce(Encoded(Operand(e)))
  {
    if e.Negate? {
      EncodedByInnermost(e.inner);
    }
  }

  /** The recorded default is the value denoted exactly when no negation is lost and no
      marker is kept. */
  lemma DefaultEncodingExact(e: DefaultExpr)
    requires InRange(Denoted(Operand(e)))
    ensures Encoded(e) == Denoted(e) <==> EncodesFaithfully(e)
  {
    DenotedByParity(e);
    EncodedByInnermost(e);
    if Operand(e).StringLit? {
      OwnBytesExact(Operand(e).s);
    }
    assert forall bits :: FlipSign(bits) != bits;
    hide PhpBytes, EncodeAll, IsMarker;
  }

  /** `function f($x = "\xff")`: the record has the three bytes of the marker, where the
      default is a single byte. */
  lemma EscapedByteIsRecordedLong()
    ensures var e := StringLit([EscapedByte(0xff)]);
            Encoded(e) == StringValue([0xee, 0x83, 0xbf]) && Denoted(e) == StringValue([0xff])
  {
    EscapedByteDecodes(0xff);
    var payload := [EscapedByte(0xff)];
    assert payload[1..] == [] && EncodeAll(payload) == Encode(payload[0]) + EncodeAll([]);
    assert Encode(payload[0]) == [0xee, 0x83, 0xbf];
  }

  /** Every parameter but the last one of a variadic function. */
  predicate Regular(sig: FunctionSig, i: nat) {
    i < |sig.params| && (sig.variadic.Some? ==> i < |sig.params| - 1)
  }

  /** The recorded counts are the number of regular parameters and the least r from which on
      each of them has a default. */
  lemma RequiredCountIsLeast(sig: FunctionSig, r: nat)
    ensures forall i: nat :: Regular(sig, i) <==> i < RegularCount(sig)
    ensures (forall i: nat :: r <= i && Regular(sig, i) ==> Defaulted(sig, i)) <==> RequiredCount(sig) <= r
  {
    if r < RequiredCount(sig) {
      assert !Defaulted(sig, RequiredCount(sig) - 1);
    }
  }
}
