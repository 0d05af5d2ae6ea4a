/** The builders of src/codegen/callable_descriptor.rs, appending to a data section. */
module DescriptorBuilder {
  import opened Prelude
  import opened DataSection
  import opened DataEmission
  import opened CallableDescriptor

  // ----- tables grow at the end -----

  lemma {:induction false} NameWordsSnoc(pool: Pool, params: seq<Param>, last: Param)
    ensures var (p, words) := NameWords(pool, params);
            var (q, more) := OptionalString(p, Some(last.name));
            NameWords(pool, params + [last]) == (q, words + more)
    decreases |params|
  {
    hide AddString;
    if params == [] {
      var (q, more) := OptionalString(pool, Some(last.name));
      assert params + [last] == [last] && [last][1..] == [] && NameWords(q, []) == (q, []);
      assert more + [] == [] + more == more;
    } else {
      var (p, first) := OptionalString(pool, Some(params[0].name));
      NameWordsSnoc(p, params[1..], last);
      assert (params + [last])[1..] == params[1..] + [last] && (params + [last])[0] == params[0];
      var (q, rest) := NameWords(p, params[1..]);
      var more := OptionalString(q, Some(last.name)).1;
      assert first + rest + more == first + (rest + more);
    }
  }

  lemma {:induction false} TypeWordsSnoc(params: seq<Param>, last: Param)
    ensures TypeWords(params + [last]) ==
              TypeWords(params) + [Number(last.ty.tag), Number(last.ty.stackSize), Number(last.ty.registers)]
  {
    if params == [] {
      assert ([] + [last])[1..] == [];
    } else {
      TypeWordsSnoc(params[1..], last);
      assert (params + [last])[1..] == params[1..] + [last];
    }
  }

  lemma {:induction false} BindingWordsSnoc(pool: Pool, bindings: seq<Binding>, last: Binding)
    ensures var (p, words) := BindingWords(pool, bindings);
            var (q, more) := OptionalString(p, Some(last.name));
            BindingWords(pool, bindings + [last]) == (q, words + more + [Number(last.tag), Flag(last.byRef)])
    decreases |bindings|
  {
    hide AddString;
    if bindings == [] {
      var (q, more) := OptionalString(pool, Some(last.name));
      assert bindings + [last] == [last] && [last][1..] == [] && BindingWords(q, []) == (q, []);
      var words := more + [Number(last.tag), Flag(last.byRef)];
      assert words + [] == [] + more + [Number(last.tag), Flag(last.byRef)];
    } else {
      var (p, first) := OptionalString(pool, Some(bindings[0].name));
      BindingWordsSnoc(p, bindings[1..], last);
      assert (bindings + [last])[1..] == bindings[1..] + [last] && (bindings + [last])[0] == bindings[0];
      var (q, rest) := BindingWords(p, bindings[1..]);
      var head := first + [Number(bindings[0].tag), Flag(bindings[0].byRef)];
      var more, flags := OptionalString(q, Some(last.name)).1, [Number(last.tag), Flag(last.byRef)];
      assert head + rest + more + flags == head + (rest + more + flags);
    }
  }

  lemma {:induction false} DefaultsWordsSnoc(pool: Pool, defaults: seq<Option<DefaultExpr>>, last: Option<DefaultExpr>)
    ensures var (p, words) := DefaultsWords(pool, defaults);
            var (q, more) := DefaultWords(p, EncodedOption(last));
            DefaultsWords(pool, defaults + [last]) == (q, words + more)
    decreases |defaults|
  {
    hide DefaultWords, Encoded;
    if defaults == [] {
      var (q, more) := DefaultWords(pool, EncodedOption(last));
      assert defaults + [last] == [last] && [last][1..] == [] && DefaultsWords(q, []) == (q, []);
      assert more + [] == [] + more == more;
    } else {
      var (p, first) := DefaultWords(pool, EncodedOption(defaults[0]));
      DefaultsWordsSnoc(p, defaults[1..], last);
      assert (defaults + [last])[1..] == defaults[1..] + [last] && (defaults + [last])[0] == defaults[0];
      var (q, rest) := DefaultsWords(p, defaults[1..]);
      var more := DefaultWords(q, EncodedOption(last)).1;
      assert first + rest + more == first + (rest + more);
    }
  }

  // ----- builders -----

  method OptionalStringWord(data: Section, value: Option<Bytes>) returns (words: seq<DataWord>)
    requires data.InStep()
    modifies data
    ensures data.InStep() && (data.View(), words) == OptionalString(old(data.View()), value)
  {
    match value {
      case Some(s) =>
        var name, length := data.AddStringBytes(s);
        words := [Symbol(name), Number(|s|)];
      case None =>
        words := [Number(0), Number(0)];
    }
  }

  method AddTable(data: Section, words: seq<DataWord>) returns (name: Option<string>)
    requires data.InStep() && words != []
    modifies data
    ensures data.InStep() && (data.View(), name) == Table(old(data.View()), words)
  {
    var symbol := data.AddWordRecord(words);
    name := Some(symbol);
  }

  method ParamNameTable(data: Section, params: seq<Param>) returns (name: Option<string>)
    requires data.InStep()
    modifies data
    ensures data.InStep()
    ensures var (p, words) := NameWords(old(data.View()), params); (data.View(), name) == Table(p, words)
  {
    if params == [] {
      return None;
    }
    var words := [];
    assert NameWords(data.View(), []) == (data.View(), []);
    hide NameWords;
    for i := 0 to |params|
      invariant data.InStep() && (data.View(), words) == NameWords(old(data.View()), params[..i]) && |words| >= i
    {
      assert params[..i + 1] == params[..i] + [params[i]];
      NameWordsSnoc(old(data.View()), params[..i], params[i]);
      var more := OptionalStringWord(data, Some(params[i].name));
      words := words + more;
    }
    assert params[..|params|] == params;
    name := AddTable(data, words);
  }

  method ParamTypeTable(data: Section, params: seq<Param>) returns (name: Option<string>)
    requires data.InStep()
    modifies data
    ensures data.InStep() && (data.View(), name) == Table(old(data.View()), TypeWords(params))
  {
    if params == [] {
      return None;
    }
    var words := [];
    assert TypeWords([]) == [];
    hide TypeWords;
    for i := 0 to |params|
      invariant data.InStep() && data.View() == old(data.View())
      invariant words == TypeWords(params[..i]) && |words| >= i
    {
      assert params[..i + 1] == params[..i] + [params[i]];
      TypeWordsSnoc(params[..i], params[i]);
      var ty := params[i].ty;
      words := words + [Number(ty.tag), Number(ty.stackSize), Number(ty.registers)];
    }
    assert params[..|params|] == params;
    name := AddTable(data, words);
  }

  method FlagTable(data: Section, flags: seq<bool>) returns (name: Option<string>)
    requires data.InStep()
    modifies data
    ensures data.InStep() && (data.View(), name) == Table(old(data.View()), FlagWords(flags))
  {
    if flags == [] {
      return None;
    }
    name := AddTable(data, FlagWords(flags));
  }

  method BindingTable(data: Section, bindings: seq<Binding>) returns (name: Option<string>)
    requires data.InStep()
    modifies data
    ensures data.InStep()
    ensures var (p, words) := BindingWords(old(data.View()), bindings); (data.View(), name) == Table(p, words)
  {
    if bindings == [] {
      return None;
    }
    var words := [];
    assert BindingWords(data.View(), []) == (data.View(), []);
    hide BindingWords;
    for i := 0 to |bindings|
      invariant data.InStep() && (data.View(), words) == BindingWords(old(data.View()), bindings[..i]) && |words| >= i
    {
      assert bindings[..i + 1] == bindings[..i] + [bindings[i]];
      BindingWordsSnoc(old(data.View()), bindings[..i], bindings[i]);
      var more := OptionalStringWord(data, Some(bindings[i].name));
      words := words + more + [Number(bindings[i].tag), Flag(bindings[i].byRef)];
    }
    assert bindings[..|bindings|] == bindings;
    name := AddTable(data, words);
  }

  method EncodeDefaultValue(data: Section, default: Option<DefaultExpr>) returns (words: seq<DataWord>)
    requires data.InStep()
    modifies data
    ensures data.InStep() && (data.View(), words) == DefaultWords(old(data.View()), EncodedOption(default))
  {
    match EncodedOption(default) {
      case StringValue(s) =>
        var name, length := data.AddStringBytes(s);
        words := [Number(2), Symbol(name), Number(|s|)];
      case NoDefault => words := [Number(0), Number(0), Number(0)];
      case IntValue(n) => words := [Number(1), Number(Wrap(n)), Number(0)];
      case FloatValue(bits) => words := [Number(3), Number(bits), Number(0)];
      case BoolValue(b) => words := [Number(4), Flag(b), Number(0)];
      case NullValue => words := [Number(5), Number(0), Number(0)];
      case EmptyArray => words := [Number(6), Number(0), Number(0)];
      case Complex => words := [Number(255), Number(0), Number(0)];
    }
  }

  method DefaultTable(data: Section, defaults: seq<Option<DefaultExpr>>) returns (name: Option<string>)
    requires data.InStep()
    modifies data
    ensures data.InStep()
    ensures var (p, words) := DefaultsWords(old(data.View()), defaults); (data.View(), name) == Table(p, words)
  {
    if defaults == [] {
      return None;
    }
    var words := [];
    assert DefaultsWords(data.View(), []) == (data.View(), []);
    hide DefaultsWords, Encoded;
    for i := 0 to |defaults|
      invariant data.InStep() && (data.View(), words) == DefaultsWords(old(data.View()), defaults[..i]) && |words| >= i
    {
      assert defaults[..i + 1] == defaults[..i] + [defaults[i]];
      DefaultsWordsSnoc(old(data.View()), defaults[..i], defaults[i]);
      var more := EncodeDefaultValue(data, defaults[i]);
      words := words + more;
    }
    assert defaults[..|defaults|] == defaults;
    name := AddTable(data, words);
  }

  method BuildSignature(data: Section, sig: FunctionSig) returns (name: string)
    requires data.InStep()
    modifies data
    ensures data.InStep() && (data.View(), name) == SignatureRecord(old(data.View()), sig)
  {
    hide NameWords, TypeWords, DefaultsWords, FlagWords, AddWords, Table, RequiredAmong, PositionOf;
    var names := ParamNameTable(data, sig.params);
    var types := ParamTypeTable(data, sig.params);
    var defaults := DefaultTable(data, sig.defaults);
    var refs := FlagTable(data, sig.refParams);
    var declared := FlagTable(data, sig.declaredParams);
    name := data.AddWordRecord(SignatureWords(sig, [names, types, defaults, refs, declared]));
  }

  method BuildEnvironment(data: Section, captures: Vec<Binding>, hidden: Vec<Binding>) returns (name: string)
    requires data.InStep()
    modifies data
    ensures data.InStep() && (data.View(), name) == EnvironmentRecord(old(data.View()), captures, hidden)
  {
    hide BindingWords, AddWords, Table;
    var captureTable := BindingTable(data, captures);
    var hiddenTable := BindingTable(data, hidden);
    name := data.AddWordRecord([Number(|captures|), Number(|hidden|), OptionalSymbol(captureTable),
      OptionalSymbol(hiddenTable)]);
  }

  method BuildInvocation(data: Section, inv: Invocation) returns (name: string)
    requires data.InStep()
    modifies data
    ensures data.InStep() && (data.View(), name) == InvocationRecord(old(data.View()), inv)
  {
    hide OptionalString, AddWords;
    var receiver := OptionalStringWord(data, inv.receiver);
    var methodName := OptionalStringWord(data, inv.methodName);
    var aux := OptionalStringWord(data, inv.aux);
    name := data.AddWordRecord([Number(inv.shape)] + receiver + methodName + aux);
  }

  /** The whole descriptor. */
  method BuildDescriptor(data: Section, spec: Spec) returns (name: string)
    requires data.InStep()
    modifies data
    ensures data.InStep() && (data.View(), name) == StaticDescriptor(old(data.View()), spec)
  {
    hide OptionalString, AddWords, SignatureRecord, EnvironmentRecord, InvocationRecord;
    var nameWords := OptionalStringWord(data, spec.phpName);
    var signature, environment := None, None;
    if spec.sig.Some? {
      var record := BuildSignature(data, spec.sig.value);
      signature := Some(record);
    }
    if spec.captures != [] || spec.hidden != [] {
      var record := BuildEnvironment(data, spec.captures, spec.hidden);
      environment := Some(record);
    }
    var invocation := BuildInvocation(data, spec.invocation);
    name := data.AddWordRecord([Number(spec.kind), Symbol(spec.entry)] + nameWords
                               + [OptionalSymbol(signature), OptionalSymbol(environment), Symbol(invocation),
                                 OptionalSymbol(spec.invoker)]);
  }
}
