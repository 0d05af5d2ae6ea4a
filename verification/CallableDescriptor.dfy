/** The serialised callable descriptors of src/codegen/callable_descriptor.rs,
    written into a constant pool. */
module CallableDescriptor {
  import opened Prelude
  import opened DataSection
  import opened Utf8

  const WORD: int := 0x1_0000_0000_0000_0000

  /** Lengths of vectors and strings fit a machine word; a string literal is kept as a
      Unicode string with markers for single bytes. */
  type Bytes = s: seq<Byte> | |s| < WORD witness []
  type Literal = s: string | |EncodeAll(s)| < WORD witness []
  type Vec<T> = s: seq<T> | |s| < WORD witness []

  // ----- what is described -----

  /** What the records keep of a type: the tag of its representation, its stack size
      and its register count. */
  datatype PhpType = PhpType(tag: U64, stackSize: U64, registers: U64)

  datatype Param = Param(name: Bytes, ty: PhpType)

  /** A captured variable or a hidden wrapper parameter. */
  datatype Binding = Binding(name: Bytes, tag: U64, byRef: bool)

  datatype DefaultExpr =
    | IntLit(n: int) | FloatLit(bits: U64) | StringLit(s: Literal) | BoolLit(b: bool) | NullLit | EmptyArrayLit
    | Negate(inner: DefaultExpr) | ComplexExpr

  datatype FunctionSig = FunctionSig(
    params: Vec<Param>,
    defaults: seq<Option<DefaultExpr>>,
    returnType: PhpType,
    declaredReturn: bool,
    refParams: seq<bool>,
    declaredParams: seq<bool>,
    variadic: Option<Bytes>)

  datatype Invocation = Invocation(shape: U64, receiver: Option<Bytes>, methodName: Option<Bytes>, aux: Option<Bytes>)

  datatype Spec = Spec(
    entry: string,
    phpName: Option<Bytes>,
    kind: U64,
    sig: Option<FunctionSig>,
    captures: Vec<Binding>,
    hidden: Vec<Binding>,
    invocation: Invocation,
    invoker: Option<string>)

  const VARIADIC_NONE: U64 := 0xffff_ffff_ffff_ffff

  // ----- writing -----

  function Flag(b: bool): DataWord {
    Number(if b then 1 else 0)
  }

  function OptionalSymbol(name: Option<string>): DataWord {
    match name
    case Some(s) => Symbol(s)
    case None => Number(0)
  }

  /** A string reference takes two words: its label and its length. */
  function OptionalString(pool: Pool, value: Option<Bytes>): (Pool, seq<DataWord>) {
    match value
    case Some(s) =>
      var (p, name) := AddString(pool, s);
      (p, [Symbol(name), Number(|s|)])
    case None => (pool, [Number(0), Number(0)])
  }

  function NameWords(pool: Pool, params: seq<Param>): (Pool, seq<DataWord>)
    decreases |params|
  {
    if params == [] then (pool, []) else
      var (p, first) := OptionalString(pool, Some(params[0].name));
      var (q, rest) := NameWords(p, params[1..]);
      (q, first + rest)
  }

  function TypeWords(params: seq<Param>): seq<DataWord> {
    if params == [] then [] else
      [Number(params[0].ty.tag), Number(params[0].ty.stackSize), Number(params[0].ty.registers)]
        + TypeWords(params[1..])
  }

  function BindingWords(pool: Pool, bindings: seq<Binding>): (Pool, seq<DataWord>)
    decreases |bindings|
  {
    if bindings == [] then (pool, []) else
      var (p, first) := OptionalString(pool, Some(bindings[0].name));
      var (q, rest) := BindingWords(p, bindings[1..]);
      (q, first + [Number(bindings[0].tag), Flag(bindings[0].byRef)] + rest)
  }

  function FlagWords(flags: seq<bool>): seq<DataWord> {
    if flags == [] then [] else [Flag(flags[0])] + FlagWords(flags[1..])
  }

  /** An empty table is no table. */
  function Table(pool: Pool, words: seq<DataWord>): (Pool, Option<string>) {
    if words == [] then (pool, None) else
      var (p, name) := AddWords(pool, words);
      (p, Some(name))
  }

  // ----- default values -----

  datatype DefaultValue = NoDefault | IntValue(n: int) | FloatValue(bits: U64) | StringValue(s: Bytes)
    | BoolValue(b: bool) | NullValue | EmptyArray | Complex

  /** Sixty-four bit two's complement. */
  function Wrap(n: int): U64 { n % WORD }

  function Signed(w: U64): int { if w < 0x8000_0000_0000_0000 then w else w - WORD }

  function FlipSign(bits: U64): U64 {
    if bits < 0x8000_0000_0000_0000 then bits + 0x8000_0000_0000_0000 else bits - 0x8000_0000_0000_0000
  }

  /** The value a default is taken to have; only numbers are negated, and a string is the
      UTF-8 of its literal, markers and all. */
  function Encoded(e: DefaultExpr): DefaultValue {
    match e
    case IntLit(n) => IntValue(n)
    case FloatLit(bits) => FloatValue(bits)
    case StringLit(s) => StringValue(EncodeAll(s))
    case BoolLit(b) => BoolValue(b)
    case NullLit => NullValue
    case EmptyArrayLit => EmptyArray
    case Negate(IntLit(n)) => IntValue(Signed(Wrap(-n)))
    case Negate(FloatLit(bits)) => FloatValue(FlipSign(bits))
    case Negate(inner) => Encoded(inner)
    case ComplexExpr => Complex
  }

  function EncodedOption(e: Option<DefaultExpr>): DefaultValue {
    match e
    case None => NoDefault
    case Some(d) => Encoded(d)
  }

  /** Kind, low word and high word. */
  function DefaultWords(pool: Pool, v: DefaultValue): (Pool, seq<DataWord>) {
    match v
    case NoDefault => (pool, [Number(0), Number(0), Number(0)])
    case IntValue(n) => (pool, [Number(1), Number(Wrap(n)), Number(0)])
    case StringValue(s) =>
      var (p, name) := AddString(pool, s);
      (p, [Number(2), Symbol(name), Number(|s|)])
    case FloatValue(bits) => (pool, [Number(3), Number(bits), Number(0)])
    case BoolValue(b) => (pool, [Number(4), Flag(b), Number(0)])
    case NullValue => (pool, [Number(5), Number(0), Number(0)])
    case EmptyArray => (pool, [Number(6), Number(0), Number(0)])
    case Complex => (pool, [Number(255), Number(0), Number(0)])
  }

  function DefaultsWords(pool: Pool, defaults: seq<Option<DefaultExpr>>): (Pool, seq<DataWord>)
    decreases |defaults|
  {
    if defaults == [] then (pool, []) else
      var (p, first) := DefaultWords(pool, EncodedOption(defaults[0]));
      var (q, rest) := DefaultsWords(p, defaults[1..]);
      (q, first + rest)
  }

  // ----- records -----

  function RegularCount(sig: FunctionSig): nat {
    if sig.variadic.Some? && sig.params != [] then |sig.params| - 1 else |sig.params|
  }

  predicate Defaulted(sig: FunctionSig, i: nat) {
    i < |sig.defaults| && sig.defaults[i].Some?
  }

  /** One past the last of the first `n` parameters that has no default. */
  function RequiredAmong(sig: FunctionSig, n: nat): (r: nat)
    ensures r <= n
    ensures forall i :: r <= i < n ==> Defaulted(sig, i)
    ensures r > 0 ==> !Defaulted(sig, r - 1)
  {
    if n == 0 then 0 else if !Defaulted(sig, n - 1) then n else RequiredAmong(sig, n - 1)
  }

  function RequiredCount(sig: FunctionSig): nat {
    RequiredAmong(sig, RegularCount(sig))
  }

  function PositionOf(params: seq<Param>, name: Bytes): (i: Option<nat>)
    ensures i.None? <==> forall p :: p in params ==> p.name != name
    ensures i.Some? ==> i.value < |params| && params[i.value].name == name
    ensures i.Some? ==> forall j :: 0 <= j < i.value ==> params[j].name != name
  {
    if params == [] then None
    else if params[0].name == name then Some(0)
    else
      match PositionOf(params[1..], name)
      case None => None
      case Some(i) => Some(i + 1)
  }

  function VariadicIndex(sig: FunctionSig): U64 {
    match sig.variadic
    case None => VARIADIC_NONE
    case Some(name) =>
      match PositionOf(sig.params, name)
      case None => VARIADIC_NONE
      case Some(i) => i
  }

  function SignatureRecord(pool: Pool, sig: FunctionSig): (Pool, string) {
    var (p1, names) := NameWords(pool, sig.params);
    var (p2, nameTable) := Table(p1, names);
    var (p3, typeTable) := Table(p2, TypeWords(sig.params));
    var (p4, defaults) := DefaultsWords(p3, sig.defaults);
    var (p5, defaultTable) := Table(p4, defaults);
    var (p6, refTable) := Table(p5, FlagWords(sig.refParams));
    var (p7, declaredTable) := Table(p6, FlagWords(sig.declaredParams));
    AddWords(p7, SignatureWords(sig, [nameTable, typeTable, defaultTable, refTable, declaredTable]))
  }

  function SignatureWords(sig: FunctionSig, tables: seq<Option<string>>): seq<DataWord>
    requires |tables| == 5
  {
    [Number(|sig.params|), Number(RequiredCount(sig)), Number(RegularCount(sig)), Number(VariadicIndex(sig)),
     Number(sig.returnType.tag), Number(sig.returnType.registers), Flag(sig.declaredReturn),
     OptionalSymbol(tables[0]), OptionalSymbol(tables[1]), OptionalSymbol(tables[2]),
     OptionalSymbol(tables[3]), OptionalSymbol(tables[4])]
  }

  function EnvironmentRecord(pool: Pool, captures: Vec<Binding>, hidden: Vec<Binding>): (Pool, string) {
    var (p1, captureWords) := BindingWords(pool, captures);
    var (p2, captureTable) := Table(p1, captureWords);
    var (p3, hiddenWords) := BindingWords(p2, hidden);
    var (p4, hiddenTable) := Table(p3, hiddenWords);
    AddWords(p4, [Number(|captures|), Number(|hidden|), OptionalSymbol(captureTable), OptionalSymbol(hiddenTable)])
  }

  function InvocationRecord(pool: Pool, inv: Invocation): (Pool, string) {
    var (p1, receiver) := OptionalString(pool, inv.receiver);
    var (p2, methodName) := OptionalString(p1, inv.methodName);
    var (p3, aux) := OptionalString(p2, inv.aux);
    AddWords(p3, [Number(inv.shape)] + receiver + methodName + aux)
  }

  function OptionalSignature(pool: Pool, sig: Option<FunctionSig>): (Pool, Option<string>) {
    match sig
    case None => (pool, None)
    case Some(s) => var (p, name) := SignatureRecord(pool, s); (p, Some(name))
  }

  function OptionalEnvironment(pool: Pool, captures: Vec<Binding>, hidden: Vec<Binding>): (Pool, Option<string>) {
    if captures == [] && hidden == [] then (pool, None)
    else var (p, name) := EnvironmentRecord(pool, captures, hidden); (p, Some(name))
  }

  function StaticDescriptor(pool: Pool, spec: Spec): (Pool, string) {
    var (p1, nameWords) := OptionalString(pool, spec.phpName);
    var (p2, signature) := OptionalSignature(p1, spec.sig);
    var (p3, environment) := OptionalEnvironment(p2, spec.captures, spec.hidden);
    var (p4, invocation) := InvocationRecord(p3, spec.invocation);
    AddWords(p4, [Number(spec.kind), Symbol(spec.entry)] + nameWords
                 + [OptionalSymbol(signature), OptionalSymbol(environment), Symbol(invocation),
                   OptionalSymbol(spec.invoker)])
  }
}
