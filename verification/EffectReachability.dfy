/** The effect fixed point on a plain call graph. */
module EffectReachability {
  import opened Effects

  datatype Kind = Function | StaticMethod | PrivateMethod

  datatype Key = Key(kind: Kind, name: string)

  /** A body that has an effect of its own and calls other callables. */
  datatype Node = Node(local: Effect, calls: seq<Key>, declaredNever: bool)

  datatype Graph = Graph(functions: map<string, Node>, staticMethods: map<string, Node>,
    privateMethods: map<string, Node>)

  function NodesOf(g: Graph, kind: Kind): map<string, Node> {
    match kind
    case Function => g.functions
    case StaticMethod => g.staticMethods
    case PrivateMethod => g.privateMethods
  }

  function EffectsOf(env: Env, kind: Kind): EffectMap {
    match kind
    case Function => env.functions
    case StaticMethod => env.staticMethods
    case PrivateMethod => env.privateMethods
  }

  predicate Has(g: Graph, k: Key) {
    k.name in NodesOf(g, k.kind)
  }

  function NodeAt(g: Graph, k: Key): Node
    requires Has(g, k)
  {
    NodesOf(g, k.kind)[k.name]
  }

  /** Callables outside the maps add nothing; their effect is part of the local one. */
  function Lookup(env: Env, k: Key): Effect {
    if k.name in EffectsOf(env, k.kind) then EffectsOf(env, k.kind)[k.name] else PURE
  }

  function CallsEffect(calls: seq<Key>, env: Env): Effect {
    if calls == [] then PURE else Lookup(env, calls[0]).Combine(CallsEffect(calls[1..], env))
  }

  function BodyEffect(node: Node, env: Env): Effect {
    node.local.Combine(CallsEffect(node.calls, env))
  }

  function CallableOf(node: Node): Callable {
    Callable(env => BodyEffect(node, env), node.declaredNever)
  }

  function BodiesOf(nodes: map<string, Node>): Bodies {
    map name | name in nodes :: CallableOf(nodes[name])
  }

  function ProgramOf(g: Graph): Program {
    Program(BodiesOf(g.functions), BodiesOf(g.staticMethods), BodiesOf(g.privateMethods))
  }

  // ----- one of the two flags -----

  predicate Flag(e: Effect, throwing: bool) {
    if throwing then e.mayThrow else e.hasSideEffects
  }

  predicate OwnFlag(node: Node, throwing: bool) {
    if throwing then node.local.mayThrow else node.local.hasSideEffects || node.declaredNever
  }

  lemma {:induction false} CallsFlag(calls: seq<Key>, env: Env, throwing: bool)
    ensures Flag(CallsEffect(calls, env), throwing) <==> exists c :: c in calls && Flag(Lookup(env, c), throwing)
  {
    if calls != [] {
      CallsFlag(calls[1..], env, throwing);
      assert calls == [calls[0]] + calls[1..];
    }
  }

  /** One step of the analysis, flag by flag. */
  lemma RefinedFlag(node: Node, env: Env, throwing: bool)
    ensures Flag(Refined(CallableOf(node), env), throwing) <==>
              OwnFlag(node, throwing) || exists c :: c in node.calls && Flag(Lookup(env, c), throwing)
  {
    CallsFlag(node.calls, env, throwing);
  }

  lemma {:induction false} CallsMonotone(calls: seq<Key>, a: Env, b: Env)
    requires EnvLeq(a, b)
    ensures CallsEffect(calls, a).Leq(CallsEffect(calls, b))
  {
    if calls != [] {
      CallsMonotone(calls[1..], a, b);
    }
  }

  lemma GraphIsMonotone(g: Graph)
    ensures Monotone(ProgramOf(g))
  {
    NodesAreMonotone(g.functions);
    NodesAreMonotone(g.staticMethods);
    NodesAreMonotone(g.privateMethods);
  }

  lemma NodesAreMonotone(nodes: map<string, Node>)
    ensures MonotoneBodies(BodiesOf(nodes))
  {
    forall name, a, b | name in nodes && EnvLeq(a, b)
      ensures BodyEffect(nodes[name], a).Leq(BodyEffect(nodes[name], b))
    {
      CallsMonotone(nodes[name].calls, a, b);
    }
  }

  // ----- reachability -----

  ghost predicate Reaches(g: Graph, from: Key, steps: nat, to: Key)
    decreases steps
  {
    && Has(g, from)
    && if steps == 0 then from == to
       else exists c :: c in NodeAt(g, from).calls && Reaches(g, c, steps - 1, to)
  }

  /** Some callable with the flag of its own is reachable. */
  ghost predicate Affected(g: Graph, k: Key, throwing: bool) {
    exists steps: nat, to :: Reaches(g, k, steps, to) && Has(g, to) && OwnFlag(NodeAt(g, to), throwing)
  }

  lemma AffectedByCall(g: Graph, k: Key, c: Key, throwing: bool)
    requires Has(g, k) && c in NodeAt(g, k).calls && Affected(g, c, throwing)
    ensures Affected(g, k, throwing)
  {
    var steps: nat, to :| Reaches(g, c, steps, to) && Has(g, to) && OwnFlag(NodeAt(g, to), throwing);
    assert Reaches(g, k, steps + 1, to);
  }

  lemma AffectedByItself(g: Graph, k: Key, throwing: bool)
    requires Has(g, k) && OwnFlag(NodeAt(g, k), throwing)
    ensures Affected(g, k, throwing)
  {
    assert Reaches(g, k, 0, k);
  }

  ghost function ReachableEffects(g: Graph, kind: Kind): EffectMap {
    map name | name in NodesOf(g, kind) ::
      Effect(Affected(g, Key(kind, name), false), Affected(g, Key(kind, name), true))
  }

  ghost function ReachableEnv(g: Graph): Env {
    Env(ReachableEffects(g, Function), ReachableEffects(g, StaticMethod), ReachableEffects(g, PrivateMethod))
  }

  lemma ReachableEnvFlag(g: Graph, k: Key, throwing: bool)
    requires Flag(Lookup(ReachableEnv(g), k), throwing)
    ensures Affected(g, k, throwing)
  {
  }

  lemma ReachableIsSolution(g: Graph, kind: Kind)
    ensures MapLeq(RefinedMap(BodiesOf(NodesOf(g, kind)), ReachableEnv(g)), ReachableEffects(g, kind))
  {
    var env := ReachableEnv(g);
    forall name, throwing | name in NodesOf(g, kind) && Flag(Refined(CallableOf(NodesOf(g, kind)[name]), env), throwing)
      ensures Affected(g, Key(kind, name), throwing)
    {
      var k := Key(kind, name);
      var node := NodeAt(g, k);
      RefinedFlag(node, env, throwing);
      if OwnFlag(node, throwing) {
        AffectedByItself(g, k, throwing);
      } else {
        var c :| c in node.calls && Flag(Lookup(env, c), throwing);
        ReachableEnvFlag(g, c, throwing);
        AffectedByCall(g, k, c, throwing);
      }
    }
    var refined := RefinedMap(BodiesOf(NodesOf(g, kind)), env);
    forall name | name in refined ensures refined[name].Leq(ReachableEffects(g, kind)[name]) {
      var effect := Refined(CallableOf(NodesOf(g, kind)[name]), env);
      assert Flag(effect, true) ==> Affected(g, Key(kind, name), true);
      assert Flag(effect, false) ==> Affected(g, Key(kind, name), false);
    }
  }

  lemma {:induction false} ReachedIsFlagged(g: Graph, env: Env, from: Key, steps: nat, to: Key, throwing: bool)
    requires Covers(env, ProgramOf(g)) && Round(ProgramOf(g), env) == env
    requires Reaches(g, from, steps, to) && Has(g, to) && OwnFlag(NodeAt(g, to), throwing)
    ensures Flag(Lookup(env, from), throwing)
    decreases steps
  {
    var node := NodeAt(g, from);
    assert Lookup(Round(ProgramOf(g), env), from) == Refined(CallableOf(node), env);
    RefinedFlag(node, env, throwing);
    if steps > 0 {
      var c :| c in node.calls && Reaches(g, c, steps - 1, to);
      ReachedIsFlagged(g, env, c, steps - 1, to, throwing);
    }
  }

  lemma LeastIsReachable(g: Graph, env: Env)
    requires LeastSolution(ProgramOf(g), env)
    ensures EnvLeq(env, ReachableEnv(g))
  {
    ReachableIsSolution(g, Function);
    ReachableIsSolution(g, StaticMethod);
    ReachableIsSolution(g, PrivateMethod);
    assert Solution(ProgramOf(g), ReachableEnv(g));
  }

  /** The loop marks a callable as throwing (side-effecting) precisely when a callable
      that throws (has side effects, or is declared `never`) by itself is reachable. */
  lemma FixedPointIsReachability(g: Graph, env: Env, k: Key, throwing: bool)
    requires LeastSolution(ProgramOf(g), env) && Has(g, k)
    ensures Flag(Lookup(env, k), throwing) <==> Affected(g, k, throwing)
  {
    if Affected(g, k, throwing) {
      var steps: nat, to :| Reaches(g, k, steps, to) && Has(g, to) && OwnFlag(NodeAt(g, to), throwing);
      ReachedIsFlagged(g, env, k, steps, to, throwing);
    }
    if Flag(Lookup(env, k), throwing) {
      LeastIsReachable(g, env);
      ReachableEnvFlag(g, k, throwing);
    }
  }
}
