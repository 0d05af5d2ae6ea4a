/** The interprocedural effect fixed point of src/optimize.rs. */
module Effects {
  import opened Prelude

  datatype Effect = Effect(hasSideEffects: bool, mayThrow: bool) {
    function WithSideEffects(): Effect { this.(hasSideEffects := true) }

    function Combine(other: Effect): Effect {
      Effect(hasSideEffects || other.hasSideEffects, mayThrow || other.mayThrow)
    }

    predicate Leq(other: Effect) {
      (hasSideEffects ==> other.hasSideEffects) && (mayThrow ==> other.mayThrow)
    }
  }

  const PURE := Effect(false, false)

  type EffectMap = map<string, Effect>

  /** The effects of functions, static methods and private instance methods. */
  datatype Env = Env(functions: EffectMap, staticMethods: EffectMap, privateMethods: EffectMap)

  /** A callable: what its body does under given effects of the callables, with its
      class context already applied, and whether it is declared `never`. */
  datatype Callable = Callable(bodyEffect: Env -> Effect, declaredNever: bool)

  type Bodies = map<string, Callable>

  datatype Program = Program(functions: Bodies, staticMethods: Bodies, privateMethods: Bodies) {
    function Size(): nat { |functions| + |staticMethods| + |privateMethods| }
  }

  function NeverDeclaredEffect(declaredNever: bool, effect: Effect): Effect {
    if declaredNever then effect.WithSideEffects() else effect
  }

  function Refined(callable: Callable, env: Env): Effect {
    NeverDeclaredEffect(callable.declaredNever, callable.bodyEffect(env))
  }

  function RefinedMap(bodies: Bodies, env: Env): EffectMap {
    map name | name in bodies :: Refined(bodies[name], env)
  }

  /** One round: every callable is looked at under the same snapshot. */
  function Round(prog: Program, env: Env): Env {
    Env(RefinedMap(prog.functions, env), RefinedMap(prog.staticMethods, env), RefinedMap(prog.privateMethods, env))
  }

  function PureMap(bodies: Bodies): EffectMap {
    map name | name in bodies :: PURE
  }

  function PureEnv(prog: Program): Env {
    Env(PureMap(prog.functions), PureMap(prog.staticMethods), PureMap(prog.privateMethods))
  }

  // ----- the order on environments -----

  ghost predicate MapLeq(a: EffectMap, b: EffectMap) {
    a.Keys == b.Keys && forall name :: name in a ==> a[name].Leq(b[name])
  }

  ghost predicate EnvLeq(a: Env, b: Env) {
    MapLeq(a.functions, b.functions) && MapLeq(a.staticMethods, b.staticMethods)
      && MapLeq(a.privateMethods, b.privateMethods)
  }

  /** An environment for exactly the callables of the program. */
  ghost predicate Covers(env: Env, prog: Program) {
    && env.functions.Keys == prog.functions.Keys
    && env.staticMethods.Keys == prog.staticMethods.Keys
    && env.privateMethods.Keys == prog.privateMethods.Keys
  }

  ghost predicate MonotoneBodies(bodies: Bodies) {
    forall name, a, b :: name in bodies && EnvLeq(a, b) ==> bodies[name].bodyEffect(a).Leq(bodies[name].bodyEffect(b))
  }

  ghost predicate Monotone(prog: Program) {
    MonotoneBodies(prog.functions) && MonotoneBodies(prog.staticMethods) && MonotoneBodies(prog.privateMethods)
  }

  /** A solution may claim more than the bodies show, but never less. */
  ghost predicate Solution(prog: Program, env: Env) {
    Covers(env, prog) && EnvLeq(Round(prog, env), env)
  }

  ghost predicate LeastSolution(prog: Program, env: Env) {
    && Covers(env, prog)
    && Round(prog, env) == env
    && forall other :: Solution(prog, other) ==> EnvLeq(env, other)
  }

  lemma RoundMonotone(prog: Program, a: Env, b: Env)
    requires Monotone(prog) && EnvLeq(a, b)
    ensures EnvLeq(Round(prog, a), Round(prog, b))
  {
    RefinedMonotone(prog.functions, a, b);
    RefinedMonotone(prog.staticMethods, a, b);
    RefinedMonotone(prog.privateMethods, a, b);
  }

  lemma RefinedMonotone(bodies: Bodies, a: Env, b: Env)
    requires MonotoneBodies(bodies) && EnvLeq(a, b)
    ensures MapLeq(RefinedMap(bodies, a), RefinedMap(bodies, b))
  {
    forall name | name in bodies ensures Refined(bodies[name], a).Leq(Refined(bodies[name], b)) {
      assert bodies[name].bodyEffect(a).Leq(bodies[name].bodyEffect(b));
    }
  }

  // ----- progress -----

  function SideEffecting(m: EffectMap): set<string> {
    set name | name in m && m[name].hasSideEffects
  }

  function Throwing(m: EffectMap): set<string> {
    set name | name in m && m[name].mayThrow
  }

  function MarksIn(m: EffectMap): nat {
    |SideEffecting(m)| + |Throwing(m)|
  }

  /** How many flags are set. */
  function Marks(env: Env): nat {
    MarksIn(env.functions) + MarksIn(env.staticMethods) + MarksIn(env.privateMethods)
  }

  lemma MarksInMonotone(a: EffectMap, b: EffectMap)
    requires MapLeq(a, b)
    ensures MarksIn(a) <= MarksIn(b) <= 2 * |b|
    ensures MarksIn(a) == MarksIn(b) ==> a == b
  {
    SubsetSize(SideEffecting(a), SideEffecting(b));
    SubsetSize(Throwing(a), Throwing(b));
    SubsetSize(SideEffecting(b), b.Keys);
    SubsetSize(Throwing(b), b.Keys);
    if MarksIn(a) == MarksIn(b) {
      forall name | name in a ensures a[name] == b[name] {
        assert name in SideEffecting(a) <==> name in SideEffecting(b);
        assert name in Throwing(a) <==> name in Throwing(b);
      }
    }
  }

  lemma MarksMonotone(prog: Program, a: Env, b: Env)
    requires EnvLeq(a, b) && Covers(b, prog)
    ensures Marks(a) <= Marks(b) <= 2 * prog.Size()
    ensures a != b ==> Marks(a) < Marks(b)
  {
    MarksInMonotone(a.functions, b.functions);
    MarksInMonotone(a.staticMethods, b.staticMethods);
    MarksInMonotone(a.privateMethods, b.privateMethods);
    assert |b.functions| == |b.functions.Keys| && |prog.functions| == |prog.functions.Keys|;
    assert |b.staticMethods| == |b.staticMethods.Keys| && |prog.staticMethods| == |prog.staticMethods.Keys|;
    assert |b.privateMethods| == |b.privateMethods.Keys| && |prog.privateMethods| == |prog.privateMethods.Keys|;
  }

  // ----- the thread-local slots and the loop -----

  /** The slots that `block_effect` consults while a round is running. */
  class ActiveEffects {
    var functionSlot: Option<EffectMap>
    var staticSlot: Option<EffectMap>
    var instanceSlot: Option<EffectMap>

    constructor ()
      ensures functionSlot == None && staticSlot == None && instanceSlot == None
    {
      functionSlot, staticSlot, instanceSlot := None, None, None;
    }

    /** The environment a body sees; an empty slot knows no callable. */
    function Installed(): Env
      reads this
    {
      Env(if functionSlot.None? then map[] else functionSlot.value,
          if staticSlot.None? then map[] else staticSlot.value,
          if instanceSlot.None? then map[] else instanceSlot.value)
    }

    /** One of the three loops of a round. The order in which the map is walked
        does not matter, because bodies only see the slots. */
    method RefineAll(bodies: Bodies, effects: EffectMap) returns (refined: EffectMap, changed: bool)
      requires effects.Keys == bodies.Keys
      ensures refined == RefinedMap(bodies, Installed())
      ensures changed <==> refined != effects
    {
      refined, changed := effects, false;
      var pending := bodies.Keys;
      while pending != {}
        invariant pending <= bodies.Keys && refined.Keys == bodies.Keys
        invariant forall name :: name in bodies ==>
                    refined[name] == if name in pending then effects[name] else Refined(bodies[name], Installed())
        invariant changed <==> exists name ::
                  name in bodies && name !in pending && Refined(bodies[name], Installed()) != effects[name]
        decreases pending
      {
        var name :| name in pending;
        var effect := NeverDeclaredEffect(bodies[name].declaredNever, bodies[name].bodyEffect(Installed()));
        if refined[name] != effect {
          refined := refined[name := effect];
          changed := true;
        }
        pending := pending - {name};
      }
    }

    /** The body of the loop: install the snapshots, refine, restore the slots. */
    method RunRound(prog: Program, env: Env) returns (next: Env, changed: bool)
      requires Covers(env, prog)
      modifies this
      ensures next == Round(prog, env)
      ensures changed <==> next != env
      ensures functionSlot == old(functionSlot) && staticSlot == old(staticSlot) && instanceSlot == old(instanceSlot)
    {
      var previousFunctions, previousStatic, previousInstance := functionSlot, staticSlot, instanceSlot;
      functionSlot, staticSlot, instanceSlot := Some(env.functions), Some(env.staticMethods), Some(env.privateMethods);
      assert Installed() == env;
      var functions, functionsChanged := RefineAll(prog.functions, env.functions);
      var staticMethods, staticChanged := RefineAll(prog.staticMethods, env.staticMethods);
      var privateMethods, privateChanged := RefineAll(prog.privateMethods, env.privateMethods);
      next := Env(functions, staticMethods, privateMethods);
      changed := functionsChanged || staticChanged || privateChanged;
      instanceSlot, staticSlot, functionSlot := previousInstance, previousStatic, previousFunctions;
    }

    method ComputeProgramCallableEffects(prog: Program) returns (env: Env, ghost rounds: nat)
      requires Monotone(prog)
      modifies this
      ensures LeastSolution(prog, env)
      ensures rounds <= 2 * prog.Size() + 1
      ensures functionSlot == old(functionSlot) && staticSlot == old(staticSlot) && instanceSlot == old(instanceSlot)
    {
      env := PureEnv(prog);
      PureApproaches(prog);
      rounds := 0;
      var changed := true;
      while changed
        invariant Approaching(prog, env)
        invariant functionSlot == old(functionSlot) && staticSlot == old(staticSlot)
                  && instanceSlot == old(instanceSlot)
        invariant Marks(env) <= 2 * prog.Size()
        invariant if changed then rounds <= Marks(env) else rounds <= Marks(env) + 1 && Round(prog, env) == env
        decreases changed, 2 * prog.Size() - Marks(env)
      {
        RoundApproaches(prog, env);
        env, changed := RunRound(prog, env);
        rounds := rounds + 1;
      }
    }
  }

  /** Below every solution, and rising. */
  ghost predicate Approaching(prog: Program, env: Env) {
    && Covers(env, prog)
    && EnvLeq(env, Round(prog, env))
    && forall other :: Solution(prog, other) ==> EnvLeq(env, other)
  }

  lemma PureApproaches(prog: Program)
    ensures Approaching(prog, PureEnv(prog)) && Marks(PureEnv(prog)) == 0
  {
    var env := PureEnv(prog);
    assert SideEffecting(env.functions) == SideEffecting(env.staticMethods) == SideEffecting(env.privateMethods) == {};
    assert Throwing(env.functions) == Throwing(env.staticMethods) == Throwing(env.privateMethods) == {};
  }

  lemma RoundApproaches(prog: Program, env: Env)
    requires Monotone(prog) && Approaching(prog, env)
    ensures Approaching(prog, Round(prog, env))
    ensures Marks(env) <= Marks(Round(prog, env)) <= 2 * prog.Size()
    ensures Round(prog, env) != env ==> Marks(env) < Marks(Round(prog, env))
  {
    RoundMonotone(prog, env, Round(prog, env));
    RoundBelowSolutions(prog, env);
    MarksMonotone(prog, env, Round(prog, env));
  }

  lemma RoundBelowSolutions(prog: Program, env: Env)
    requires Monotone(prog)
    requires forall other :: Solution(prog, other) ==> EnvLeq(env, other)
    ensures forall other :: Solution(prog, other) ==> EnvLeq(Round(prog, env), other)
  {
    forall other | Solution(prog, other) ensures EnvLeq(Round(prog, env), other) {
      RoundMonotone(prog, env, other);
      EnvLeqTransitive(Round(prog, env), Round(prog, other), other);
    }
  }

  lemma EnvLeqTransitive(a: Env, b: Env, c: Env)
    requires EnvLeq(a, b) && EnvLeq(b, c)
    ensures EnvLeq(a, c)
  {
  }
}
