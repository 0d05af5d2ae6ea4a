/** The collected chain, which compares rules, against PHP's queue of callables. */
module RegistrationPhp {
  import opened Prelude
  import opened Ast
  import opened Names
  import opened Interpret
  import opened Registration
  import opened RegistrationRun
  import opened RegistrationText
  import opened RegistrationQueue
  import opened RegistrationNames
  import opened RegistrationIdentity

  // ----- the chain against the callables -----

  /** The rule that a registration adds: nothing for a callable that is registered already. */
  function NewRule(program: Block, i: nat, computed: Computed, identify: Identify): Option<Rule>
    requires i < |program| && IsCall(program[i])
  {
    match EntryAt(program, i, computed, identify)
    case None => None
    case Some(entry) => if Known(program, i, entry.id, computed, identify) then None else Some(entry.rule)
  }

  predicate KnownAt(program: Block, i: nat, computed: Computed, identify: Identify)
    requires i < |program| && IsCall(program[i])
  {
    var entry := EntryAt(program, i, computed, identify);
    entry.Some? && Known(program, i, entry.value.id, computed, identify)
  }

    /** From the first rule equal to r up to the j-th all rules are r. */
  predicate AllFromFirst(chain: seq<Rule>, r: Rule, j: nat) {
    var first := Position(chain, r);
    first.Some? && first.value <= j < |chain| && forall k :: first.value <= k <= j ==> chain[k] == r
  }

  /** A call that added a callable which is registered after n statements. */
  predicate Standing(program: Block, n: nat, a: int, computed: Computed, identify: Identify)
    requires n <= |program|
  {
    && 0 <= a < n && IsCall(program[a]) && EntryAt(program, a, computed, identify).Some?
    && AddedAt(program, n, EntryAt(program, a, computed, identify).value.id, computed, identify) == Some(a)
  }

  /** The callable has the rule r, and none with another rule stands between the first with
      the rule r and itself. */
  ghost predicate NoneBetween(program: Block, n: nat, own: nat, r: Rule, computed: Computed, identify: Identify)
    requires n <= |program| && own < n && IsCall(program[own])
  {
    && Meant(program, own, computed) == Some(r)
    && forall a, b :: Standing(program, n, a, computed, identify) && Standing(program, n, b, computed, identify)
                      && Meant(program, a, computed) == Some(r) && Meant(program, b, computed) != Some(r)
                      && Ahead(program, a, b) ==>
         !Ahead(program, b, own)
  }

  /** The collection does to its chain what PHP does to its callables: a known callable is not
      added again, and the first equal rule stands for the callable that is removed. */
  ghost predicate TakenAsPhp(program: Block, i: nat, computed: Computed, identify: Identify)
    requires i < |program|
  {
    var chain := CollectedTo(program, i).chain;
    && (Registers(program, i) ==>
          && Heard(program, i) == NewRule(program, i, computed, identify)
          && (|| Heard(program, i).None?
              || ReadsPrepend(program[i]) == Prepends(program[i])
              || forall r :: r in chain ==> r == Heard(program, i).value))
    && (Unregisters(program, i) ==> RemovesAsPhp(program, i, computed, identify))
  }

  /** Nothing is removed on either side, or the callable and an equal rule are removed, between
      which no other rule stands. */
  ghost predicate RemovesAsPhp(program: Block, i: nat, computed: Computed, identify: Identify)
    requires i < |program| && IsCall(program[i])
  {
    if Absent(Heard(program, i), CollectedTo(program, i).chain) then !KnownAt(program, i, computed, identify)
    else
      && KnownAt(program, i, computed, identify)
      && var own := AddedAt(program, i, EntryAt(program, i, computed, identify).value.id, computed, identify);
         own.Some? && NoneBetween(program, i, own.value, Heard(program, i).value, computed, identify)
  }

  // ----- order and position -----

  lemma PlaceStands(program: Block, n: nat, p: nat, computed: Computed, identify: Identify) returns (a: nat)
    requires n <= |program| && p < |CallablesAt(program, n, computed, identify)|
    ensures var e := CallablesAt(program, n, computed, identify)[p];
            && AddedAt(program, n, e.id, computed, identify) == Some(a) && Standing(program, n, a, computed, identify)
            && Meant(program, a, computed) == Some(e.rule)
  {
    QueueIsOrdered(program, n, computed, identify);
    var e := CallablesAt(program, n, computed, identify)[p];
    assert PlacedAt(program, n, e, computed, identify);
    a := AddedAt(program, n, e.id, computed, identify).value;
    hide CallablesAt, AddedAt, Meant, IdentityAt, CalleeAt;
  }

  lemma StandingHasPlace(program: Block, n: nat, a: nat, computed: Computed, identify: Identify) returns (p: nat)
    requires n <= |program| && Standing(program, n, a, computed, identify)
    ensures var queue := CallablesAt(program, n, computed, identify);
            && p < |queue| && AddedAt(program, n, queue[p].id, computed, identify) == Some(a)
            && Meant(program, a, computed) == Some(queue[p].rule)
  {
    var id := EntryAt(program, a, computed, identify).value.id;
    AddedIsKnown(program, n, id, computed, identify);
    KnownExact(program, n, id, computed, identify);
    p := IndexOf(CallablesAt(program, n, computed, identify), id).value;
    hide CallablesAt, AddedAt, Known, IndexOf;
    var b := PlaceStands(program, n, p, computed, identify);
  }

  lemma AheadExact(program: Block, n: nat, p: nat, q: nat, a: nat, b: nat, computed: Computed, identify: Identify)
    requires n <= |program|
    requires p < |CallablesAt(program, n, computed, identify)| && q < |CallablesAt(program, n, computed, identify)|
    requires AddedAt(program, n, CallablesAt(program, n, computed, identify)[p].id, computed, identify) == Some(a)
    requires AddedAt(program, n, CallablesAt(program, n, computed, identify)[q].id, computed, identify) == Some(b)
    ensures IsCall(program[a]) && IsCall(program[b]) && (Ahead(program, a, b) <==> p < q)
  {
    QueueIsOrdered(program, n, computed, identify);
    var queue := CallablesAt(program, n, computed, identify);
    hide CallablesAt, AddedAt, EntryAt, CalleeAt, Prepends;
    assert PlacedAt(program, n, queue[p], computed, identify) && PlacedAt(program, n, queue[q], computed, identify);
    if p < q {
      assert Before(program, n, queue[p], queue[q], computed, identify);
    } else if q < p {
      assert Before(program, n, queue[q], queue[p], computed, identify);
    }
  }

  lemma NoneStandsBetween(program: Block, n: nat, j: nat, own: nat, a: nat, b: nat, r: Rule, computed: Computed,
    identify: Identify)
    requires n <= |program| && j < |CallablesAt(program, n, computed, identify)|
    requires AddedAt(program, n, CallablesAt(program, n, computed, identify)[j].id, computed, identify) == Some(own)
    requires AllFromFirst(Rules(CallablesAt(program, n, computed, identify)), r, j)
    requires Standing(program, n, a, computed, identify) && Standing(program, n, b, computed, identify)
    requires Meant(program, a, computed) == Some(r) && Meant(program, b, computed) != Some(r) && Ahead(program, a, b)
    ensures IsCall(program[own]) && !Ahead(program, b, own)
  {
    var rules := Rules(CallablesAt(program, n, computed, identify));
    hide CallablesAt, AddedAt, Meant, Rules, Ahead, Position;
    var p := StandingHasPlace(program, n, a, computed, identify);
    var q := StandingHasPlace(program, n, b, computed, identify);
    AheadExact(program, n, p, q, a, b, computed, identify);
    AheadExact(program, n, q, j, b, own, computed, identify);
    assert rules[p] == r && rules[q] != r;
    FirstIsLeast(rules, r, p);
  }

  lemma StandsTogether(program: Block, n: nat, p: nat, k: nat, j: nat, own: nat, r: Rule, computed: Computed,
    identify: Identify)
    requires n <= |program| && p <= k <= j < |CallablesAt(program, n, computed, identify)|
    requires AddedAt(program, n, CallablesAt(program, n, computed, identify)[j].id, computed, identify) == Some(own)
    requires CallablesAt(program, n, computed, identify)[p].rule == r
    requires CallablesAt(program, n, computed, identify)[j].rule == r
    requires IsCall(program[own]) && NoneBetween(program, n, own, r, computed, identify)
    ensures CallablesAt(program, n, computed, identify)[k].rule == r
  {
    hide CallablesAt, AddedAt, Meant, Ahead, Standing;
    if p < k < j {
      var a := PlaceStands(program, n, p, computed, identify);
      var b := PlaceStands(program, n, k, computed, identify);
      AheadExact(program, n, p, k, a, b, computed, identify);
      AheadExact(program, n, k, j, b, own, computed, identify);
    }
  }

  lemma AllStandTogether(program: Block, n: nat, j: nat, own: nat, r: Rule, computed: Computed, identify: Identify)
    requires n <= |program| && j < |CallablesAt(program, n, computed, identify)|
    requires AddedAt(program, n, CallablesAt(program, n, computed, identify)[j].id, computed, identify) == Some(own)
    requires IsCall(program[own]) && NoneBetween(program, n, own, r, computed, identify)
    ensures AllFromFirst(Rules(CallablesAt(program, n, computed, identify)), r, j)
  {
    var queue := CallablesAt(program, n, computed, identify);
    var rules := Rules(queue);
    var o := PlaceStands(program, n, j, computed, identify);
    assert Meant(program, own, computed) == Some(r);
    hide CallablesAt, AddedAt, Meant, Rules, Standing, Position, NoneBetween;
    assert queue[j].rule == r && rules[j] == r;
    FirstIsLeast(rules, r, j);
    var p := Position(rules, r).value;
    forall k | p <= k <= j ensures rules[k] == r {
      StandsTogether(program, n, p, k, j, own, r, computed, identify);
    }
  }

  /** By the text, whether only equal rules stand between the first one and a callable. */
  lemma NoneBetweenExact(program: Block, n: nat, j: nat, own: nat, r: Rule, computed: Computed, identify: Identify)
    requires n <= |program| && j < |CallablesAt(program, n, computed, identify)|
    requires AddedAt(program, n, CallablesAt(program, n, computed, identify)[j].id, computed, identify) == Some(own)
    ensures IsCall(program[own])
    ensures AllFromFirst(Rules(CallablesAt(program, n, computed, identify)), r, j)
            <==> NoneBetween(program, n, own, r, computed, identify)
  {
    var rules := Rules(CallablesAt(program, n, computed, identify));
    var o := PlaceStands(program, n, j, computed, identify);
    hide CallablesAt, AddedAt, Meant, Rules, Ahead, Standing, Position, IsCall;
    if AllFromFirst(rules, r, j) {
      assert rules[j] == r;
      forall a, b | Standing(program, n, a, computed, identify) && Standing(program, n, b, computed, identify)
                    && Meant(program, a, computed) == Some(r) && Meant(program, b, computed) != Some(r)
                    && Ahead(program, a, b)
        ensures !Ahead(program, b, own)
      {
        NoneStandsBetween(program, n, j, own, a, b, r, computed, identify);
      }
    }
    if NoneBetween(program, n, own, r, computed, identify) {
      AllStandTogether(program, n, j, own, r, computed, identify);
    }
  }

  lemma FirstIsLeast(rules: seq<Rule>, r: Rule, p: nat)
    requires p < |rules| && rules[p] == r
    ensures Position(rules, r).Some? && Position(rules, r).value <= p
  {
    var first := Position(rules, r);
    assert r in rules;
    assert forall k :: 0 <= k < first.value ==> rules[k] in rules[..first.value];
  }

  // ----- exactly when -----

  lemma RulesEnqueued(queue: seq<Entry>, entry: Option<Entry>, prepend: bool)
    ensures Rules(Enqueued(queue, entry, prepend)) ==
              var isNew := entry.Some? && IndexOf(queue, entry.value.id).None?;
              Added(Rules(queue), if isNew then Some(entry.value.rule) else None, prepend)
  {
  }

  lemma RulesDequeued(queue: seq<Entry>, entry: Option<Entry>)
    ensures Rules(Dequeued(queue, entry)) ==
              if entry.Some? && IndexOf(queue, entry.value.id).Some?
                then Without(Rules(queue), IndexOf(queue, entry.value.id).value)
              else Rules(queue)
  {
  }

  /** Leaving out one of two places gives the same exactly when all places between are the same. */
  lemma WithoutEither(s: seq<Rule>, a: nat, b: nat)
    requires a <= b < |s|
    ensures Without(s, a) == Without(s, b) <==> forall k :: a <= k <= b ==> s[k] == s[a]
  {
    var l, r := Without(s, a), Without(s, b);
    assert forall k :: 0 <= k < |l| ==>
             l[k] == (if k < a then s[k] else s[k + 1]) && r[k] == (if k < b then s[k] else s[k + 1]);
    if l == r {
      var k := a;
      while k < b
        invariant a <= k <= b
        invariant forall m :: a <= m <= k ==> s[m] == s[a]
      {
        assert l[k] == r[k];
        k := k + 1;
      }
    }
  }

  /** Removing the first equal rule and removing the rule at j. */
  lemma RemovalExact(chain: seq<Rule>, rule: Option<Rule>, j: Option<nat>)
    requires j.Some? ==> j.value < |chain|
    ensures Removed(chain, rule) == (if j.None? then chain else Without(chain, j.value))
            <==> if Absent(rule, chain) then j.None? else j.Some? && AllFromFirst(chain, rule.value, j.value)
  {
    if !Absent(rule, chain) && j.Some? {
      var a := Position(chain, rule.value).value;
      if a <= j.value {
        WithoutEither(chain, a, j.value);
      } else {
        WithoutEither(chain, j.value, a);
        assert rule.value !in chain[..a] && chain[j.value] in chain[..a];
      }
    }
  }

  ghost predicate AsPhp(program: Block, n: nat, computed: Computed, identify: Identify)
    requires n <= |program|
  {
    CollectedTo(program, n).chain == Rules(CallablesAt(program, n, computed, identify))
  }

  lemma RemovalAsPhp(program: Block, i: nat, computed: Computed, identify: Identify)
    requires i < |program| && IsCall(program[i]) && AsPhp(program, i, computed, identify)
    ensures Removed(CollectedTo(program, i).chain, Heard(program, i))
            == Rules(Dequeued(CallablesAt(program, i, computed, identify), EntryAt(program, i, computed, identify)))
            <==> RemovesAsPhp(program, i, computed, identify)
  {
    var queue, entry := CallablesAt(program, i, computed, identify), EntryAt(program, i, computed, identify);
    var heard := Heard(program, i);
    RulesDequeued(queue, entry);
    var j := if entry.Some? then IndexOf(queue, entry.value.id) else None;
    RemovalExact(Rules(queue), heard, j);
    if entry.Some? {
      KnownExact(program, i, entry.value.id, computed, identify);
      AddedIsKnown(program, i, entry.value.id, computed, identify);
    }
    hide CollectedTo, CallablesAt, EntryAt, Heard, AddedAt, Rules, Removed, Known, Absent, AllFromFirst, NoneBetween,
         IndexOf, Without, Dequeued;
    if j.Some? && heard.Some? {
      var own := AddedAt(program, i, entry.value.id, computed, identify).value;
      NoneBetweenExact(program, i, j.value, own, heard.value, computed, identify);
    }
  }

  lemma AdditionAsPhp(program: Block, i: nat, computed: Computed, identify: Identify)
    requires i < |program| && IsCall(program[i]) && AsPhp(program, i, computed, identify)
    ensures var queue, entry := CallablesAt(program, i, computed, identify), EntryAt(program, i, computed, identify);
            Added(CollectedTo(program, i).chain, Heard(program, i), ReadsPrepend(program[i]))
            == Rules(Enqueued(queue, entry, Prepends(program[i])))
            <==> && Heard(program, i) == NewRule(program, i, computed, identify)
                 && (|| Heard(program, i).None?
                     || ReadsPrepend(program[i]) == Prepends(program[i])
                     || forall r :: r in CollectedTo(program, i).chain ==> r == Heard(program, i).value)
  {
    var queue, entry := CallablesAt(program, i, computed, identify), EntryAt(program, i, computed, identify);
    RulesEnqueued(queue, entry, Prepends(program[i]));
    if entry.Some? {
      KnownExact(program, i, entry.value.id, computed, identify);
    }
    hide CollectedTo, CallablesAt, EntryAt, Heard, Known, IndexOf, Enqueued, Rules, Added, Prepends, ReadsPrepend;
    AddedExact(Rules(queue), Heard(program, i), ReadsPrepend(program[i]),
               NewRule(program, i, computed, identify), Prepends(program[i]));
  }

  lemma StepAsPhp(program: Block, i: nat, computed: Computed, identify: Identify)
    requires i < |program| && StraightLine(program) && AsPhp(program, i, computed, identify)
    ensures AsPhp(program, i + 1, computed, identify) <==> TakenAsPhp(program, i, computed, identify)
  {
    ChainStep(program, i);
    NotBoth(program, i);
    if IsCall(program[i]) {
      hide CollectedTo, StraightLine, CalleeAt, Heard, EntryAt, NewRule, RemovesAsPhp, Enqueued, Dequeued, Rules, Added,
           Removed, ReadsPrepend, Prepends, REGISTER, UNREGISTER;
      AdditionAsPhp(program, i, computed, identify);
      RemovalAsPhp(program, i, computed, identify);
    }
  }

  lemma {:induction false} TakenThroughout(program: Block, n: nat, computed: Computed, identify: Identify)
    requires n <= |program| && StraightLine(program)
    requires forall i :: 0 <= i < n ==> TakenAsPhp(program, i, computed, identify)
    ensures AsPhp(program, n, computed, identify)
  {
    hide TakenAsPhp, StraightLine;
    if n > 0 {
      TakenThroughout(program, n - 1, computed, identify);
      StepAsPhp(program, n - 1, computed, identify);
    }
  }

  /** The chain holds the rules of the registered callables after every statement exactly when
      every call is taken as PHP takes it. */
  lemma ThroughoutAsPhp(program: Block, computed: Computed, identify: Identify)
    requires StraightLine(program)
    ensures (forall n :: 0 <= n <= |program| ==> AsPhp(program, n, computed, identify))
            <==> forall i :: 0 <= i < |program| ==> TakenAsPhp(program, i, computed, identify)
  {
    hide TakenAsPhp, StraightLine;
    if forall i :: 0 <= i < |program| ==> TakenAsPhp(program, i, computed, identify) {
      forall n | 0 <= n <= |program| ensures AsPhp(program, n, computed, identify) {
        TakenThroughout(program, n, computed, identify);
      }
    }
    if forall n :: 0 <= n <= |program| ==> AsPhp(program, n, computed, identify) {
      forall i | 0 <= i < |program| ensures TakenAsPhp(program, i, computed, identify) {
        assert AsPhp(program, i, computed, identify) && AsPhp(program, i + 1, computed, identify);
        StepAsPhp(program, i, computed, identify);
      }
    }
  }

  // ----- the order in which rules answer -----

  /** The first rule of a chain that answers. */
  function FirstAnswer(chain: seq<Rule>, answers: Rule -> bool): (rule: Option<Rule>)
    ensures rule.Some? ==> rule.value in chain && answers(rule.value)
    ensures rule.None? ==> forall r :: r in chain ==> !answers(r)
  {
    if chain == [] then None
    else if answers(chain[0]) then Some(chain[0])
    else FirstAnswer(chain[1..], answers)
  }

  /** No class is resolved differently. */
  ghost predicate SameAnswers(a: seq<Rule>, b: seq<Rule>) {
    forall answers :: FirstAnswer(a, answers) == FirstAnswer(b, answers)
  }

  lemma {:induction false} FirstOfTwo(a: seq<Rule>, b: seq<Rule>, answers: Rule -> bool)
    ensures FirstAnswer(a + b, answers) ==
            if FirstAnswer(a, answers).Some? then FirstAnswer(a, answers) else FirstAnswer(b, answers)
  {
    if a == [] {
      assert a + b == b;
    } else {
      assert (a + b)[1..] == a[1..] + b;
      FirstOfTwo(a[1..], b, answers);
    }
  }

  lemma SameWithNew(a: seq<Rule>, b: seq<Rule>, rule: Option<Rule>, prepend: bool)
    requires SameAnswers(a, b)
    ensures SameAnswers(Added(a, rule, prepend), Added(b, rule, prepend))
  {
    if rule.Some? {
      forall answers
        ensures FirstAnswer(Added(a, rule, prepend), answers) == FirstAnswer(Added(b, rule, prepend), answers)
      {
        assert FirstAnswer(a, answers) == FirstAnswer(b, answers);
        FirstOfTwo(a, [rule.value], answers);
        FirstOfTwo(b, [rule.value], answers);
        FirstOfTwo([rule.value], a, answers);
        FirstOfTwo([rule.value], b, answers);
      }
    }
  }

  lemma SameMembers(a: seq<Rule>, b: seq<Rule>, r: Rule)
    requires SameAnswers(a, b) && r in b
    ensures r in a
  {
    var isRule := x => x == r;
    assert FirstAnswer(a, isRule) == FirstAnswer(b, isRule);
  }

  /** Adding a rule again at the end changes no answer; in front it does, unless it is the first. */
  lemma RepeatExact(chain: seq<Rule>, r: Rule, prepend: bool)
    requires r in chain
    ensures SameAnswers(Added(chain, Some(r), prepend), chain) <==> !prepend || chain[0] == r
  {
    forall answers
      ensures FirstAnswer(chain + [r], answers) == FirstAnswer(chain, answers)
      ensures FirstAnswer([r] + chain, answers) == if answers(r) then Some(r) else FirstAnswer(chain, answers)
    {
      FirstOfTwo(chain, [r], answers);
      FirstOfTwo([r], chain, answers);
    }
    if prepend && chain[0] != r {
      var either := x => x == r || x == chain[0];
      assert FirstAnswer([r] + chain, either) != FirstAnswer(chain, either);
    }
  }

  // ----- repeated registrations -----

  /** Equal callables have equal rules. */
  ghost predicate Coherent(program: Block, computed: Computed, identify: Identify) {
    forall i, j :: 0 <= i < |program| && 0 <= j < |program| && IsCall(program[i]) && IsCall(program[j]) ==>
      var a, b := EntryAt(program, i, computed, identify), EntryAt(program, j, computed, identify);
      a.Some? && b.Some? && a.value.id == b.value.id ==> a == b
  }

  /** Every callable that is registered or unregistered is a literal. */
  predicate LiteralLoaders(program: Block) {
    forall i :: 0 <= i < |program| && IsCall(program[i]) ==>
      var e := OriginOf(program, i, program[i].expr.args[0], {}).expr;
      e.Closure? || e.Variable? || IsLiteral(e)
  }

  /** Where an origin is, is what it is. */
  lemma SameOrigin(program: Block, i: nat, j: nat)
    requires i < |program| && j < |program| && IsCall(program[i]) && IsCall(program[j])
    requires OriginOf(program, i, program[i].expr.args[0], {}).at
             == OriginOf(program, j, program[j].expr.args[0], {}).at
    ensures OriginOf(program, i, program[i].expr.args[0], {}) == OriginOf(program, j, program[j].expr.args[0], {})
  {
    OriginPlace(program, i, program[i].expr.args[0], {});
    OriginPlace(program, j, program[j].expr.args[0], {});
    hide OriginOf;
  }

  /** The callable that a literal stands for. */
  function LiteralEntry(program: Block, o: Origin): Option<Entry> {
    match o.expr
    case Closure(_, _, _, _) =>
      (match ClosureRule(o.expr)
       case None => None
       case Some(rule) => Some(Entry(ClosureOf(o.at), rule)))
    case StringLiteral(s) =>
      (match NamedRule(program, CallableName(s), {})
       case None => None
       case Some(rule) => Some(Entry(NameOf(s), rule)))
    case _ => None
  }

  lemma LiteralEntryAt(program: Block, i: nat, computed: Computed, identify: Identify)
    requires i < |program| && IsCall(program[i])
    requires var e := OriginOf(program, i, program[i].expr.args[0], {}).expr; e.Closure? || e.Variable? || IsLiteral(e)
    ensures EntryAt(program, i, computed, identify)
            == LiteralEntry(program, OriginOf(program, i, program[i].expr.args[0], {}))
  {
    hide OriginOf, NamedRule, ClosureRule, NameOf, VarsAt, StandsFor;
  }

  lemma SameLiteralEntry(program: Block, o: Origin, o': Origin)
    requires o.at == o'.at ==> o == o'
    ensures var a, b := LiteralEntry(program, o), LiteralEntry(program, o');
            a.Some? && b.Some? && a.value.id == b.value.id ==> a == b
  {
    hide LastNamed, SymbolKey, FunctionRule, ClosureRule, CallableName;
  }

  /** Then equal callables have equal rules. */
  lemma LiteralsAreCoherent(program: Block, computed: Computed, identify: Identify)
    requires LiteralLoaders(program)
    ensures Coherent(program, computed, identify)
  {
    forall i, j | 0 <= i < |program| && 0 <= j < |program| && IsCall(program[i]) && IsCall(program[j])
      ensures var a, b := EntryAt(program, i, computed, identify), EntryAt(program, j, computed, identify);
              a.Some? && b.Some? && a.value.id == b.value.id ==> a == b
    {
      LiteralEntryAt(program, i, computed, identify);
      LiteralEntryAt(program, j, computed, identify);
      var o, o' := OriginOf(program, i, program[i].expr.args[0], {}), OriginOf(program, j, program[j].expr.args[0], {});
      hide OriginOf, EntryAt, LiteralEntry, LiteralLoaders;
      if o.at == o'.at {
        SameOrigin(program, i, j);
      }
      SameLiteralEntry(program, o, o');
    }
  }

  lemma {:induction false} EntriesCome(program: Block, n: nat, e: Entry, computed: Computed, identify: Identify)
    returns (k: nat)
    requires n <= |program| && e in CallablesAt(program, n, computed, identify)
    ensures k < n && IsCall(program[k]) && EntryAt(program, k, computed, identify) == Some(e)
  {
    hide EntryAt, IndexOf, Prepends, CalleeAt, REGISTER, UNREGISTER;
    if e in CallablesAt(program, n - 1, computed, identify) {
      k := EntriesCome(program, n - 1, e, computed, identify);
    } else {
      k := n - 1;
    }
  }

  /** The rule of a known callable is in the queue. */
  lemma KnownRule(program: Block, i: nat, computed: Computed, identify: Identify)
    requires i < |program| && IsCall(program[i]) && Coherent(program, computed, identify)
    requires KnownAt(program, i, computed, identify)
    ensures EntryAt(program, i, computed, identify).value.rule in Rules(CallablesAt(program, i, computed, identify))
  {
    var entry := EntryAt(program, i, computed, identify).value;
    var queue := CallablesAt(program, i, computed, identify);
    KnownExact(program, i, entry.id, computed, identify);
    var j := IndexOf(queue, entry.id).value;
    hide EntryAt, CallablesAt, IndexOf, Known;
    var k := EntriesCome(program, i, queue[j], computed, identify);
    assert queue[j] == entry;
    assert Rules(queue)[j] == entry.rule;
  }

  /** Loader and flag are read as meant, and nothing is unregistered. */
  predicate ReadAsMeant(program: Block, i: nat, computed: Computed)
    requires i < |program|
  {
    && !Unregisters(program, i)
    && (Registers(program, i) ==>
          Heard(program, i) == Meant(program, i, computed) && ReadsPrepend(program[i]) == Prepends(program[i]))
  }

  /** A known callable is not registered in front of other rules. */
  predicate RepeatsBehind(program: Block, i: nat, computed: Computed, identify: Identify)
    requires i < |program|
  {
    Registers(program, i) && KnownAt(program, i, computed, identify) && Prepends(program[i]) ==>
      var chain := CollectedTo(program, i).chain;
      chain != [] && Some(chain[0]) == Meant(program, i, computed)
  }

  ghost predicate AnswersAsPhp(program: Block, n: nat, computed: Computed, identify: Identify)
    requires n <= |program|
  {
    SameAnswers(CollectedTo(program, n).chain, Rules(CallablesAt(program, n, computed, identify)))
  }

  lemma SameTransitive(a: seq<Rule>, b: seq<Rule>, c: seq<Rule>)
    requires SameAnswers(b, c)
    ensures SameAnswers(a, b) <==> SameAnswers(a, c)
  {
    assert forall answers :: FirstAnswer(b, answers) == FirstAnswer(c, answers);
    if SameAnswers(a, b) {
      assert forall answers :: FirstAnswer(a, answers) == FirstAnswer(b, answers);
    }
    if SameAnswers(a, c) {
      assert forall answers :: FirstAnswer(a, answers) == FirstAnswer(c, answers);
    }
  }

  lemma StepAnswers(program: Block, i: nat, computed: Computed, identify: Identify)
    requires i < |program| && StraightLine(program) && Coherent(program, computed, identify)
    requires ReadAsMeant(program, i, computed) && AnswersAsPhp(program, i, computed, identify)
    ensures AnswersAsPhp(program, i + 1, computed, identify) <==> RepeatsBehind(program, i, computed, identify)
  {
    var chain, queue := CollectedTo(program, i).chain, CallablesAt(program, i, computed, identify);
    ChainStep(program, i);
    if Registers(program, i) {
      var entry, prepend := EntryAt(program, i, computed, identify), Prepends(program[i]);
      if entry.Some? {
        KnownExact(program, i, entry.value.id, computed, identify);
      }
      RulesEnqueued(queue, entry, prepend);
      if KnownAt(program, i, computed, identify) {
        KnownRule(program, i, computed, identify);
        SameMembers(chain, Rules(queue), entry.value.rule);
        RepeatExact(chain, entry.value.rule, prepend);
        SameTransitive(Added(chain, Some(entry.value.rule), prepend), chain, Rules(queue));
      } else {
        SameWithNew(chain, Rules(queue), Meant(program, i, computed), prepend);
      }
    }
  }

  lemma AnswersStart(program: Block, computed: Computed, identify: Identify)
    ensures AnswersAsPhp(program, 0, computed, identify)
  {
    assert CollectedTo(program, 0).chain == Rules(CallablesAt(program, 0, computed, identify));
    hide CollectedTo, CallablesAt, FirstAnswer;
  }

  lemma {:induction false} AnswersThroughout(program: Block, n: nat, computed: Computed, identify: Identify)
    requires n <= |program| && StraightLine(program) && Coherent(program, computed, identify)
    requires forall i :: 0 <= i < n ==>
               ReadAsMeant(program, i, computed) && RepeatsBehind(program, i, computed, identify)
    ensures AnswersAsPhp(program, n, computed, identify)
  {
    hide ReadAsMeant, RepeatsBehind, StraightLine, Coherent;
    hide AnswersAsPhp;
    AnswersStart(program, computed, identify);
    if n > 0 {
      AnswersThroughout(program, n - 1, computed, identify);
      assert ReadAsMeant(program, n - 1, computed);
      StepAnswers(program, n - 1, computed, identify);
    }
  }

  /** Where everything is read as meant and nothing is unregistered, the chain resolves every
      class as PHP does after every statement exactly when no known callable is registered in
      front of other rules. */
  lemma RepeatsExact(program: Block, computed: Computed, identify: Identify)
    requires StraightLine(program) && Coherent(program, computed, identify)
    requires forall i :: 0 <= i < |program| ==> ReadAsMeant(program, i, computed)
    ensures (forall n :: 0 <= n <= |program| ==> AnswersAsPhp(program, n, computed, identify))
            <==> forall i :: 0 <= i < |program| ==> RepeatsBehind(program, i, computed, identify)
  {
    hide ReadAsMeant, RepeatsBehind, StraightLine, Coherent, AnswersAsPhp;
    if forall i :: 0 <= i < |program| ==> RepeatsBehind(program, i, computed, identify) {
      forall n | 0 <= n <= |program| ensures AnswersAsPhp(program, n, computed, identify) {
        AnswersThroughout(program, n, computed, identify);
      }
    }
    if forall n :: 0 <= n <= |program| ==> AnswersAsPhp(program, n, computed, identify) {
      forall i | 0 <= i < |program| ensures RepeatsBehind(program, i, computed, identify) {
        assert AnswersAsPhp(program, i, computed, identify) && AnswersAsPhp(program, i + 1, computed, identify);
        assert ReadAsMeant(program, i, computed);
        StepAnswers(program, i, computed, identify);
      }
    }
  }

  // ----- registered twice, unregistered once -----

  /** `\spl_autoload_unregister('...');` */
  function Unregistering(name: string): Stmt {
    ExprStmt(FunctionCall(Name(FullyQualified, "spl_autoload_unregister"), [StringLiteral(name)]))
  }

  lemma NameUnregisters(program: Block, i: nat, name: string)
    requires i < |program| && program[i] == Unregistering(name)
    ensures Unregisters(program, i) && Straight(program[i]) && program[i].expr.args == [StringLiteral(name)]
  {
    UnregisterName();
    hide Lowercase, UNREGISTER, Functions, NamespaceAt;
  }

  predicate IsTwice(program: Block, f: string, p: string) {
    && |program| == 4 && program[0] == Loading(f, p)
    && program[1] == Registering(f) && program[2] == Registering(f) && program[3] == Unregistering(f)
  }

  /** The call of a name whose loader is read right. */
  predicate ReadsLoader(program: Block, i: nat, f: string, rule: Rule, computed: Computed)
    requires i < |program|
  {
    && IsCall(program[i]) && program[i].expr.args == [StringLiteral(f)]
    && Heard(program, i) == Some(rule) == Meant(program, i, computed)
  }

  lemma LoaderIsFound(program: Block, f: string, p: string)
    requires IsTwice(program, f, p)
    ensures LastSpelled(program, 4, f) == Some(0) && LastNamed(program, 4, SymbolKey(f), {}) == Some(0)
    ensures FunctionRule(program[0]) == Some(Rule(p, []))
  {
    hide SymbolKey, REGISTER, UNREGISTER;
    assert NamespaceAt(program, 0) == None && DeclaresNamed(program, 0, SymbolKey(f));
  }

  lemma NameIsRead(program: Block, i: nat, f: string, p: string, computed: Computed)
    requires Unprefixed(f) && IsTwice(program, f, p) && i < 4
    requires IsCall(program[i]) && program[i].expr.args == [StringLiteral(f)]
    ensures ReadsLoader(program, i, f, Rule(p, []), computed)
  {
    LoaderIsFound(program, f, p);
    UnprefixedIsName(f);
    hide TrimBackslashes, CallableName, Heard, Meant, FunctionRule, LastSpelled, LastNamed, SymbolKey, IsCall;
    NameCall(program, i, f, computed);
  }

  lemma TwiceRegisters(program: Block, i: nat, f: string, p: string, computed: Computed)
    requires Unprefixed(f) && IsTwice(program, f, p) && 1 <= i < 3
    ensures Registers(program, i) && Straight(program[i]) && ReadsLoader(program, i, f, Rule(p, []), computed)
  {
    hide CalleeAt, Straight, REGISTER, UNREGISTER, ReadsLoader;
    NameRegisters(program, i, f);
    NameIsRead(program, i, f, p, computed);
  }

  lemma ThenUnregisters(program: Block, f: string, p: string, computed: Computed)
    requires Unprefixed(f) && IsTwice(program, f, p)
    ensures Unregisters(program, 3) && Straight(program[3]) && ReadsLoader(program, 3, f, Rule(p, []), computed)
  {
    hide CalleeAt, Straight, REGISTER, UNREGISTER, ReadsLoader;
    NameUnregisters(program, 3, f);
    NameIsRead(program, 3, f, p, computed);
  }

  lemma DeclarationIsStraight(s: Stmt)
    requires s.FunctionDecl?
    ensures Straight(s) && !IsCall(s)
  {
  }

  lemma TwiceIsStraight(program: Block, f: string, p: string)
    requires Unprefixed(f) && IsTwice(program, f, p)
    ensures StraightLine(program) && !IsCall(program[0])
  {
    hide Straight, IsCall, Registering, Unregistering, Unprefixed, CalleeAt, ReadsLoader;
    DeclarationIsStraight(program[0]);
    TwiceRegisters(program, 1, f, p, (e, vars) => OtherValue);
    TwiceRegisters(program, 2, f, p, (e, vars) => OtherValue);
    ThenUnregisters(program, f, p, (e, vars) => OtherValue);
  }

  lemma NamedEntry(program: Block, i: nat, f: string, rule: Rule, computed: Computed, identify: Identify)
    requires i < |program| && ReadsLoader(program, i, f, rule, computed)
    ensures EntryAt(program, i, computed, identify) == Some(Entry(NameOf(f), rule))
  {
    hide Meant, Heard, NameOf;
  }

  lemma TwiceAndBack(rule: Rule, e: Entry)
    ensures Added([], Some(rule), false) == [rule] && Added([rule], Some(rule), false) == [rule, rule]
    ensures Removed([rule, rule], Some(rule)) == [rule]
    ensures Enqueued([], Some(e), false) == [e] == Enqueued([e], Some(e), false) && Dequeued([e], Some(e)) == []
  {
  }

  /** `function load($c) {}` registered twice and unregistered once: PHP has no loader left,
      the chain has one. */
  lemma RegisteredTwice(program: Block, f: string, p: string, computed: Computed, identify: Identify)
    requires Unprefixed(f) && IsTwice(program, f, p)
    ensures Collected(program).chain == [Rule(p, [])] && CallablesAt(program, 4, computed, identify) == []
  {
    var rule := Rule(p, []);
    var e := Entry(NameOf(f), rule);
    TwiceIsStraight(program, f, p);
    TwiceAndBack(rule, e);
    StartsEmpty(program, computed);
    AtEnd(program, computed);
    assert |program| == 4;
    hide Heard, Meant, CollectedTo, CollectedAfter, Collected, Added, Removed, Enqueued, Dequeued, StraightLine,
         CalleeAt, NameOf, EntryAt, REGISTER, UNREGISTER, IsTwice, Unprefixed, Registering, Unregistering;
    ChainStep(program, 0);
    for i := 1 to 3
      invariant CollectedTo(program, i).chain == if i == 1 then [] else if i == 2 then [rule] else [rule, rule]
      invariant CallablesAt(program, i, computed, identify) == if i == 1 then [] else [e]
    {
      TwiceRegisters(program, i, f, p, computed);
      NamedEntry(program, i, f, rule, computed, identify);
      ChainStep(program, i);
    }
    ThenUnregisters(program, f, p, computed);
    NamedEntry(program, 3, f, rule, computed, identify);
    NotBoth(program, 3);
    ChainStep(program, 3);
  }
}
