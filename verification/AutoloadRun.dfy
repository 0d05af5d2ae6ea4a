/** The whole autoload pass: the always-included prefix, then rounds until stable. */
module AutoloadRun {
  import opened Prelude
  import opened Autoload

  ghost predicate Distinct(paths: seq<Path>) {
    forall i, j :: 0 <= i < j < |paths| ==> paths[i] != paths[j]
  }

  // ----- the demands of one round, collected by a loop -----

  function Prepend(insertions: seq<Insertion>, loads: seq<Path>, c: Collection): Collection {
    if c.Failed? then c else Collected(insertions + c.insertions, loads + c.loads)
  }

  lemma PrependNothing(c: Collection)
    ensures Prepend([], [], c) == c
  {
    if c.Collected? {
      assert [] + c.insertions == c.insertions && [] + c.loads == c.loads;
    }
  }

  lemma PrependStep(insertions: seq<Insertion>, loads: seq<Path>, ins: Insertion, path: Path, c: Collection)
    ensures Prepend(insertions, loads, Prepend([ins], [path], c)) == Prepend(insertions + [ins], loads + [path], c)
  {
    if c.Collected? {
      assert insertions + ([ins] + c.insertions) == (insertions + [ins]) + c.insertions;
      assert loads + ([path] + c.loads) == (loads + [path]) + c.loads;
    }
  }

  method CollectDemands(points: seq<Point>, declared: set<string>, included: set<Path>, site: Site)
    returns (c: Collection, nowIncluded: set<Path>)
    ensures c == Collect(points, declared, included, site)
    ensures c.Collected? ==> nowIncluded == included + SetOf(c.loads)
  {
    var insertions, loads := [], [];
    nowIncluded := included;
    PrependNothing(Collect(points, declared, included, site));
    for i := 0 to |points|
      invariant nowIncluded == included + SetOf(loads)
      invariant Collect(points, declared, included, site)
                == Prepend(insertions, loads, Collect(points[i..], declared, nowIncluded, site))
    {
      var point := points[i];
      assert points[i..][0] == point && points[i..][1..] == points[i + 1..];
      if point.fqn !in declared {
        match site.resolve(point.fqn) {
          case None =>
          case Some(path) =>
            if path !in nowIncluded {
              match site.load(path) {
                case Err(e) =>
                  return Failed(e), nowIncluded;
                case Ok(loaded) =>
                  PrependStep(insertions, loads, Insertion(point.index, loaded), path,
                              Collect(points[i + 1..], declared, nowIncluded + {path}, site));
                  nowIncluded := nowIncluded + {path};
                  insertions := insertions + [Insertion(point.index, loaded)];
                  loads := loads + [path];
              }
            }
        }
      }
    }
    assert points[|points|..] == [];
    return Collected(insertions, loads), nowIncluded;
  }

  lemma {:induction false} CollectedOnce(points: seq<Point>, declared: set<string>, included: set<Path>, site: Site)
    requires Collect(points, declared, included, site).Collected?
    ensures var loads := Collect(points, declared, included, site).loads;
            Distinct(loads) && SetOf(loads) !! included
    decreases points
  {
    if points != [] {
      if !Demands(points[0].fqn, declared, included, site) {
        CollectedOnce(points[1..], declared, included, site);
      } else {
        var path := site.resolve(points[0].fqn).value;
        CollectedOnce(points[1..], declared, included + {path}, site);
        var rest := Collect(points[1..], declared, included + {path}, site).loads;
        assert forall q :: q in rest ==> q in SetOf(rest);
      }
    }
  }

  lemma {:induction false} NothingDemanded(points: seq<Point>, declared: set<string>, included: set<Path>, site: Site,
    p: Point)
    requires Collect(points, declared, included, site) == Collected([], []) && p in points
    ensures !Demands(p.fqn, declared, included, site)
    decreases points
  {
    if p != points[0] {
      assert points == [points[0]] + points[1..];
      NothingDemanded(points[1..], declared, included, site, p);
    }
  }

  lemma {:induction false} InsertionPerLoad(points: seq<Point>, declared: set<string>, included: set<Path>, site: Site)
    requires Collect(points, declared, included, site).Collected?
    ensures |Collect(points, declared, included, site).insertions| == |Collect(points, declared, included, site).loads|
    decreases points
  {
    if points != [] {
      if !Demands(points[0].fqn, declared, included, site) {
        InsertionPerLoad(points[1..], declared, included, site);
      } else {
        InsertionPerLoad(points[1..], declared, included + {site.resolve(points[0].fqn).value}, site);
      }
    }
  }

  lemma {:induction false} PointOf(program: Program, start: nat, i: nat, fqn: string)
    requires i < |program| && fqn in program[i].refers
    ensures Point(start + i, fqn) in ReferencePoints(program, start)
    decreases program
  {
    if i == 0 {
      PointIn(start, program[0].refers, fqn);
    } else {
      PointOf(program[1..], start + 1, i - 1, fqn);
    }
  }

  lemma {:induction false} PointIn(index: nat, refers: seq<string>, fqn: string)
    requires fqn in refers
    ensures Point(index, fqn) in PointsAt(index, refers)
  {
    if fqn != refers[0] {
      assert refers == [refers[0]] + refers[1..];
      PointIn(index, refers[1..], fqn);
    }
  }

  // ----- statements keep their order -----

  /** `f` places the statements of `a`, in order, among those of `b`. */
  ghost predicate Embeds(a: Program, b: Program, f: seq<nat>) {
    && |f| == |a|
    && (forall i :: 0 <= i < |f| ==> f[i] < |b| && b[f[i]] == a[i])
    && (forall i, j :: 0 <= i < j < |f| ==> f[i] < f[j])
  }

  ghost predicate KeepsOrder(a: Program, b: Program) {
    exists f :: Embeds(a, b, f)
  }

  lemma KeepsOrderTransitive(a: Program, b: Program, c: Program)
    requires KeepsOrder(a, b) && KeepsOrder(b, c)
    ensures KeepsOrder(a, c)
  {
    var f :| Embeds(a, b, f);
    var g :| Embeds(b, c, g);
    var h := seq(|f|, i requires 0 <= i < |f| => g[f[i]]);
    assert Embeds(a, c, h);
  }

  lemma PrefixKeepsOrder(prefix: Program, a: Program)
    ensures KeepsOrder(a, prefix + a)
  {
    var f := seq(|a|, i requires 0 <= i < |a| => |prefix| + i);
    assert Embeds(a, prefix + a, f);
  }

  lemma ConsKeepsOrder(before: Program, head: Item, p: Program, rest: Program)
    requires KeepsOrder(p, rest)
    ensures KeepsOrder([head] + p, before + [head] + rest)
  {
    var f :| Embeds(p, rest, f);
    var g := [|before|] + seq(|f|, i requires 0 <= i < |f| => |before| + 1 + f[i]);
    assert Embeds([head] + p, before + [head] + rest, g);
  }

  lemma {:induction false} InterleaveKeepsOrder(program: Program, declared: set<string>, included: set<Path>,
    site: Site)
    requires Interleave(program, declared, included, site).Interleaved?
    ensures KeepsOrder(program, Interleave(program, declared, included, site).program)
    decreases program
  {
    if program == [] {
      assert Embeds([], [], []);
    } else {
      var c := Collect(PointsAt(0, program[0].refers), declared, included, site);
      InterleaveKeepsOrder(program[1..], declared, included + SetOf(c.loads), site);
      var rest := Interleave(program[1..], declared, included + SetOf(c.loads), site).program;
      ConsKeepsOrder(LoadedBy(c.insertions), program[0], program[1..], rest);
      assert program == [program[0]] + program[1..];
    }
  }

  // ----- the pass -----

  function Known(program: Program, site: Site): set<string> {
    Declared(program) + site.builtins
  }

  /** `n` rounds of the reference form. */
  function Rounds(n: nat, program: Program, included: set<Path>, site: Site): Interleaving {
    if n == 0 then Interleaved(program, [])
    else
      match Rounds(n - 1, program, included, site)
      case Broken(e) => Broken(e)
      case Interleaved(p, loads) =>
        match Interleave(p, Known(p, site), included + SetOf(loads), site)
        case Broken(e) => Broken(e)
        case Interleaved(p', more) => Interleaved(p', loads + more)
  }

  /** The prefix of always-included files, each taken once, in order. */
  function Prefix(always: seq<Path>, included: set<Path>, site: Site): Interleaving
    decreases always
  {
    if always == [] then Interleaved([], [])
    else if always[0] in included then Prefix(always[1..], included, site)
    else
      match site.load(always[0])
      case Err(e) => Broken(e)
      case Ok(loaded) =>
        match Prefix(always[1..], included + {always[0]}, site)
        case Broken(e) => Broken(e)
        case Interleaved(rest, loads) => Interleaved(loaded + rest, [always[0]] + loads)
  }

  /** The prefix loads each of the files that was not included before, once. */
  lemma {:induction false} PrefixExact(always: seq<Path>, included: set<Path>, site: Site)
    requires Prefix(always, included, site).Interleaved?
    ensures SetOf(Prefix(always, included, site).loads) == SetOf(always) - included
    ensures Distinct(Prefix(always, included, site).loads)
    decreases always
  {
    if always != [] {
      assert always == [always[0]] + always[1..];
      if always[0] in included {
        PrefixExact(always[1..], included, site);
      } else {
        PrefixExact(always[1..], included + {always[0]}, site);
        var rest := Prefix(always[1..], included + {always[0]}, site).loads;
        var loads := Prefix(always, included, site).loads;
        assert loads == [always[0]] + rest && always[0] !in SetOf(rest);
        assert SetOf(loads) == {always[0]} + SetOf(rest) && SetOf(always) == {always[0]} + SetOf(always[1..]);
      }
    }
  }

  /** Every reference left is declared, unresolvable or in a file already loaded. */
  ghost predicate Settled(program: Program, included: set<Path>, site: Site) {
    forall i, fqn :: 0 <= i < |program| && fqn in program[i].refers ==>
      || fqn in Known(program, site)
      || site.resolve(fqn).None?
      || site.resolve(fqn).value in included
  }

  const MAX_ITERATIONS: nat := 64

  method LoadPrefix(always: seq<Path>, site: Site) returns (prefix: Interleaving, included: set<Path>)
    ensures prefix == Prefix(always, {}, site)
    ensures prefix.Interleaved? ==> included == SetOf(prefix.loads) && Distinct(prefix.loads)
  {
    included := {};
    var program, loads := [], [];
    Join([], [], Prefix(always, {}, site));
    for i := 0 to |always|
      invariant included == SetOf(loads) && Distinct(loads)
      invariant Prefix(always, {}, site) == After(program, loads, Prefix(always[i..], included, site))
    {
      assert always[i..][0] == always[i] && always[i..][1..] == always[i + 1..];
      if always[i] !in included {
        match site.load(always[i]) {
          case Err(e) =>
            return Broken(e), included;
          case Ok(loaded) =>
            JoinStep(program, loads, loaded, always[i], Prefix(always[i + 1..], included + {always[i]}, site));
            included := included + {always[i]};
            program := program + loaded;
            loads := loads + [always[i]];
        }
      }
    }
    assert always[|always|..] == [] && program + [] == program && loads + [] == loads;
    return Interleaved(program, loads), included;
  }

  function After(program: Program, loads: seq<Path>, rest: Interleaving): Interleaving {
    if rest.Broken? then rest else Interleaved(program + rest.program, loads + rest.loads)
  }

  lemma Join(program: Program, loads: seq<Path>, rest: Interleaving)
    requires program == [] && loads == []
    ensures After(program, loads, rest) == rest
  {
    if rest.Interleaved? {
      assert program + rest.program == rest.program && loads + rest.loads == rest.loads;
    }
  }

  lemma JoinStep(program: Program, loads: seq<Path>, loaded: Program, path: Path, rest: Interleaving)
    ensures After(program, loads, After(loaded, [path], rest)) == After(program + loaded, loads + [path], rest)
  {
    if rest.Interleaved? {
      assert program + (loaded + rest.program) == (program + loaded) + rest.program;
      assert loads + ([path] + rest.loads) == (loads + [path]) + rest.loads;
    }
  }

  /** One round of the loop. */
  method RunRound(program: Program, included: set<Path>, site: Site)
    returns (next: Interleaving, nowIncluded: set<Path>, stable: bool)
    ensures next == Interleave(program, Known(program, site), included, site)
    ensures next.Interleaved? ==>
              && nowIncluded == included + SetOf(next.loads)
              && (stable ==> next == Interleaved(program, []) && Settled(program, included, site))
  {
    var declared := Known(program, site);
    var points := ReferencePoints(program, 0);
    var c;
    c, nowIncluded := CollectDemands(points, declared, included, site);
    RoundIsInterleaving(program, declared, included, site);
    match c {
      case Failed(e) =>
        return Broken(e), nowIncluded, false;
      case Collected(insertions, loads) =>
        InsertionPerLoad(points, declared, included, site);
        stable := insertions == [];
        if stable {
          SettledWithoutDemand(program, declared, included, site);
          return Interleaved(program, []), nowIncluded, true;
        }
        var spliced := Splice(program, insertions);
        return Interleaved(spliced, loads), nowIncluded, false;
    }
  }

  lemma SettledWithoutDemand(program: Program, declared: set<string>, included: set<Path>, site: Site)
    requires declared == Known(program, site)
    requires Collect(ReferencePoints(program, 0), declared, included, site) == Collected([], [])
    ensures Settled(program, included, site)
    ensures Merged(program, [], 0) == program
  {
    forall i, fqn | 0 <= i < |program| && fqn in program[i].refers
      ensures fqn in Known(program, site) || site.resolve(fqn).None? || site.resolve(fqn).value in included
    {
      PointOf(program, 0, i, fqn);
      NothingDemanded(ReferencePoints(program, 0), declared, included, site, Point(i, fqn));
    }
  }

  lemma DistinctAppend(a: seq<Path>, b: seq<Path>)
    requires Distinct(a) && Distinct(b) && SetOf(b) !! SetOf(a)
    ensures Distinct(a + b) && SetOf(a + b) == SetOf(a) + SetOf(b)
  {
    forall i, j | 0 <= i < j < |a + b| ensures (a + b)[i] != (a + b)[j] {
      if i < |a| <= j {
        assert a[i] in SetOf(a) && b[j - |a|] in SetOf(b);
      }
    }
  }

  /** What the loop has achieved after some rounds. */
  ghost predicate Reached(start: Program, first: seq<Path>, site: Site, rounds: nat, program: Program,
    more: seq<Path>)
  {
    && Rounds(rounds, start, SetOf(first), site) == Interleaved(program, more)
    && Distinct(first + more)
    && KeepsOrder(start, program)
  }

  lemma InterleaveFacts(program: Program, included: set<Path>, site: Site)
    requires Interleave(program, Known(program, site), included, site).Interleaved?
    ensures var next := Interleave(program, Known(program, site), included, site);
            Distinct(next.loads) && SetOf(next.loads) !! included && KeepsOrder(program, next.program)
  {
    RoundIsInterleaving(program, Known(program, site), included, site);
    CollectedOnce(ReferencePoints(program, 0), Known(program, site), included, site);
    InterleaveKeepsOrder(program, Known(program, site), included, site);
  }

  lemma LoadsGrow(first: seq<Path>, more: seq<Path>, next: seq<Path>)
    requires Distinct(first + more) && Distinct(next) && SetOf(next) !! SetOf(first + more)
    ensures Distinct(first + (more + next))
    ensures SetOf(first + (more + next)) == SetOf(first + more) + SetOf(next)
  {
    assert first + (more + next) == (first + more) + next;
    DistinctAppend(first + more, next);
  }

  lemma SetOfAppend(a: seq<Path>, b: seq<Path>)
    ensures SetOf(a + b) == SetOf(a) + SetOf(b)
  {
  }

  lemma ReachedNext(start: Program, first: seq<Path>, site: Site, rounds: nat, program: Program, more: seq<Path>,
    included: set<Path>, next: Interleaving)
    requires Reached(start, first, site, rounds, program, more) && included == SetOf(first + more)
    requires next == Interleave(program, Known(program, site), included, site)
    ensures next.Broken? ==> Rounds(rounds + 1, start, SetOf(first), site) == next
    ensures next.Interleaved? ==>
              && Reached(start, first, site, rounds + 1, next.program, more + next.loads)
              && included + SetOf(next.loads) == SetOf(first + (more + next.loads))
  {
    assert included == SetOf(first) + SetOf(more) by {
      SetOfAppend(first, more);
    }
    assert Rounds(rounds + 1, start, SetOf(first), site) ==
           if next.Broken? then next else Interleaved(next.program, more + next.loads);
    if next.Interleaved? {
      InterleaveFacts(program, included, site);
      LoadsGrow(first, more, next.loads);
      KeepsOrderTransitive(start, program, next.program);
    }
  }

  method RunRounds(start: Program, first: seq<Path>, site: Site)
    returns (outcome: Interleaving, ghost rounds: nat, ghost settled: bool)
    requires Distinct(first)
    ensures rounds <= 64 && outcome == Rounds(rounds, start, SetOf(first), site)
    ensures outcome.Interleaved? ==>
              && Reached(start, first, site, rounds, outcome.program, outcome.loads)
              && (if settled then Settled(outcome.program, SetOf(first + outcome.loads), site)
                else rounds == 64)
  {
    var program, loads: seq<Path> := start, [];
    var included := SetOf(first);
    rounds, settled := 0, false;
    PrefixKeepsOrder([], start);
    assert [] + start == start && first + [] == first;
    var iteration := 0;
    while iteration < MAX_ITERATIONS
      invariant iteration <= MAX_ITERATIONS && rounds == iteration
      invariant included == SetOf(first + loads)
      invariant Reached(start, first, site, rounds, program, loads)
    {
      var next, nowIncluded, stable := RunRound(program, included, site);
      ReachedNext(start, first, site, rounds, program, loads, included, next);
      if next.Broken? {
        return next, rounds + 1, false;
      }
      if stable {
        return Interleaved(program, loads), rounds, true;
      }
      rounds := rounds + 1;
      program, included, loads := next.program, nowIncluded, loads + next.loads;
      iteration := iteration + 1;
    }
    return Interleaved(program, loads), rounds, false;
  }

  /** The pass is some number of rounds of the reference form, begun after the prefix.
      Each file is loaded once; the entry program's statements keep their order; and
      unless all rounds were used up, nothing is left to load. */
  method Run(entry: Program, registryIsEmpty: bool, always: seq<Path>, site: Site)
    returns (result: Result<Program, string>, ghost loads: seq<Path>, ghost rounds: nat, ghost settled: bool)
    ensures registryIsEmpty ==> result == Ok(entry)
    ensures !registryIsEmpty && Prefix(always, {}, site).Broken? ==> result == Err(Prefix(always, {}, site).error)
    ensures !registryIsEmpty && Prefix(always, {}, site).Interleaved? ==>
              var prefix := Prefix(always, {}, site);
              && rounds <= 64
              && (match Rounds(rounds, prefix.program + entry, SetOf(prefix.loads), site)
                  case Broken(e) => result == Err(e)
                  case Interleaved(p, more) => result == Ok(p) && loads == prefix.loads + more)
    ensures !registryIsEmpty && result.Ok? ==>
              && Distinct(loads)
              && KeepsOrder(entry, result.value)
              && (if settled then Settled(result.value, SetOf(loads), site) else rounds == 64)
  {
    loads, rounds, settled := [], 0, false;
    if registryIsEmpty {
      return Ok(entry), [], 0, false;
    }
    var prefix, included := LoadPrefix(always, site);
    if prefix.Broken? {
      return Err(prefix.error), [], 0, false;
    }
    var outcome;
    outcome, rounds, settled := RunRounds(prefix.program + entry, prefix.loads, site);
    if outcome.Broken? {
      return Err(outcome.error), [], rounds, false;
    }
    PrefixKeepsOrder(prefix.program, entry);
    KeepsOrderTransitive(entry, prefix.program + entry, outcome.program);
    return Ok(outcome.program), prefix.loads + outcome.loads, rounds, settled;
  }
}
