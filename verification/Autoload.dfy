/** The include-once splice loop of src/autoload/mod.rs. What a file contains and
    which file a class name resolves to are given. */
module Autoload {
  import opened Prelude

  type Path = string

  /** A top-level statement: the class-like names it declares and, sorted, the ones it refers to. */
  datatype Item = Item(id: nat, declares: set<string>, refers: seq<string>)

  type Program = seq<Item>

  /** `resolve` is the resolution chain followed by canonicalisation. */
  datatype Site = Site(builtins: set<string>, resolve: string -> Option<Path>, load: Path -> Result<Program, string>)

  datatype Point = Point(index: nat, fqn: string)

  datatype Insertion = Insertion(index: nat, loaded: Program)

  // ----- what a round sees -----

  function Declared(program: Program): set<string> {
    if program == [] then {} else program[0].declares + Declared(program[1..])
  }

  function PointsAt(index: nat, refers: seq<string>): seq<Point> {
    if refers == [] then [] else [Point(index, refers[0])] + PointsAt(index, refers[1..])
  }

  function ReferencePoints(program: Program, start: nat): seq<Point> {
    if program == [] then [] else PointsAt(start, program[0].refers) + ReferencePoints(program[1..], start + 1)
  }

  /** A reference asks for a file when its class is undeclared and resolves to a file not yet in. */
  predicate Demands(fqn: string, declared: set<string>, included: set<Path>, site: Site) {
    fqn !in declared && site.resolve(fqn).Some? && site.resolve(fqn).value !in included
  }

  /** What loading the demanded files of a list of references amounts to. */
  datatype Collection = Failed(error: string) | Collected(insertions: seq<Insertion>, loads: seq<Path>)

  function Collect(points: seq<Point>, declared: set<string>, included: set<Path>, site: Site): Collection
    decreases points
  {
    if points == [] then Collected([], [])
    else if !Demands(points[0].fqn, declared, included, site) then Collect(points[1..], declared, included, site)
    else
      var path := site.resolve(points[0].fqn).value;
      match site.load(path)
      case Err(e) => Failed(e)
      case Ok(loaded) =>
        match Collect(points[1..], declared, included + {path}, site)
        case Failed(e) => Failed(e)
        case Collected(insertions, loads) =>
          Collected([Insertion(points[0].index, loaded)] + insertions, [path] + loads)
  }

  function SetOf(paths: seq<Path>): set<Path> {
    set p | p in paths
  }

  // ----- the reference form of a round -----

  /** A program in which every statement is preceded by the files it demands. */
  datatype Interleaving = Broken(error: string) | Interleaved(program: Program, loads: seq<Path>)

  function LoadedBy(insertions: seq<Insertion>): Program {
    if insertions == [] then [] else insertions[0].loaded + LoadedBy(insertions[1..])
  }

  function Interleave(program: Program, declared: set<string>, included: set<Path>, site: Site): Interleaving
    decreases program
  {
    if program == [] then Interleaved([], [])
    else
      match Collect(PointsAt(0, program[0].refers), declared, included, site)
      case Failed(e) => Broken(e)
      case Collected(insertions, loads) =>
        match Interleave(program[1..], declared, included + SetOf(loads), site)
        case Broken(e) => Broken(e)
        case Interleaved(rest, more) =>
          Interleaved(LoadedBy(insertions) + [program[0]] + rest, loads + more)
  }

  // ----- splicing -----

  predicate Sorted(insertions: seq<Insertion>, lo: nat, hi: nat) {
    && (forall i :: 0 <= i < |insertions| ==> lo <= insertions[i].index <= hi)
    && (forall i, j :: 0 <= i < j < |insertions| ==> insertions[i].index <= insertions[j].index)
  }

  /** The statements of `program` from `from` on, each insertion before its statement. */
  function Merged(program: Program, insertions: seq<Insertion>, from: nat): Program
    requires from <= |program| && Sorted(insertions, from, |program|)
    decreases insertions
  {
    if insertions == [] then program[from..]
    else
      program[from..insertions[0].index] + insertions[0].loaded
      + Merged(program, insertions[1..], insertions[0].index)
  }

  /** One splice turns the next piece of the old program into merged form. */
  lemma SpliceStep(program: Program, head: Program, prev: nat, ins: Insertion, offset: nat)
    requires prev <= ins.index <= |program| && |head| == prev + offset
    ensures var spliced, at := head + program[prev..], ins.index + offset;
            && at <= |spliced|
            && spliced[..at] + ins.loaded + spliced[at..]
              == (head + program[prev..ins.index] + ins.loaded) + program[ins.index..]
  {
    var spliced, at := head + program[prev..], ins.index + offset;
    assert program[prev..] == program[prev..ins.index] + program[ins.index..];
    assert spliced[..at] == head + program[prev..ins.index];
    assert spliced[at..] == program[ins.index..];
  }

  lemma Regroup(a: Program, b: Program, c: Program, d: Program)
    ensures a + (b + c + d) == (a + b + c) + d
  {
  }

  method Splice(program: Program, insertions: seq<Insertion>) returns (spliced: Program)
    requires Sorted(insertions, 0, |program|)
    ensures spliced == Merged(program, insertions, 0)
  {
    spliced := program;
    var offset: nat := 0;
    ghost var head: Program := [];
    ghost var prev: nat := 0;
    for k := 0 to |insertions|
      invariant prev <= |program| && Sorted(insertions[k..], prev, |program|)
      invariant spliced == head + program[prev..] && |head| == prev + offset
      invariant head + Merged(program, insertions[k..], prev) == Merged(program, insertions, 0)
    {
      var ins := insertions[k];
      assert insertions[k..][0] == ins && insertions[k..][1..] == insertions[k + 1..];
      SpliceStep(program, head, prev, ins, offset);
      Regroup(head, program[prev..ins.index], ins.loaded, Merged(program, insertions[k + 1..], ins.index));
      var insertAt := ins.index + offset;
      offset := offset + |ins.loaded|;
      spliced := spliced[..insertAt] + ins.loaded + spliced[insertAt..];
      head, prev := head + program[prev..ins.index] + ins.loaded, ins.index;
    }
    assert insertions[|insertions|..] == [];
  }

  // ----- a round is its reference form -----

  lemma {:induction false} CollectAppend(a: seq<Point>, b: seq<Point>, declared: set<string>, included: set<Path>,
    site: Site)
    ensures Collect(a + b, declared, included, site) ==
              match Collect(a, declared, included, site)
              case Failed(e) => Failed(e)
              case Collected(i1, l1) =>
                match Collect(b, declared, included + SetOf(l1), site)
                case Failed(e) => Failed(e)
                case Collected(i2, l2) => Collected(i1 + i2, l1 + l2)
    decreases a
  {
    if a == [] {
      assert a + b == b && included + SetOf([]) == included;
      if Collect(b, declared, included, site).Collected? {
        var c := Collect(b, declared, included, site);
        assert [] + c.insertions == c.insertions && [] + c.loads == c.loads;
      }
    } else {
      assert (a + b)[0] == a[0] && (a + b)[1..] == a[1..] + b;
      if !Demands(a[0].fqn, declared, included, site) {
        CollectAppend(a[1..], b, declared, included, site);
      } else {
        var path := site.resolve(a[0].fqn).value;
        if site.load(path).Ok? {
          CollectAppend(a[1..], b, declared, included + {path}, site);
          CollectAppendStep(a, b, declared, included, site);
        }
      }
    }
  }

  lemma CollectAppendStep(a: seq<Point>, b: seq<Point>, declared: set<string>, included: set<Path>, site: Site)
    requires a != [] && Demands(a[0].fqn, declared, included, site)
    requires site.load(site.resolve(a[0].fqn).value).Ok?
    ensures var path := site.resolve(a[0].fqn).value;
            Collect(a[1..], declared, included + {path}, site).Collected? ==>
              included + SetOf(Collect(a, declared, included, site).loads)
              == (included + {path}) + SetOf(Collect(a[1..], declared, included + {path}, site).loads)
  {
  }

  /** The points of one statement differ from index to index in the index alone. */
  lemma {:induction false} CollectAt(index: nat, refers: seq<string>, declared: set<string>, included: set<Path>,
    site: Site)
    ensures var c := Collect(PointsAt(index, refers), declared, included, site);
            var c0 := Collect(PointsAt(0, refers), declared, included, site);
            && (c.Failed? ==> c0 == c)
            && (c.Collected? ==>
                  && c0.Collected? && c.loads == c0.loads && LoadedBy(c.insertions) == LoadedBy(c0.insertions)
                  && forall i :: 0 <= i < |c.insertions| ==> c.insertions[i].index == index)
    decreases refers
  {
    if refers != [] {
      var p := PointsAt(index, refers);
      assert p[1..] == PointsAt(index, refers[1..]) && PointsAt(0, refers)[1..] == PointsAt(0, refers[1..]);
      if !Demands(refers[0], declared, included, site) {
        CollectAt(index, refers[1..], declared, included, site);
      } else {
        CollectAt(index, refers[1..], declared, included + {site.resolve(refers[0]).value}, site);
      }
    }
  }

  lemma MergedSkips(program: Program, later: seq<Insertion>, from: nat)
    requires from < |program| && Sorted(later, from + 1, |program|)
    ensures Sorted(later, from, |program|)
    ensures Merged(program, later, from) == [program[from]] + Merged(program, later, from + 1)
  {
    if later == [] {
      assert program[from..] == [program[from]] + program[from + 1..];
    } else {
      assert program[from..later[0].index] == [program[from]] + program[from + 1..later[0].index];
    }
  }

  lemma {:induction false} MergedHere(program: Program, here: seq<Insertion>, later: seq<Insertion>, from: nat)
    requires from < |program| && Sorted(later, from + 1, |program|)
    requires forall i :: 0 <= i < |here| ==> here[i].index == from
    ensures Sorted(here + later, from, |program|)
    ensures Merged(program, here + later, from) == LoadedBy(here) + [program[from]] + Merged(program, later, from + 1)
    decreases here
  {
    if here == [] {
      assert here + later == later;
      MergedSkips(program, later, from);
    } else {
      var others := here[1..] + later;
      assert here + later == [here[0]] + others;
      assert forall i :: 0 <= i < |here[1..]| ==> here[1..][i] == here[i + 1];
      MergedHere(program, here[1..], later, from);
      MergedAddsHere(program, here[0], others, from);
      Regroup(here[0].loaded, LoadedBy(here[1..]), [program[from]], Merged(program, later, from + 1));
    }
  }

  lemma MergedAddsHere(program: Program, first: Insertion, others: seq<Insertion>, from: nat)
    requires from < |program| && first.index == from && Sorted(others, from, |program|)
    ensures Sorted([first] + others, from, |program|)
    ensures Merged(program, [first] + others, from) == first.loaded + Merged(program, others, from)
  {
    var all := [first] + others;
    assert all[1..] == others;
    assert program[from..from] == [];
  }

  lemma {:induction false} RoundFrom(program: Program, from: nat, declared: set<string>, included: set<Path>,
    site: Site)
    requires from <= |program|
    ensures match Collect(ReferencePoints(program[from..], from), declared, included, site)
            case Failed(e) => Interleave(program[from..], declared, included, site) == Broken(e)
            case Collected(insertions, loads) =>
              Sorted(insertions, from, |program|)
              && Interleave(program[from..], declared, included, site)
                == Interleaved(Merged(program, insertions, from), loads)
    decreases |program| - from
  {
    if from < |program| {
      var rest := program[from..];
      assert rest[0] == program[from] && rest[1..] == program[from + 1..];
      var here, later := PointsAt(from, rest[0].refers), ReferencePoints(rest[1..], from + 1);
      CollectAppend(here, later, declared, included, site);
      CollectAt(from, rest[0].refers, declared, included, site);
      var c := Collect(here, declared, included, site);
      if c.Collected? {
        RoundFrom(program, from + 1, declared, included + SetOf(c.loads), site);
        var c' := Collect(later, declared, included + SetOf(c.loads), site);
        if c'.Collected? {
          MergedHere(program, c.insertions, c'.insertions, from);
        }
      }
    }
  }

  /** Collecting and splicing by offsets puts before every statement exactly the files
      it demands, in order. */
  lemma RoundIsInterleaving(program: Program, declared: set<string>, included: set<Path>, site: Site)
    ensures match Collect(ReferencePoints(program, 0), declared, included, site)
            case Failed(e) => Interleave(program, declared, included, site) == Broken(e)
            case Collected(insertions, loads) =>
              Sorted(insertions, 0, |program|)
              && Interleave(program, declared, included, site) == Interleaved(Merged(program, insertions, 0), loads)
  {
    assert program[0..] == program;
    RoundFrom(program, 0, declared, included, site);
  }
}
