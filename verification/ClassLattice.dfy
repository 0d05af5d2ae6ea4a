/** The most specific common object type (src/codegen/context.rs). */
module ClassLattice {
  import opened Prelude

  datatype ClassInfo = ClassInfo(parent: Option<string>, interfaces: seq<string>)

  /** Declared classes, and declared interfaces with their parents. */
  datatype Hierarchy = Hierarchy(classes: map<string, ClassInfo>, interfaces: map<string, seq<string>>)

  function Parent(h: Hierarchy, name: string): Option<string> {
    if name in h.classes then h.classes[name].parent else None
  }

  /** One declared `extends` or `implements`. */
  predicate Step(h: Hierarchy, a: string, b: string) {
    || Parent(h, a) == Some(b)
    || (a in h.classes && b in h.classes[a].interfaces)
    || (a in h.interfaces && b in h.interfaces[a])
  }

  ghost predicate Ranked(h: Hierarchy, height: string -> nat) {
    forall a, b :: Step(h, a, b) ==> height(b) < height(a)
  }

  /** No type is declared below itself. */
  ghost predicate Acyclic(h: Hierarchy) {
    exists height: string -> nat :: Ranked(h, height)
  }

  ghost function Heights(h: Hierarchy): (height: string -> nat)
    requires Acyclic(h)
    ensures Ranked(h, height)
  {
    var height: string -> nat :| Ranked(h, height);
    height
  }

  ghost function Height(h: Hierarchy, name: string): nat
    requires Acyclic(h)
  {
    Heights(h)(name)
  }

  // ----- subtyping, from the declarations alone -----

  ghost predicate Path(h: Hierarchy, path: seq<string>) {
    path != [] && forall i :: 0 <= i < |path| - 1 ==> Step(h, path[i], path[i + 1])
  }

  ghost predicate Connects(h: Hierarchy, path: seq<string>, a: string, b: string) {
    Path(h, path) && path[0] == a && path[|path| - 1] == b
  }

  ghost predicate Subtype(h: Hierarchy, a: string, b: string) {
    exists path :: Connects(h, path, a, b)
  }

  lemma SubtypeReflexive(h: Hierarchy, a: string)
    ensures Subtype(h, a, a)
  {
    assert Connects(h, [a], a, a);
  }

  lemma SubtypeStep(h: Hierarchy, a: string, x: string, b: string)
    requires Step(h, a, x) && Subtype(h, x, b)
    ensures Subtype(h, a, b)
  {
    var path :| Connects(h, path, x, b);
    var longer := [a] + path;
    forall i | 0 <= i < |longer| - 1 ensures Step(h, longer[i], longer[i + 1]) {
      assert i > 0 ==> longer[i] == path[i - 1] && longer[i + 1] == path[i];
    }
    assert Connects(h, longer, a, b);
  }

  lemma PathTail(h: Hierarchy, path: seq<string>)
    requires Path(h, path) && |path| > 1
    ensures Path(h, path[1..])
  {
    var rest := path[1..];
    forall i | 0 <= i < |rest| - 1 ensures Step(h, rest[i], rest[i + 1]) {
      assert Step(h, path[i + 1], path[i + 2]);
    }
  }

  lemma {:induction false} PathDescends(h: Hierarchy, path: seq<string>)
    requires Acyclic(h) && Path(h, path)
    ensures Height(h, path[|path| - 1]) + |path| <= Height(h, path[0]) + 1
  {
    if |path| > 1 {
      var rest := path[1..];
      PathTail(h, path);
      PathDescends(h, rest);
      assert Step(h, path[0], path[1]);
    }
  }

  lemma SubtypeAntisymmetric(h: Hierarchy, a: string, b: string)
    requires Acyclic(h) && Subtype(h, a, b) && Subtype(h, b, a)
    ensures a == b
  {
    var up :| Connects(h, up, a, b);
    var down :| Connects(h, down, b, a);
    PathDescends(h, up);
    PathDescends(h, down);
  }

  // ----- the tests of the code -----

  /** The class itself and its ancestors, nearest first. */
  function Ancestors(h: Hierarchy, name: string): (chain: seq<string>)
    requires Acyclic(h)
    ensures chain != [] && chain[0] == name
    decreases Height(h, name)
  {
    match Parent(h, name)
    case None => [name]
    case Some(p) =>
      assert Step(h, name, p);
      [name] + Ancestors(h, p)
  }

  predicate ProperAncestor(h: Hierarchy, name: string, ancestor: string)
    requires Acyclic(h)
  {
    ancestor in Ancestors(h, name)[1..]
  }

  method IsSubclassOf(h: Hierarchy, className: string, ancestorName: string) returns (found: bool)
    requires Acyclic(h)
    ensures found == ProperAncestor(h, className, ancestorName)
  {
    var current := Parent(h, className);
    assert current.Some? ==> Step(h, className, current.value);
    while current.Some?
      invariant ProperAncestor(h, className, ancestorName)
                <==> current.Some? && ancestorName in Ancestors(h, current.value)
      decreases if current.Some? then Height(h, current.value) + 1 else 0
    {
      var parent := current.value;
      if parent == ancestorName {
        return true;
      }
      current := Parent(h, parent);
      assert current.Some? ==> Step(h, parent, current.value);
    }
    return false;
  }

  predicate InterfaceExtends(h: Hierarchy, child: string, ancestor: string)
    requires Acyclic(h)
    decreases Height(h, child), 0
  {
    child == ancestor || (child in h.interfaces && AnyParentExtends(h, child, 0, ancestor))
  }

  predicate AnyParentExtends(h: Hierarchy, child: string, i: nat, ancestor: string)
    requires Acyclic(h) && child in h.interfaces && i <= |h.interfaces[child]|
    decreases Height(h, child), 0, |h.interfaces[child]| - i
  {
    var parents := h.interfaces[child];
    if i == |parents| then false
    else
      assert Step(h, child, parents[i]);
      parents[i] == ancestor || InterfaceExtends(h, parents[i], ancestor) || AnyParentExtends(h, child, i + 1, ancestor)
  }

  predicate ClassImplements(h: Hierarchy, className: string, interfaceName: string)
    requires Acyclic(h)
  {
    className in h.classes && exists i :: i in h.classes[className].interfaces
                                          && (i == interfaceName || InterfaceExtends(h, i, interfaceName))
  }

  /** What the code takes for "is below". */
  predicate Under(h: Hierarchy, a: string, b: string)
    requires Acyclic(h)
  {
    ProperAncestor(h, a, b) || ClassImplements(h, a, b) || InterfaceExtends(h, a, b)
  }

  function FirstIn(candidates: seq<string>, others: seq<string>): (found: Option<string>)
    ensures found.None? <==> forall c :: c in candidates ==> c !in others
    ensures found.Some? ==> found.value in candidates && found.value in others
  {
    if candidates == [] then None
    else if candidates[0] in others then Some(candidates[0])
    else FirstIn(candidates[1..], others)
  }

  function Common(h: Hierarchy, left: string, right: string): Option<string>
    requires Acyclic(h)
  {
    if left == right then Some(left)
    else if Under(h, left, right) then Some(right)
    else if Under(h, right, left) then Some(left)
    else FirstIn(Ancestors(h, right), Ancestors(h, left))
  }

  method CommonObjectType(h: Hierarchy, left: string, right: string) returns (common: Option<string>)
    requires Acyclic(h)
    ensures common == Common(h, left, right)
  {
    if left == right {
      return Some(left);
    }
    var below := IsSubclassOf(h, left, right);
    if below || ClassImplements(h, left, right) || InterfaceExtends(h, left, right) {
      return Some(right);
    }
    below := IsSubclassOf(h, right, left);
    if below || ClassImplements(h, right, left) || InterfaceExtends(h, right, left) {
      return Some(left);
    }
    var leftAncestors := {};
    var current := Some(left);
    while current.Some?
      invariant forall c :: c in Ancestors(h, left) <==>
                  c in leftAncestors || (current.Some? && c in Ancestors(h, current.value))
      decreases if current.Some? then Height(h, current.value) + 1 else 0
    {
      var className := current.value;
      leftAncestors := leftAncestors + {className};
      current := Parent(h, className);
      assert current.Some? ==> Step(h, className, current.value);
    }
    current := Some(right);
    while current.Some?
      invariant Common(h, left, right) ==
                if current.Some? then FirstIn(Ancestors(h, current.value), Ancestors(h, left)) else None
      decreases if current.Some? then Height(h, current.value) + 1 else 0
    {
      var className := current.value;
      if className in leftAncestors {
        return Some(className);
      }
      current := Parent(h, className);
      assert current.Some? ==> Step(h, className, current.value);
    }
    return None;
  }

  // ----- the tests are sound -----

  lemma {:induction false} AncestorIsSupertype(h: Hierarchy, name: string, ancestor: string)
    requires Acyclic(h) && ancestor in Ancestors(h, name)
    ensures Subtype(h, name, ancestor)
    decreases Height(h, name)
  {
    if name == ancestor {
      SubtypeReflexive(h, name);
    } else {
      var p := Parent(h, name).value;
      assert Step(h, name, p);
      AncestorIsSupertype(h, p, ancestor);
      SubtypeStep(h, name, p, ancestor);
    }
  }

  lemma {:induction false} ExtendsIsSupertype(h: Hierarchy, child: string, ancestor: string)
    requires Acyclic(h) && InterfaceExtends(h, child, ancestor)
    ensures Subtype(h, child, ancestor)
    decreases Height(h, child), 0
  {
    if child == ancestor {
      SubtypeReflexive(h, child);
    } else {
      AnyParentIsSupertype(h, child, 0, ancestor);
    }
  }

  lemma {:induction false} AnyParentIsSupertype(h: Hierarchy, child: string, i: nat, ancestor: string)
    requires Acyclic(h) && child in h.interfaces && i <= |h.interfaces[child]|
             && AnyParentExtends(h, child, i, ancestor)
    ensures Subtype(h, child, ancestor)
    decreases Height(h, child), 0, |h.interfaces[child]| - i
  {
    var p := h.interfaces[child][i];
    assert Step(h, child, p);
    if p == ancestor || InterfaceExtends(h, p, ancestor) {
      ExtendsIsSupertype(h, p, ancestor);
      SubtypeStep(h, child, p, ancestor);
    } else {
      AnyParentIsSupertype(h, child, i + 1, ancestor);
    }
  }

  lemma UnderIsSupertype(h: Hierarchy, a: string, b: string)
    requires Acyclic(h) && Under(h, a, b)
    ensures Subtype(h, a, b)
  {
    if ProperAncestor(h, a, b) {
      AncestorIsSupertype(h, a, b);
    } else if ClassImplements(h, a, b) {
      var i :| i in h.classes[a].interfaces && (i == b || InterfaceExtends(h, i, b));
      assert Step(h, a, i);
      ExtendsIsSupertype(h, i, b);
      SubtypeStep(h, a, i, b);
    } else {
      ExtendsIsSupertype(h, a, b);
    }
  }

  // ----- and complete, on hierarchies that the type checker builds -----

  /** Classes extend classes; what they implement, and what interfaces extend, are no
      classes; a class lists the interfaces of its parent (src/types/checker/schema). */
  ghost predicate Checked(h: Hierarchy) {
    && (forall c :: c in h.classes && Parent(h, c).Some? ==> Parent(h, c).value !in h.interfaces)
    && (forall c, i :: c in h.classes && i in h.classes[c].interfaces ==> i !in h.classes)
    && (forall i, p :: i in h.interfaces && p in h.interfaces[i] ==> p !in h.classes)
    && (forall c, i ::
          (c in h.classes && Parent(h, c).Some? && Parent(h, c).value in h.classes
           && i in h.classes[Parent(h, c).value].interfaces)
          ==> i in h.classes[c].interfaces)
  }

  lemma {:induction false} ParentExtends(h: Hierarchy, child: string, i: nat, k: nat, ancestor: string)
    requires Acyclic(h) && child in h.interfaces && i <= k < |h.interfaces[child]|
    requires InterfaceExtends(h, h.interfaces[child][k], ancestor)
    ensures AnyParentExtends(h, child, i, ancestor)
    decreases k - i
  {
    assert Step(h, child, h.interfaces[child][i]);
    if i < k {
      ParentExtends(h, child, i + 1, k, ancestor);
    }
  }

  lemma UnderStep(h: Hierarchy, a: string, x: string, b: string)
    requires Acyclic(h) && Checked(h) && Step(h, a, x) && (x == b || Under(h, x, b))
    ensures Under(h, a, b)
  {
    if Parent(h, a) == Some(x) {
      assert Ancestors(h, a)[1..] == Ancestors(h, x);
    } else if a in h.classes && x in h.classes[a].interfaces {
      assert Ancestors(h, x) == [x];
      assert InterfaceExtends(h, x, b);
    } else {
      var k :| 0 <= k < |h.interfaces[a]| && h.interfaces[a][k] == x;
      assert Ancestors(h, x) == [x];
      ParentExtends(h, a, 0, k, b);
    }
  }

  lemma {:induction false} PathUnder(h: Hierarchy, path: seq<string>, a: string, b: string)
    requires Acyclic(h) && Checked(h) && Connects(h, path, a, b)
    ensures a == b || Under(h, a, b)
    decreases |path|
  {
    if |path| > 1 {
      var rest := path[1..];
      PathTail(h, path);
      assert Connects(h, rest, path[1], b);
      PathUnder(h, rest, path[1], b);
      assert Step(h, path[0], path[1]);
      UnderStep(h, a, path[1], b);
    }
  }

  /** The three tests together decide subtyping. */
  lemma UnderExact(h: Hierarchy, a: string, b: string)
    requires Acyclic(h) && Checked(h)
    ensures Subtype(h, a, b) <==> a == b || Under(h, a, b)
  {
    if Subtype(h, a, b) {
      var path :| Connects(h, path, a, b);
      PathUnder(h, path, a, b);
    } else {
      SubtypeReflexive(h, a);
      if Under(h, a, b) {
        UnderIsSupertype(h, a, b);
      }
    }
  }

  lemma {:induction false} ExtendsNoClass(h: Hierarchy, child: string, ancestor: string)
    requires Acyclic(h) && Checked(h) && InterfaceExtends(h, child, ancestor)
    ensures child == ancestor || ancestor !in h.classes
    decreases Height(h, child), 0
  {
    if child != ancestor {
      AnyParentNoClass(h, child, 0, ancestor);
    }
  }

  lemma {:induction false} AnyParentNoClass(h: Hierarchy, child: string, i: nat, ancestor: string)
    requires Acyclic(h) && Checked(h) && child in h.interfaces && i <= |h.interfaces[child]|
             && AnyParentExtends(h, child, i, ancestor)
    ensures ancestor !in h.classes
    decreases Height(h, child), 0, |h.interfaces[child]| - i
  {
    var p := h.interfaces[child][i];
    assert Step(h, child, p);
    if InterfaceExtends(h, p, ancestor) {
      ExtendsNoClass(h, p, ancestor);
    } else {
      AnyParentNoClass(h, child, i + 1, ancestor);
    }
  }

  /** The supertypes that are classes are the ancestors. */
  lemma ClassSupertypes(h: Hierarchy, a: string, u: string)
    requires Acyclic(h) && Checked(h) && Subtype(h, a, u) && u in h.classes
    ensures u in Ancestors(h, a)
  {
    UnderExact(h, a, u);
    if a != u && !ProperAncestor(h, a, u) {
      if InterfaceExtends(h, a, u) {
        ExtendsNoClass(h, a, u);
      } else {
        var i :| i in h.classes[a].interfaces && (i == u || InterfaceExtends(h, i, u));
        ExtendsNoClass(h, i, u);
      }
    }
  }

  // ----- common ancestors -----

  /** The first ancestor of one side found among the other's is below every other
      common ancestor. */
  lemma {:induction false} FirstIsLowest(h: Hierarchy, left: string, right: string, u: string)
    requires Acyclic(h) && u in Ancestors(h, right) && u in Ancestors(h, left)
    ensures var first := FirstIn(Ancestors(h, right), Ancestors(h, left));
            first.Some? && u in Ancestors(h, first.value)
    decreases Height(h, right)
  {
    if right !in Ancestors(h, left) {
      var p := Parent(h, right).value;
      assert Step(h, right, p);
      FirstIsLowest(h, left, p, u);
    }
  }

  lemma FirstInSymmetric(h: Hierarchy, left: string, right: string)
    requires Acyclic(h)
    ensures FirstIn(Ancestors(h, right), Ancestors(h, left)) == FirstIn(Ancestors(h, left), Ancestors(h, right))
  {
    var a, b := FirstIn(Ancestors(h, right), Ancestors(h, left)), FirstIn(Ancestors(h, left), Ancestors(h, right));
    if a.Some? && b.Some? {
      FirstIsLowest(h, left, right, b.value);
      FirstIsLowest(h, right, left, a.value);
      AncestorIsSupertype(h, a.value, b.value);
      AncestorIsSupertype(h, b.value, a.value);
      SubtypeAntisymmetric(h, a.value, b.value);
    }
  }

  // ----- the result -----

  lemma CommonIsSymmetric(h: Hierarchy, left: string, right: string)
    requires Acyclic(h)
    ensures Common(h, left, right) == Common(h, right, left)
  {
    FirstInSymmetric(h, left, right);
    if left != right && Under(h, left, right) && Under(h, right, left) {
      UnderIsSupertype(h, left, right);
      UnderIsSupertype(h, right, left);
      SubtypeAntisymmetric(h, left, right);
    }
  }

  lemma CommonIsSupertype(h: Hierarchy, left: string, right: string)
    requires Acyclic(h) && Common(h, left, right).Some?
    ensures Subtype(h, left, Common(h, left, right).value) && Subtype(h, right, Common(h, left, right).value)
  {
    SubtypeReflexive(h, left);
    SubtypeReflexive(h, right);
    if left != right {
      if Under(h, left, right) {
        UnderIsSupertype(h, left, right);
      } else if Under(h, right, left) {
        UnderIsSupertype(h, right, left);
      } else {
        AncestorIsSupertype(h, left, Common(h, left, right).value);
        AncestorIsSupertype(h, right, Common(h, left, right).value);
      }
    }
  }

  ghost predicate CommonSupertype(h: Hierarchy, left: string, right: string, u: string) {
    Subtype(h, left, u) && Subtype(h, right, u)
  }

  /** The result is the least common supertype when one side is a supertype of the other,
      and below every class that is a common supertype in any case. */
  lemma CommonIsLeast(h: Hierarchy, left: string, right: string, u: string)
    requires Acyclic(h) && Checked(h) && CommonSupertype(h, left, right, u)
    requires u in h.classes || Subtype(h, left, right) || Subtype(h, right, left)
    ensures Common(h, left, right).Some? && Subtype(h, Common(h, left, right).value, u)
  {
    UnderExact(h, left, right);
    UnderExact(h, right, left);
    if left != right && !Under(h, left, right) && !Under(h, right, left) {
      ClassSupertypes(h, left, u);
      ClassSupertypes(h, right, u);
      FirstIsLowest(h, left, right, u);
      AncestorIsSupertype(h, Common(h, left, right).value, u);
    }
  }

  /** No result means unrelated types without a common ancestor class. */
  lemma NoCommonExact(h: Hierarchy, left: string, right: string)
    requires Acyclic(h) && Checked(h)
    ensures Common(h, left, right).None? <==>
              !Subtype(h, left, right) && !Subtype(h, right, left)
              && forall u :: u in Ancestors(h, left) ==> u !in Ancestors(h, right)
  {
    UnderExact(h, left, right);
    UnderExact(h, right, left);
  }
}
