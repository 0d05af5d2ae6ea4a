/** Where one backtrack point is not enough: every pattern outside `Resolvable`
    misses some path it matches. */
module GlobLimits {
  import opened Prelude
  import opened Glob
  import opened GlobExact

  const LETTER: Byte := 120

  /** A path matched by the pattern with every star standing for nothing. */
  function Instance(p: Bytes): Bytes
    decreases |p|
  {
    if p == [] then []
    else if p[0] == STAR then Instance(AfterStar(p))
    else [ByteFor(p[0])] + Instance(p[1..])
  }

  function ByteFor(pb: Byte): (sb: Byte)
    ensures ByteMatches(pb, sb)
  {
    if pb == QUESTION then LETTER else pb
  }

  lemma {:induction false} InstanceMatches(p: Bytes)
    ensures Matches(p, Instance(p))
    decreases |p|
  {
    if p != [] {
      var s := Instance(p);
      if p[0] == STAR {
        InstanceMatches(AfterStar(p));
        assert s[..0] == [] && s[0..] == s;
      } else {
        InstanceMatches(p[1..]);
        assert s[1..] == Instance(p[1..]);
      }
    }
  }

  lemma {:induction false} NullableMatchesNothing(p: Bytes)
    requires Nullable(p)
    ensures Matches(p, [])
    decreases |p|
  {
    if p != [] {
      NullableMatchesNothing(AfterStar(p));
      var s: Bytes := [];
      assert s[..0] == [] && s[0..] == s;
    }
  }

  /** A leading star may stand for nothing. */
  lemma EmptyStar(p: Bytes, s: Bytes)
    requires p != [] && p[0] == STAR && Matches(AfterStar(p), s)
    ensures Matches(p, s)
  {
    assert s[..0] == [] && s[0..] == s;
  }

  /** What has been read of the pattern since its last `**`, at index r, matches m. */
  ghost predicate Read(p: Bytes, r: nat, pi: nat, m: Bytes)
    requires r <= pi <= |p|
  {
    forall x: Bytes :: Matches(p[pi..], x) ==> Matches(p[r..], m + x)
  }

  /** A byte the pattern does not accept next, if it goes on with no star. */
  function Stopper(p: Bytes, pi: nat): Byte {
    if pi < |p| && p[pi] == SLASH then LETTER else SLASH
  }

  /** At a `*` behind a `**` that does not resolve: a path on which the matcher fails
      for having committed to the first place, although a later place would do. */
  lemma StuckAtStar(p: Bytes, pi: nat, w: Bytes, back: Backtrack, r: nat, m: Bytes) returns (t: Bytes)
    requires pi < |p| && p[pi] == STAR && !DoubleAt(p, pi) && ValidBacktrack(p, pi, |w|, back)
    requires !SlashThenStar(p[pi + 1..])
    requires r <= pi && Read(p, r, pi, m)
    ensures !Resume(p, w + t, pi, |w|, back)
    ensures exists k :: 0 <= k <= |m + t| && Matches(p[r..], (m + t)[k..])
  {
    var c := Instance(p[pi..]);
    InstanceMatches(p[pi..]);
    t := [SLASH, Stopper(p, pi + 2)] + (m + c);
    var k := |m| + 2;
    assert (m + t)[k..] == m + c;

    var s := w + t;
    assert s[|w|] == SLASH && s[|w| + 1] == Stopper(p, pi + 2);
    var star := LastStar(pi, |w|, false);
    if pi + 1 < |p| && p[pi + 1] == SLASH {
      RestIndexIsAfterStar(p, pi);
      var q := p[pi + 1..];
      assert q[0] == SLASH && c == Instance(q) == [ByteFor(q[0])] + Instance(q[1..]);
      assert !Resume(p, s, pi + 2, |w| + 1, star);
    }
    assert !Resume(p, s, pi + 1, |w|, star);
  }

  /** `t` makes the matcher fail from here although it completes a match of what
      has been read: behind a `**` the match may start later. */
  ghost predicate Misses(p: Bytes, pi: nat, w: Bytes, back: Backtrack, behindDouble: bool, r: nat, m: Bytes, t: Bytes)
    requires r <= pi <= |p| && ValidBacktrack(p, pi, |w|, back)
  {
    && !Resume(p, w + t, pi, |w|, back)
    && if behindDouble then exists k :: 0 <= k <= |m + t| && Matches(p[r..], (m + t)[k..])
       else Matches(p[r..], m + t)
  }

  /** From a state reached by standing every star for nothing. */
  lemma {:induction false} Stuck(p: Bytes, pi: nat, w: Bytes, back: Backtrack, behindDouble: bool, r: nat, m: Bytes)
    returns (t: Bytes)
    requires pi <= |p| && ValidBacktrack(p, pi, |w|, back)
    requires !Resolvable(p[pi..], behindDouble)
    requires r <= pi && Read(p, r, pi, m)
    ensures Misses(p, pi, w, back, behindDouble, r, m, t)
    decreases |p| - pi, 1
  {
    hide Resume, Read, Matches;
    if p[pi] != STAR {
      var b := ByteFor(p[pi]);
      assert p[pi..][1..] == p[pi + 1..];
      ReadFurther(p, r, pi, m);
      var t' := Stuck(p, pi + 1, w + [b], back, behindDouble, r, m + [b]);
      t := [b] + t';
      ByteStep(p, w, t', pi, back);
      assert (m + [b]) + t' == m + t;
    } else {
      RestIndexIsAfterStar(p, pi);
      if DoubleAt(p, pi) {
        t := StuckAtDouble(p, pi, w, back, behindDouble, r, m);
      } else {
        t := StuckAtSingle(p, pi, w, back, behindDouble, r, m);
      }
    }
  }

  lemma StuckAtDouble(p: Bytes, pi: nat, w: Bytes, back: Backtrack, behindDouble: bool, r: nat, m: Bytes)
    returns (t: Bytes)
    requires pi < |p| && DoubleAt(p, pi) && ValidBacktrack(p, pi, |w|, back)
    requires !Resolvable(p[pi..], behindDouble)
    requires r <= pi && Read(p, r, pi, m)
    ensures Misses(p, pi, w, back, behindDouble, r, m, t)
    decreases |p| - pi, 0
  {
    RestIndexIsAfterStar(p, pi);
    var q := p[pi..];
    if TakesSlash(q) && Nullable(AfterStar(q)) {
      t := [];
      NullableMatchesNothing(q);
      assert w + t == w && p[pi + 2] == SLASH;
    } else {
      var rest := RestIndex(p, pi);
      assert forall x: Bytes :: [] + x == x;
      t := Stuck(p, rest, w, LastStar(pi, |w|, true), true, rest, []);
      StarStep(p, w, t, pi, back);
      assert [] + t == t;
      var k :| 0 <= k <= |t| && Matches(p[rest..], t[k..]);
      assert Matches(q, t);
    }
    assert Matches(p[r..], m + t);
    assert (m + t)[0..] == m + t;
  }

  lemma StuckAtSingle(p: Bytes, pi: nat, w: Bytes, back: Backtrack, behindDouble: bool, r: nat, m: Bytes)
    returns (t: Bytes)
    requires pi < |p| && p[pi] == STAR && !DoubleAt(p, pi) && ValidBacktrack(p, pi, |w|, back)
    requires !Resolvable(p[pi..], behindDouble)
    requires r <= pi && Read(p, r, pi, m)
    ensures Misses(p, pi, w, back, behindDouble, r, m, t)
    decreases |p| - pi, 0
  {
    RestIndexIsAfterStar(p, pi);
    var q := p[pi..];
    assert q[1..] == p[pi + 1..];
    if behindDouble && !SlashThenStar(q[1..]) {
      t := StuckAtStar(p, pi, w, back, r, m);
    } else {
      forall x: Bytes | Matches(p[pi + 1..], x) ensures Matches(p[r..], m + x) {
        EmptyStar(q, x);
      }
      t := Stuck(p, pi + 1, w, LastStar(pi, |w|, false), behindDouble, r, m);
      StarStep(p, w, t, pi, back);
    }
  }

  lemma StarStep(p: Bytes, w: Bytes, t: Bytes, pi: nat, back: Backtrack)
    requires pi < |p| && p[pi] == STAR && ValidBacktrack(p, pi, |w|, back)
    requires !Resume(p, w + t, RestIndex(p, pi), |w|, LastStar(pi, |w|, DoubleAt(p, pi)))
    ensures !Resume(p, w + t, pi, |w|, back)
  {
  }

  lemma ReadFurther(p: Bytes, r: nat, pi: nat, m: Bytes)
    requires r <= pi < |p| && p[pi] != STAR && Read(p, r, pi, m)
    ensures Read(p, r, pi + 1, m + [ByteFor(p[pi])])
  {
    var b := ByteFor(p[pi]);
    forall x: Bytes | Matches(p[pi + 1..], x) ensures Matches(p[r..], (m + [b]) + x) {
      assert p[pi..][1..] == p[pi + 1..];
      assert ([b] + x)[1..] == x;
      assert Matches(p[pi..], [b] + x);
      assert (m + [b]) + x == m + ([b] + x);
    }
  }

  lemma ByteStep(p: Bytes, w: Bytes, t: Bytes, pi: nat, back: Backtrack)
    requires pi < |p| && p[pi] != STAR && ValidBacktrack(p, pi, |w|, back)
    requires !Resume(p, (w + [ByteFor(p[pi])]) + t, pi + 1, |w| + 1, back)
    ensures !Resume(p, w + ([ByteFor(p[pi])] + t), pi, |w|, back)
  {
    assert (w + [ByteFor(p[pi])]) + t == w + ([ByteFor(p[pi])] + t);
  }

  /** An unresolvable pattern misses some path. */
  lemma UnresolvableMisses(p: Bytes) returns (s: Bytes)
    requires !Resolvable(p, false)
    ensures Matches(p, s) && !GlobMatch(p, s)
  {
    assert p[0..] == p;
    assert forall x: Bytes :: [] + x == x;
    s := Stuck(p, 0, [], NoStar, false, 0, []);
    assert [] + s == s;
  }

  /** The matcher decides matching on every path for exactly the resolvable patterns. */
  lemma ExactlyTheResolvablePatterns(p: Bytes)
    ensures (forall s :: GlobMatch(p, s) <==> Matches(p, s)) <==> Resolvable(p, false)
  {
    if Resolvable(p, false) {
      forall s ensures GlobMatch(p, s) <==> Matches(p, s) {
        if Matches(p, s) {
          MatcherIsComplete(p, s);
        }
        if GlobMatch(p, s) {
          MatcherIsSound(p, s);
        }
      }
    } else {
      var s := UnresolvableMisses(p);
    }
  }

  // ----- two familiar classes and one surprise -----

  /** No two stars stand next to each other. */
  predicate OnlySingleStars(p: Bytes) {
    forall i :: 0 <= i < |p| - 1 ==> !(p[i] == STAR && p[i + 1] == STAR)
  }

  lemma {:induction false} SingleStarsResolve(p: Bytes)
    requires OnlySingleStars(p)
    ensures Resolvable(p, false)
    decreases |p|
  {
    if p != [] {
      assert forall i :: 0 <= i < |p[1..]| - 1 ==> p[1..][i] == p[i + 1];
      SingleStarsResolve(p[1..]);
    }
  }

  /** Every star is half of a `**`, and no `**` with its slash ends in a nullable rest. */
  predicate OnlyDoubleStars(p: Bytes)
    decreases |p|
  {
    if p == [] then true
    else if p[0] != STAR then OnlyDoubleStars(p[1..])
    else IsDouble(p) && !(TakesSlash(p) && Nullable(AfterStar(p))) && OnlyDoubleStars(AfterStar(p))
  }

  lemma {:induction false} DoubleStarsResolve(p: Bytes, behindDouble: bool)
    requires OnlyDoubleStars(p)
    ensures Resolvable(p, behindDouble)
    decreases |p|
  {
    if p != [] {
      if p[0] == STAR {
        DoubleStarsResolve(AfterStar(p), true);
      } else {
        DoubleStarsResolve(p[1..], behindDouble);
      }
    }
  }

  /** The pattern `**` slash `*` rejects the path a/b, which it matches. */
  lemma DirectoryThenFileRejected()
    ensures var p, s := [STAR, STAR, SLASH, STAR], [97, SLASH, 98];
            Matches(p, s) && !GlobMatch(p, s)
  {
    var p, s: Bytes := [STAR, STAR, SLASH, STAR], [97, SLASH, 98];
    assert AfterStar(p) == [STAR] && AfterStar([STAR]) == [];
    var tail: Bytes := [98];
    assert tail[..1] == tail && tail[1..] == [];
    assert Matches([STAR], tail);
    assert s[2..] == tail;
    assert Matches(p, s);
    assert !Resume(p, s, 4, 1, LastStar(3, 1, false));
    assert !Resume(p, s, 4, 0, LastStar(3, 0, false));
    assert !Resume(p, s, 3, 0, LastStar(0, 0, true));
  }
}
