/** The matcher against the meaning of its patterns. */
module GlobExact {
  import opened Glob

  // ----- matching a suffix of the pattern against a suffix of the path -----

  ghost predicate MatchesFrom(p: Bytes, pi: nat, s: Bytes, si: nat)
    requires pi <= |p| && si <= |s|
  {
    Matches(p[pi..], s[si..])
  }

  lemma SplitSuffix(s: Bytes, si: nat, k: nat)
    requires si + k <= |s|
    ensures s[si..][..k] == s[si..si + k] && s[si..][k..] == s[si + k..]
  {
  }

  /** A star stretches over the path from `si` to `j`. */
  ghost predicate Stretches(p: Bytes, pi: nat, s: Bytes, si: nat, j: nat)
    requires pi < |p| && p[pi] == STAR && si <= |s|
  {
    si <= j <= |s| && (DoubleAt(p, pi) || SlashFree(s[si..j])) && MatchesFrom(p, RestIndex(p, pi), s, j)
  }

  lemma StarTo(p: Bytes, pi: nat, s: Bytes, si: nat, j: nat)
    requires pi < |p| && p[pi] == STAR && si <= |s| && Stretches(p, pi, s, si, j)
    ensures MatchesFrom(p, pi, s, si)
  {
    RestIndexIsAfterStar(p, pi);
    SplitSuffix(s, si, j - si);
    hide SlashFree, DoubleAt, IsDouble, RestIndex, AfterStar;
    var q, t, k := p[pi..], s[si..], j - si;
    assert (IsDouble(q) || SlashFree(t[..k])) && Matches(AfterStar(q), t[k..]);
  }

  lemma StarSplits(p: Bytes, pi: nat, s: Bytes, si: nat) returns (j: nat)
    requires pi < |p| && p[pi] == STAR && si <= |s| && MatchesFrom(p, pi, s, si)
    ensures Stretches(p, pi, s, si, j)
  {
    RestIndexIsAfterStar(p, pi);
    var q, t := p[pi..], s[si..];
    hide SlashFree, DoubleAt, IsDouble, RestIndex, AfterStar;
    var k :| 0 <= k <= |t| && (IsDouble(q) || SlashFree(t[..k])) && Matches(AfterStar(q), t[k..]);
    SplitSuffix(s, si, k);
    j := si + k;
  }

  lemma StarFrom(p: Bytes, pi: nat, s: Bytes, si: nat)
    requires pi < |p| && p[pi] == STAR && si <= |s|
    ensures MatchesFrom(p, pi, s, si) <==>
              exists j :: si <= j <= |s| && (DoubleAt(p, pi) || SlashFree(s[si..j]))
                && MatchesFrom(p, RestIndex(p, pi), s, j)
  {
    hide MatchesFrom, SlashFree, DoubleAt, RestIndex;
    if MatchesFrom(p, pi, s, si) {
      var j := StarSplits(p, pi, s, si);
    }
    if j :| si <= j <= |s| && (DoubleAt(p, pi) || SlashFree(s[si..j])) && MatchesFrom(p, RestIndex(p, pi), s, j) {
      StarTo(p, pi, s, si, j);
    }
  }

  lemma ByteFrom(p: Bytes, pi: nat, s: Bytes, si: nat)
    requires pi < |p| && p[pi] != STAR && si <= |s|
    ensures MatchesFrom(p, pi, s, si) <==> si < |s| && ByteMatches(p[pi], s[si]) && MatchesFrom(p, pi + 1, s, si + 1)
  {
    assert p[pi..][1..] == p[pi + 1..];
    if si < |s| {
      assert s[si..][1..] == s[si + 1..];
    }
  }

  /** No star in the pattern between `a` and `b`. */
  predicate StarFree(p: Bytes, a: nat, b: nat)
    requires a <= b <= |p|
  {
    forall x :: a <= x < b ==> p[x] != STAR
  }

  /** The pattern between `a` and `b`, laid over the path from `j` on. */
  ghost predicate Stretch(p: Bytes, a: nat, b: nat, s: Bytes, j: nat)
    requires a <= b <= |p|
  {
    && j + (b - a) <= |s|
    && forall x :: a <= x < b ==> ByteMatches(p[x], s[j + (x - a)])
  }

  lemma {:induction false} StretchFrom(p: Bytes, a: nat, b: nat, s: Bytes, j: nat)
    requires a <= b <= |p| && j <= |s| && StarFree(p, a, b)
    ensures MatchesFrom(p, a, s, j) <==> Stretch(p, a, b, s, j) && MatchesFrom(p, b, s, j + (b - a))
    decreases b - a
  {
    if a < b {
      ByteFrom(p, a, s, j);
      if j < |s| {
        StretchFrom(p, a + 1, b, s, j + 1);
        StretchStep(p, a, b, s, j);
      }
    }
  }

  lemma StretchStep(p: Bytes, a: nat, b: nat, s: Bytes, j: nat)
    requires a < b <= |p| && j < |s|
    ensures Stretch(p, a, b, s, j) <==> ByteMatches(p[a], s[j]) && Stretch(p, a + 1, b, s, j + 1)
  {
    if Stretch(p, a, b, s, j) {
      assert ByteMatches(p[a], s[j + (a - a)]);
      forall x | a + 1 <= x < b ensures ByteMatches(p[x], s[j + 1 + (x - (a + 1))]) {
        assert ByteMatches(p[x], s[j + (x - a)]);
      }
    }
    if ByteMatches(p[a], s[j]) && Stretch(p, a + 1, b, s, j + 1) {
      forall x | a <= x < b ensures ByteMatches(p[x], s[j + (x - a)]) {
        assert x > a ==> ByteMatches(p[x], s[j + 1 + (x - (a + 1))]);
      }
    }
  }

  // ----- what a state of the loop stands for -----

  /** The bytes between the last star and the current position are matched. */
  ghost predicate Laid(p: Bytes, s: Bytes, pi: nat, si: nat, back: Backtrack)
    requires pi <= |p| && si <= |s| && ValidBacktrack(p, pi, si, back)
  {
    back.LastStar? ==> StarFree(p, RestIndex(p, back.at), pi) && Stretch(p, RestIndex(p, back.at), pi, s, back.from)
  }

  /** Some way of stretching the last star further matches the rest. */
  ghost predicate Alive(p: Bytes, s: Bytes, pi: nat, si: nat, back: Backtrack)
    requires pi <= |p| && si <= |s| && ValidBacktrack(p, pi, si, back)
  {
    match back
    case NoStar => MatchesFrom(p, pi, s, si)
    case LastStar(at, from, double) =>
      exists j :: from <= j <= |s| && (double || SlashFree(s[from..j])) && MatchesFrom(p, RestIndex(p, at), s, j)
  }

  lemma AliveHere(p: Bytes, s: Bytes, pi: nat, si: nat, back: Backtrack)
    requires pi <= |p| && si <= |s| && ValidBacktrack(p, pi, si, back) && Laid(p, s, pi, si, back)
    requires MatchesFrom(p, pi, s, si)
    ensures Alive(p, s, pi, si, back)
  {
    if back.LastStar? {
      StretchFrom(p, RestIndex(p, back.at), pi, s, back.from);
      assert SlashFree(s[back.from..back.from]);
    }
  }

  lemma LaidFurther(p: Bytes, s: Bytes, pi: nat, si: nat, back: Backtrack)
    requires pi < |p| && si < |s| && ValidBacktrack(p, pi, si, back) && Laid(p, s, pi, si, back)
    requires p[pi] != STAR && ByteMatches(p[pi], s[si])
    ensures Laid(p, s, pi + 1, si + 1, back)
  {
  }

  lemma {:induction false} StarsMatchNothing(p: Bytes, i: nat, s: Bytes)
    requires i <= |p| && AllStars(p, i)
    ensures MatchesFrom(p, i, s, |s|)
    decreases |p| - i
  {
    if i < |p| {
      StarsMatchNothing(p, RestIndex(p, i), s);
      assert SlashFree(s[|s|..|s|]);
      StarFrom(p, i, s, |s|);
    }
  }

  lemma {:induction false} ResumeSound(p: Bytes, s: Bytes, pi: nat, si: nat, back: Backtrack)
    requires pi <= |p| && si <= |s| && ValidBacktrack(p, pi, si, back) && Laid(p, s, pi, si, back)
    requires Resume(p, s, pi, si, back)
    ensures Alive(p, s, pi, si, back)
    decreases if back.LastStar? then |p| - back.at else |p| + 1, if back.LastStar? then |s| - back.from else 0, |p| - pi
  {
    hide MatchesFrom, ByteMatches;
    if si == |s| {
      StarsMatchNothing(p, pi, s);
      AliveHere(p, s, pi, si, back);
    } else if pi < |p| && p[pi] == STAR {
      ResumeSound(p, s, RestIndex(p, pi), si, LastStar(pi, si, DoubleAt(p, pi)));
      StarFrom(p, pi, s, si);
      AliveHere(p, s, pi, si, back);
    } else if pi < |p| && ByteMatches(p[pi], s[si]) {
      LaidFurther(p, s, pi, si, back);
      ResumeSound(p, s, pi + 1, si + 1, back);
      ByteFrom(p, pi, s, si);
    } else {
      var at, from := back.at, back.from;
      ResumeSound(p, s, RestIndex(p, at), from + 1, LastStar(at, from + 1, back.double));
      var j :| from + 1 <= j <= |s| && (back.double || SlashFree(s[from + 1..j]))
        && MatchesFrom(p, RestIndex(p, at), s, j);
      assert s[from..j] == [s[from]] + s[from + 1..j];
    }
  }

  /** Whatever the pattern, a positive answer is a match. */
  lemma MatcherIsSound(p: Bytes, s: Bytes)
    requires GlobMatch(p, s)
    ensures Matches(p, s)
  {
    ResumeSound(p, s, 0, 0, NoStar);
    assert p[0..] == p && s[0..] == s;
  }

  // ----- the patterns the single backtrack point resolves -----

  predicate TakesSlash(p: Bytes) {
    IsDouble(p) && |p| > 2 && p[2] == SLASH
  }

  /** The pattern matches the empty path. */
  predicate Nullable(p: Bytes)
    decreases |p|
  {
    p == [] || (p[0] == STAR && Nullable(AfterStar(p)))
  }

  predicate SlashThenStar(p: Bytes) {
    |p| >= 2 && p[0] == SLASH && p[1] == STAR
  }

  /** Reading left to right: a `*` behind a `**` is followed by a slash and another
      star, and a `**` that takes a slash is followed by something that needs a byte. */
  predicate Resolvable(p: Bytes, behindDouble: bool)
    decreases |p|
  {
    if p == [] then true
    else if p[0] != STAR then Resolvable(p[1..], behindDouble)
    else if IsDouble(p) then !(TakesSlash(p) && Nullable(AfterStar(p))) && Resolvable(AfterStar(p), true)
    else (behindDouble ==> SlashThenStar(p[1..])) && Resolvable(p[1..], behindDouble)
  }

  lemma {:induction false} EmptyMatchIsAllStars(p: Bytes, i: nat, s: Bytes, behindDouble: bool)
    requires i <= |p| && MatchesFrom(p, i, s, |s|) && Resolvable(p[i..], behindDouble)
    ensures AllStars(p, i) && Nullable(p[i..])
    decreases |p| - i
  {
    if i < |p| {
      if p[i] != STAR {
        ByteFrom(p, i, s, |s|);
      }
      StarFrom(p, i, s, |s|);
      RestIndexIsAfterStar(p, i);
      EmptyMatchIsAllStars(p, RestIndex(p, i), s, if DoubleAt(p, i) then true else behindDouble);
    }
  }

  /** The first slash of the path from `lo` on. */
  lemma {:induction false} FirstSlash(s: Bytes, lo: nat, hi: nat) returns (f: nat)
    requires lo <= hi < |s| && s[hi] == SLASH
    ensures lo <= f <= hi && s[f] == SLASH && SlashFree(s[lo..f])
    decreases hi - lo
  {
    if s[lo] == SLASH {
      f := lo;
    } else {
      f := FirstSlash(s, lo + 1, hi);
      assert s[lo..f] == [s[lo]] + s[lo + 1..f];
    }
  }

  lemma DoubleStarExtendsLeft(p: Bytes, pi: nat, s: Bytes, lo: nat, hi: nat)
    requires pi < |p| && DoubleAt(p, pi) && lo <= hi <= |s| && MatchesFrom(p, pi, s, hi)
    ensures MatchesFrom(p, pi, s, lo)
  {
    StarFrom(p, pi, s, lo);
    StarFrom(p, pi, s, hi);
  }

  /** A `*` followed by a slash stretches exactly to the next slash. */
  lemma StarSlashFrom(p: Bytes, pi: nat, s: Bytes, si: nat) returns (j: nat)
    requires pi + 1 < |p| && p[pi] == STAR && p[pi + 1] == SLASH && si <= |s| && MatchesFrom(p, pi, s, si)
    ensures si <= j < |s| && s[j] == SLASH && SlashFree(s[si..j]) && MatchesFrom(p, pi + 2, s, j + 1)
  {
    StarFrom(p, pi, s, si);
    j :| si <= j <= |s| && SlashFree(s[si..j]) && MatchesFrom(p, pi + 1, s, j);
    ByteFrom(p, pi + 1, s, j);
  }

  lemma StarSlashTo(p: Bytes, pi: nat, s: Bytes, si: nat, j: nat)
    requires pi + 1 < |p| && p[pi] == STAR && p[pi + 1] == SLASH
    requires si <= j < |s| && s[j] == SLASH && SlashFree(s[si..j]) && MatchesFrom(p, pi + 2, s, j + 1)
    ensures MatchesFrom(p, pi, s, si)
  {
    ByteFrom(p, pi + 1, s, j);
    StarFrom(p, pi, s, si);
  }

  /** A star behind a `**` can start earlier: what it must stretch over ends at the
      first slash anyway. */
  lemma {:induction false} StarExtendsLeft(p: Bytes, pi: nat, s: Bytes, lo: nat, hi: nat)
    requires pi < |p| && p[pi] == STAR && lo <= hi <= |s|
    requires DoubleAt(p, pi) || Resolvable(p[pi..], true)
    requires MatchesFrom(p, pi, s, hi)
    ensures MatchesFrom(p, pi, s, lo)
    decreases |p| - pi
  {
    if DoubleAt(p, pi) {
      DoubleStarExtendsLeft(p, pi, s, lo, hi);
    } else {
      RestIndexIsAfterStar(p, pi);
      assert p[pi..][1..] == p[pi + 1..] && p[pi + 1..][1..] == p[pi + 2..];
      var j := StarSlashFrom(p, pi, s, hi);
      var f := FirstSlash(s, lo, j);
      StarExtendsLeft(p, pi + 2, s, f + 1, j + 1);
      StarSlashTo(p, pi, s, lo, f);
    }
  }

  /** Two places for a star-free stretch with no slash between their starts: the
      later one holds no slash at all. */
  lemma {:induction false} NoSlashInLaterPlace(p: Bytes, a: nat, b: nat, s: Bytes, from: nat, j: nat, x: nat)
    requires a <= b <= |p| && from < j && Stretch(p, a, b, s, from) && Stretch(p, a, b, s, j)
    requires SlashFree(s[from..j]) && a <= x < b
    ensures s[j + (x - a)] != SLASH
    decreases x
  {
    var here := from + (x - a);
    assert ByteMatches(p[x], s[here]) && ByteMatches(p[x], s[j + (x - a)]);
    if here < j {
      assert s[here] in s[from..j];
    } else {
      NoSlashInLaterPlace(p, a, b, s, from, j, x - (j - from));
    }
  }

  lemma SlashFreeUpToLaterPlace(p: Bytes, a: nat, b: nat, s: Bytes, from: nat, j: nat)
    requires a <= b <= |p| && from < j && Stretch(p, a, b, s, from) && Stretch(p, a, b, s, j)
    requires SlashFree(s[from..j])
    ensures SlashFree(s[from + (b - a)..j + (b - a)])
  {
    forall y | from + (b - a) <= y < j + (b - a) ensures s[y] != SLASH {
      if y < j {
        assert s[y] in s[from..j];
      } else {
        NoSlashInLaterPlace(p, a, b, s, from, j, a + (y - j));
      }
    }
  }

  /** Committing to the earliest place for the stretch behind the last star loses nothing. */
  lemma NextStarAlive(p: Bytes, s: Bytes, pi: nat, si: nat, back: Backtrack, behindDouble: bool)
    requires pi < |p| && p[pi] == STAR && si <= |s| && ValidBacktrack(p, pi, si, back) && Laid(p, s, pi, si, back)
    requires Resolvable(p[pi..], behindDouble) && (back.LastStar? && back.double ==> behindDouble)
    requires Alive(p, s, pi, si, back)
    ensures MatchesFrom(p, pi, s, si)
  {
    hide MatchesFrom, SlashFree, Resolvable;
    if back.LastStar? {
      var from, rest := back.from, RestIndex(p, back.at);
      var j :| from <= j <= |s| && (back.double || SlashFree(s[from..j])) && MatchesFrom(p, rest, s, j);
      StretchFrom(p, rest, pi, s, j);
      var later := j + (pi - rest);
      if back.double || DoubleAt(p, pi) {
        StarExtendsLeft(p, pi, s, si, later);
      } else if j > from {
        SlashFreeUpToLaterPlace(p, rest, pi, s, from, j);
        SingleStarExtendsLeft(p, pi, s, si, later);
      }
    }
  }

  lemma SingleStarExtendsLeft(p: Bytes, pi: nat, s: Bytes, lo: nat, hi: nat)
    requires pi < |p| && p[pi] == STAR && lo <= hi <= |s| && SlashFree(s[lo..hi])
    requires MatchesFrom(p, pi, s, hi)
    ensures MatchesFrom(p, pi, s, lo)
  {
    hide MatchesFrom, RestIndex, DoubleAt, SlashFree;
    StarFrom(p, pi, s, lo);
    StarFrom(p, pi, s, hi);
    var j :| hi <= j <= |s| && (DoubleAt(p, pi) || SlashFree(s[hi..j])) && MatchesFrom(p, RestIndex(p, pi), s, j);
    if !DoubleAt(p, pi) {
      SlashFreeJoin(s, lo, hi, j);
    }
  }

  lemma SlashFreeJoin(s: Bytes, lo: nat, hi: nat, j: nat)
    requires lo <= hi <= j <= |s| && SlashFree(s[lo..hi]) && SlashFree(s[hi..j])
    ensures SlashFree(s[lo..j])
  {
    assert s[lo..j] == s[lo..hi] + s[hi..j];
  }

  lemma {:induction false} ResolvableBehindStretch(p: Bytes, a: nat, b: nat, behindDouble: bool)
    requires a <= b <= |p| && StarFree(p, a, b)
    requires Resolvable(p[a..], behindDouble)
    ensures Resolvable(p[b..], behindDouble)
    decreases b - a
  {
    if a < b {
      assert p[a..][1..] == p[a + 1..];
      ResolvableBehindStretch(p, a + 1, b, behindDouble);
    }
  }

  /** A state in which the current byte does not match is not alive where it stands. */
  lemma MismatchMovesOn(p: Bytes, s: Bytes, pi: nat, si: nat, back: Backtrack)
    requires pi <= |p| && si < |s| && ValidBacktrack(p, pi, si, back) && Laid(p, s, pi, si, back)
    requires pi < |p| ==> p[pi] != STAR && !ByteMatches(p[pi], s[si])
    requires Alive(p, s, pi, si, back)
    ensures back.LastStar? && (back.double || s[back.from] != SLASH)
    ensures Alive(p, s, RestIndex(p, back.at), back.from + 1, LastStar(back.at, back.from + 1, back.double))
  {
    if pi < |p| {
      ByteFrom(p, pi, s, si);
    }
    assert !MatchesFrom(p, pi, s, si);
    hide MatchesFrom, ByteMatches;
    var from, rest := back.from, RestIndex(p, back.at);
    var j :| from <= j <= |s| && (back.double || SlashFree(s[from..j])) && MatchesFrom(p, rest, s, j);
    StretchFrom(p, rest, pi, s, j);
    assert s[from..j] == [s[from]] + s[from + 1..j];
  }

  /** At the end of the path only the empty match is left. */
  lemma AliveAtEnd(p: Bytes, s: Bytes, pi: nat, back: Backtrack, behindDouble: bool)
    requires pi <= |p| && ValidBacktrack(p, pi, |s|, back) && Laid(p, s, pi, |s|, back)
    requires Resolvable(p[pi..], behindDouble) && Alive(p, s, pi, |s|, back)
    ensures AllStars(p, pi)
  {
    if back.LastStar? {
      var rest := RestIndex(p, back.at);
      var j :| back.from <= j <= |s| && (back.double || SlashFree(s[back.from..j])) && MatchesFrom(p, rest, s, j);
      StretchFrom(p, rest, pi, s, j);
    }
    EmptyMatchIsAllStars(p, pi, s, behindDouble);
  }

  lemma {:induction false} ResumeComplete(p: Bytes, s: Bytes, pi: nat, si: nat, back: Backtrack, behindDouble: bool)
    requires pi <= |p| && si <= |s| && ValidBacktrack(p, pi, si, back) && Laid(p, s, pi, si, back)
    requires back.LastStar? && back.double ==> behindDouble
    requires Resolvable(p[if back.LastStar? then RestIndex(p, back.at) else pi..], behindDouble)
    requires Alive(p, s, pi, si, back)
    ensures Resume(p, s, pi, si, back)
    decreases if back.LastStar? then |p| - back.at else |p| + 1, if back.LastStar? then |s| - back.from else 0, |p| - pi
  {
    hide MatchesFrom, SlashFree, ByteMatches, IsDouble;
    if back.LastStar? {
      ResolvableBehindStretch(p, RestIndex(p, back.at), pi, behindDouble);
    }
    if si == |s| {
      AliveAtEnd(p, s, pi, back, behindDouble);
    } else if pi < |p| && p[pi] == STAR {
      NextStarAlive(p, s, pi, si, back, behindDouble);
      StarFrom(p, pi, s, si);
      RestIndexIsAfterStar(p, pi);
      ResumeComplete(p, s, RestIndex(p, pi), si, LastStar(pi, si, DoubleAt(p, pi)), behindDouble || DoubleAt(p, pi));
    } else if pi < |p| && ByteMatches(p[pi], s[si]) {
      ByteFrom(p, pi, s, si);
      assert p[pi..][1..] == p[pi + 1..];
      LaidFurther(p, s, pi, si, back);
      ResumeComplete(p, s, pi + 1, si + 1, back, behindDouble);
    } else {
      MismatchMovesOn(p, s, pi, si, back);
      ResumeComplete(p, s, RestIndex(p, back.at), back.from + 1, LastStar(back.at, back.from + 1, back.double),
        behindDouble);
    }
  }

  /** For a resolvable pattern the matcher decides matching. */
  lemma MatcherIsComplete(p: Bytes, s: Bytes)
    requires Resolvable(p, false) && Matches(p, s)
    ensures GlobMatch(p, s)
  {
    assert p[0..] == p && s[0..] == s;
    ResumeComplete(p, s, 0, 0, NoStar, false);
  }
}
