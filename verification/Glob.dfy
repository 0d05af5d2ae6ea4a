/** The exclude-pattern matcher of src/autoload/index.rs: an iterative matcher
    that remembers a single backtrack point. */
module Glob {
  import opened Prelude

  const STAR: Byte := '*' as int
  const QUESTION: Byte := '?' as int
  const SLASH: Byte := '/' as int

  type Bytes = seq<Byte>

  // ----- reading a pattern from its front -----

  predicate IsDouble(p: Bytes) {
    |p| >= 2 && p[0] == STAR && p[1] == STAR
  }

  /** The pattern behind a leading star; `**` takes an optional slash with it. */
  function AfterStar(p: Bytes): (rest: Bytes)
    requires |p| >= 1 && p[0] == STAR
    ensures |rest| < |p|
  {
    if !IsDouble(p) then p[1..]
    else if |p| > 2 && p[2] == SLASH then p[3..]
    else p[2..]
  }

  /** One pattern byte other than a star against one path byte. */
  predicate ByteMatches(pb: Byte, sb: Byte) {
    (pb == QUESTION || pb == sb) && (pb != QUESTION || sb != SLASH)
  }

  ghost predicate SlashFree(s: Bytes) {
    SLASH !in s
  }

  /** What a pattern means: `**` stands for any bytes, `*` for any bytes but
      slashes, `?` for one byte but a slash. */
  ghost predicate Matches(p: Bytes, s: Bytes)
    decreases |p|
  {
    if p == [] then s == []
    else if p[0] == STAR then
      exists k :: 0 <= k <= |s| && (IsDouble(p) || SlashFree(s[..k])) && Matches(AfterStar(p), s[k..])
    else s != [] && ByteMatches(p[0], s[0]) && Matches(p[1..], s[1..])
  }

  /** What the smallest patterns match. */
  lemma SmallPatternsExact(s: Bytes)
    ensures Matches([QUESTION], s) <==> |s| == 1 && s[0] != SLASH
    ensures Matches([STAR], s) <==> SlashFree(s)
    ensures Matches([STAR, STAR], s)
  {
    assert [QUESTION][1..] == [] && AfterStar([STAR]) == [] && AfterStar([STAR, STAR]) == [];
    assert s[..|s|] == s && s[|s|..] == [];
    assert Matches([], s[|s|..]);
    forall k | 0 <= k <= |s| && Matches([], s[k..]) ensures k == |s| {
    }
  }

  /** A pattern without wildcards matches itself. */
  lemma {:induction false} PlainPatternExact(p: Bytes, s: Bytes)
    requires STAR !in p && QUESTION !in p
    ensures Matches(p, s) <==> s == p
  {
    if p != [] {
      assert p[0] in p && forall b :: b in p[1..] ==> b in p;
      if s != [] {
        PlainPatternExact(p[1..], s[1..]);
        assert s == [s[0]] + s[1..] && p == [p[0]] + p[1..];
      }
    }
  }

  // ----- the matcher as a transition function -----

  /** The last star seen: its position, the path position it was last tried at,
      and whether it is a `**`. */
  datatype Backtrack = NoStar | LastStar(at: nat, from: nat, double: bool)

  predicate DoubleAt(p: Bytes, at: nat) {
    at + 1 < |p| && p[at] == STAR && p[at + 1] == STAR
  }

  function RestIndex(p: Bytes, at: nat): (i: nat)
    requires at < |p| && p[at] == STAR
    ensures at < i <= |p|
  {
    if !DoubleAt(p, at) then at + 1
    else if at + 2 < |p| && p[at + 2] == SLASH then at + 3
    else at + 2
  }

  lemma RestIndexIsAfterStar(p: Bytes, at: nat)
    requires at < |p| && p[at] == STAR
    ensures DoubleAt(p, at) == IsDouble(p[at..])
    ensures p[RestIndex(p, at)..] == AfterStar(p[at..])
  {
    assert p[at..][1..] == p[at + 1..] && p[at..][0] == p[at];
    if DoubleAt(p, at) {
      assert p[at..][2..] == p[at + 2..];
      if at + 2 < |p| && p[at + 2] == SLASH {
        assert p[at..][3..] == p[at + 3..];
      }
    }
  }

  predicate ValidBacktrack(p: Bytes, pi: nat, si: nat, back: Backtrack) {
    back.LastStar? ==>
      && back.at < |p| && p[back.at] == STAR && back.double == DoubleAt(p, back.at)
      && RestIndex(p, back.at) <= pi && back.from <= si
      && pi - RestIndex(p, back.at) == si - back.from
  }

  predicate AllStars(p: Bytes, i: nat) {
    forall k :: i <= k < |p| ==> p[k] == STAR
  }

  /** The verdict from a given state of the loop. */
  function Resume(p: Bytes, s: Bytes, pi: nat, si: nat, back: Backtrack): bool
    requires pi <= |p| && si <= |s| && ValidBacktrack(p, pi, si, back)
    decreases if back.LastStar? then |p| - back.at else |p| + 1, if back.LastStar? then |s| - back.from else 0, |p| - pi
  {
    if si == |s| then AllStars(p, pi)
    else if pi < |p| && p[pi] == STAR then
      Resume(p, s, RestIndex(p, pi), si, LastStar(pi, si, DoubleAt(p, pi)))
    else if pi < |p| && ByteMatches(p[pi], s[si]) then
      Resume(p, s, pi + 1, si + 1, back)
    else
      match back
      case NoStar => false
      case LastStar(at, from, double) =>
        if !double && s[from] == SLASH then false
        else Resume(p, s, RestIndex(p, at), from + 1, LastStar(at, from + 1, double))
  }

  function GlobMatch(p: Bytes, s: Bytes): bool {
    Resume(p, s, 0, 0, NoStar)
  }

  // ----- its steps -----

  /** A state of the loop from which the verdict is that for the whole path. */
  predicate OnTrack(p: Bytes, s: Bytes, pi: nat, si: nat, back: Backtrack) {
    pi <= |p| && si <= |s| && ValidBacktrack(p, pi, si, back) && Resume(p, s, pi, si, back) == GlobMatch(p, s)
  }

  /** No star, and no byte that matches. */
  predicate Mismatched(p: Bytes, s: Bytes, pi: nat, si: nat) {
    si < |s| && (pi < |p| ==> p[pi] != STAR && !ByteMatches(p[pi], s[si]))
  }

  lemma TakeStar(p: Bytes, s: Bytes, pi: nat, si: nat, back: Backtrack)
    requires pi < |p| && si < |s| && p[pi] == STAR && OnTrack(p, s, pi, si, back)
    ensures OnTrack(p, s, RestIndex(p, pi), si, LastStar(pi, si, DoubleAt(p, pi)))
    ensures back.LastStar? ==> back.at < pi
  {
  }

  lemma TakeByte(p: Bytes, s: Bytes, pi: nat, si: nat, back: Backtrack)
    requires pi < |p| && si < |s| && p[pi] != STAR && ByteMatches(p[pi], s[si]) && OnTrack(p, s, pi, si, back)
    ensures OnTrack(p, s, pi + 1, si + 1, back)
  {
  }

  lemma GiveUp(p: Bytes, s: Bytes, pi: nat, si: nat, back: Backtrack)
    requires Mismatched(p, s, pi, si) && OnTrack(p, s, pi, si, back)
    requires back.LastStar? ==> !back.double && back.from < |s| && s[back.from] == SLASH
    ensures !GlobMatch(p, s)
  {
  }

  /** Trying the last star one byte further. */
  lemma TryFurther(p: Bytes, s: Bytes, pi: nat, si: nat, back: Backtrack)
    requires Mismatched(p, s, pi, si) && OnTrack(p, s, pi, si, back)
    requires back.LastStar? && (back.double || back.from >= |s| || s[back.from] != SLASH)
    ensures back.at < |p| && p[back.at] == STAR && back.double == DoubleAt(p, back.at) && back.from < |s|
    ensures OnTrack(p, s, RestIndex(p, back.at), back.from + 1, LastStar(back.at, back.from + 1, back.double))
  {
  }

  lemma AtEnd(p: Bytes, s: Bytes, pi: nat, back: Backtrack)
    requires OnTrack(p, s, pi, |s|, back)
    ensures GlobMatch(p, s) == AllStars(p, pi)
  {
  }

  // ----- the loop -----

  method GlobMatchBytes(p: Bytes, s: Bytes) returns (matched: bool)
    ensures matched == GlobMatch(p, s)
  {
    var pi, si := 0, 0;
    var backtrack: Option<(nat, nat)> := None;
    var starDouble := false;
    ghost var back := NoStar;
    assert OnTrack(p, s, 0, 0, NoStar);
    hide OnTrack, GlobMatch;
    while si < |s|
      invariant 0 <= pi <= |p| && 0 <= si <= |s|
      invariant back == if backtrack.None? then NoStar else LastStar(backtrack.value.0, backtrack.value.1, starDouble)
      invariant OnTrack(p, s, pi, si, back)
      decreases if backtrack.Some? then |p| - backtrack.value.0 else |p| + 1,
                if backtrack.Some? then |s| - backtrack.value.1 else 0,
                |p| - pi
    {
      if pi < |p| && p[pi] == STAR {
        TakeStar(p, s, pi, si, back);
        starDouble := pi + 1 < |p| && p[pi + 1] == STAR;
        backtrack := Some((pi, si));
        back := LastStar(pi, si, starDouble);
        if starDouble {
          pi := pi + 2;
          if pi < |p| && p[pi] == SLASH {
            pi := pi + 1;
          }
        } else {
          pi := pi + 1;
        }
        continue;
      }
      if pi < |p| && (p[pi] == QUESTION || p[pi] == s[si]) && (p[pi] != QUESTION || s[si] != SLASH) {
        TakeByte(p, s, pi, si, back);
        pi := pi + 1;
        si := si + 1;
        continue;
      }
      match backtrack
      case None =>
        GiveUp(p, s, pi, si, back);
        return false;
      case Some((bp, bs)) =>
        if !starDouble && bs < |s| && s[bs] == SLASH {
          GiveUp(p, s, pi, si, back);
          return false;
        }
        TryFurther(p, s, pi, si, back);
        backtrack := Some((bp, bs + 1));
        back := LastStar(bp, bs + 1, starDouble);
        si := bs + 1;
        pi := if starDouble then bp + 2 else bp + 1;
        if starDouble && pi < |p| && p[pi] == SLASH {
          pi := pi + 1;
        }
    }
    AtEnd(p, s, pi, back);
    while pi < |p| && p[pi] == STAR
      invariant 0 <= pi <= |p|
      invariant AllStars(p, pi) == GlobMatch(p, s)
    {
      pi := pi + 1;
    }
    return pi == |p|;
  }
}
