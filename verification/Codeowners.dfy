/**
 * CODEOWNERS rules (apps/dashboard/src/lib/codeowners.ts): which paths a pattern owns, and which
 * rule decides a path's owners.
 */
module Codeowners {
  import opened Prelude
  import opened Glob

  const BACKSLASH: Unit := 0x5C
  const DOT: Unit := 0x2E

  datatype Rule = Rule(pattern: Str, owners: seq<Str>)

  predicate EndsWith(s: Str, suffix: Str): (r: bool)
    ensures r ==> |suffix| <= |s|
  {
    |suffix| <= |s| && s[|s| - |suffix|..] == suffix
  }

  lemma EndsWithStar(s: Str)
    ensures EndsWith(s, [SLASH, STAR]) <==> |s| >= 2 && s[|s| - 2] == SLASH && s[|s| - 1] == STAR
  {
    if |s| >= 2 {
      assert s[|s| - 2..] == [s[|s| - 2], s[|s| - 1]];
    }
  }

  // ----- What a pattern owns -----

  /** A pattern without its trailing and leading slash, and what those slashes said. */
  datatype Shape = Shape(body: Str, dirOnly: bool, anchored: bool) {
    /** A trailing star segment, not a directory pattern: one level only. */
    predicate OneLevel() {
      !dirOnly && EndsWith(body, [SLASH, STAR])
    }
  }

  /** None for a pattern that is empty or a lone slash. */
  function ShapeOf(raw: Str): Option<Shape> {
    var dirOnly := EndsWith(raw, [SLASH]);
    var pattern := if dirOnly then raw[..|raw| - 1] else raw;
    if pattern == [] then None
    else
      var startsAnchored := pattern[0] == SLASH;
      var body := if startsAnchored then pattern[1..] else pattern;
      Some(Shape(body, dirOnly, startsAnchored || SLASH in body))
  }

  /** A segment of the path can begin at `lo`. */
  predicate Begins(path: Str, lo: int)
    requires 0 <= lo <= |path|
  {
    lo == 0 || path[lo - 1] == SLASH
  }

  /** A segment of the path can end at `hi`. */
  predicate Ends(path: Str, hi: int)
    requires 0 <= hi <= |path|
  {
    hi == |path| || path[hi] == SLASH
  }

  /** Whole segments `lo..hi` of the path fit the pattern where the pattern may stand. */
  ghost predicate OwnsAt(shape: Shape, path: Str, lo: int, hi: int) {
    0 <= lo <= hi <= |path|
    && Begins(path, lo) && Ends(path, hi)
    && (shape.anchored ==> lo == 0)
    && (shape.OneLevel() ==> hi == |path|)
    && InPattern(shape.body, path[lo..hi])
  }

  ghost predicate OwnsFrom(shape: Shape, path: Str, lo: int) {
    exists hi :: OwnsAt(shape, path, lo, hi)
  }

  ghost predicate Fits(shape: Shape, path: Str) {
    exists lo, hi :: OwnsAt(shape, path, lo, hi)
  }

  /** The pattern owns the path. */
  ghost predicate Owns(raw: Str, path: Str) {
    ShapeOf(raw).Some? && Fits(ShapeOf(raw).value, path)
  }

  // ----- The scanning code -----

  /** `path.indexOf("/", from)`. */
  function IndexOfSlash(path: Str, from: nat): (idx: int)
    requires from <= |path|
    ensures idx == -1 || from <= idx < |path|
    ensures idx == -1 ==> forall i :: from <= i < |path| ==> path[i] != SLASH
    ensures idx != -1 ==> path[idx] == SLASH && forall i :: from <= i < idx ==> path[i] != SLASH
    decreases |path| - from
  {
    if from == |path| then -1
    else if path[from] == SLASH then from
    else IndexOfSlash(path, from + 1)
  }

  lemma OwnsFromRoot(shape: Shape, path: Str, hi: int)
    requires 0 <= hi <= |path| && Ends(path, hi) && (shape.OneLevel() ==> hi == |path|)
    ensures OwnsAt(shape, path, 0, hi) <==> InPattern(shape.body, path[..hi])
  {
    hide InPattern, EndsWith;
    assert path[0..hi] == path[..hi];
  }

  /** No end of a segment fits before `seen`. */
  ghost predicate NoneBefore(shape: Shape, path: Str, seen: int) {
    forall hi :: 0 <= hi < seen ==> !OwnsAt(shape, path, 0, hi)
  }

  lemma NoneLeft(shape: Shape, path: Str, seen: nat)
    requires shape.anchored && seen <= |path| && NoneBefore(shape, path, seen)
    requires !OwnsAt(shape, path, 0, |path|)
    ensures IndexOfSlash(path, seen) == -1 ==> !Fits(shape, path)
    ensures IndexOfSlash(path, seen) != -1 ==> NoneBefore(shape, path, IndexOfSlash(path, seen))
  {
    hide InPattern, EndsWith;
    var idx := IndexOfSlash(path, seen);
    forall hi | seen <= hi < (if idx == -1 then |path| else idx)
      ensures !OwnsAt(shape, path, 0, hi)
    {
      assert path[hi] != SLASH;
    }
  }

  /** The whole path fits, or, unless the pattern is for one level only, an ancestor directory does. */
  method MatchAnchored(cache: GlobCache, pattern: Str, path: Str, dirOnly: bool) returns (r: bool)
    requires cache.Valid()
    modifies cache
    ensures cache.Valid()
    ensures r <==> Fits(Shape(pattern, dirOnly, true), path)
  {
    hide InPattern, EndsWith, OwnsAt;
    ghost var shape := Shape(pattern, dirOnly, true);
    assert path[..|path|] == path;
    OwnsFromRoot(shape, path, |path|);
    if !dirOnly && EndsWith(pattern, [SLASH, STAR]) {
      r := cache.GlobMatch(pattern, path);
      OneLevelFits(shape, path);
      return;
    }
    r := cache.GlobMatch(pattern, path);
    if r { return; }
    var idx := IndexOfSlash(path, 0);
    ghost var seen := 0;
    NoneLeft(shape, path, 0);
    while idx != -1
      invariant 0 <= seen <= |path| && cache.Valid()
      invariant idx == IndexOfSlash(path, seen)
      invariant idx == -1 ==> !Fits(shape, path)
      invariant idx != -1 ==> NoneBefore(shape, path, idx)
      decreases |path| - seen
    {
      OwnsFromRoot(shape, path, idx);
      r := cache.GlobMatch(pattern, path[..idx]);
      if r { return; }
      seen := idx + 1;
      NoneLeft(shape, path, seen);
      idx := IndexOfSlash(path, idx + 1);
    }
  }

  lemma OneLevelFits(shape: Shape, path: Str)
    requires shape.anchored && shape.OneLevel()
    ensures Fits(shape, path) <==> OwnsAt(shape, path, 0, |path|)
  {
    hide InPattern, EndsWith;
  }

  /** No segment fits that begins at or before `seen`. */
  ghost predicate NoneFrom(shape: Shape, path: Str, seen: int) {
    forall lo, hi :: lo <= seen ==> !OwnsAt(shape, path, lo, hi)
  }

  lemma NoneFromLeft(shape: Shape, path: Str, seen: nat)
    requires seen <= |path| && NoneFrom(shape, path, seen)
    ensures IndexOfSlash(path, seen) == -1 ==> !Fits(shape, path)
    ensures IndexOfSlash(path, seen) != -1 ==> NoneFrom(shape, path, IndexOfSlash(path, seen))
  {
    hide InPattern, EndsWith;
    var idx := IndexOfSlash(path, seen);
    forall lo, hi | seen < lo <= (if idx == -1 then |path| else idx)
      ensures !OwnsAt(shape, path, lo, hi)
    {
      assert path[lo - 1] != SLASH;
    }
  }

  lemma NoneFromNext(shape: Shape, path: Str, idx: nat)
    requires idx < |path| && NoneFrom(shape, path, idx)
    requires !OwnsFrom(shape, path, idx + 1)
    ensures NoneFrom(shape, path, idx + 1)
  {
    forall lo, hi | lo <= idx + 1 ensures !OwnsAt(shape, path, lo, hi) {
    }
  }

  /** The whole path, then every suffix that begins after a slash. */
  method MatchFloating(cache: GlobCache, pattern: Str, path: Str, dirOnly: bool) returns (r: bool)
    requires cache.Valid() && SLASH !in pattern
    modifies cache
    ensures cache.Valid()
    ensures r <==> Fits(Shape(pattern, dirOnly, false), path)
  {
    hide InPattern, EndsWith, OwnsAt, OwnsFrom, NoneFrom, Fits, GlobCache.Valid;
    ghost var shape := Shape(pattern, dirOnly, false);
    r := MatchAnchored(cache, pattern, path, dirOnly);
    FloatingAt(pattern, dirOnly, path, 0);
    assert path[0..] == path;
    if r { return; }
    var idx := IndexOfSlash(path, 0);
    ghost var seen := 0;
    NoneFromStart(shape, path);
    NoneFromLeft(shape, path, 0);
    while idx != -1
      invariant 0 <= seen <= |path| && cache.Valid() && !r
      invariant idx == IndexOfSlash(path, seen)
      invariant idx == -1 ==> !Fits(shape, path)
      invariant idx != -1 ==> NoneFrom(shape, path, idx)
      decreases |path| - seen
    {
      r := MatchAnchored(cache, pattern, path[idx + 1..], dirOnly);
      FloatingAt(pattern, dirOnly, path, idx + 1);
      if r { return; }
      NoneFromNext(shape, path, idx);
      seen := idx + 1;
      NoneFromLeft(shape, path, seen);
      idx := IndexOfSlash(path, idx + 1);
    }
  }

  /** An anchored pattern stands at the root; any other may stand wherever a segment begins. */
  method MatchPattern(cache: GlobCache, raw: Str, path: Str) returns (r: bool)
    requires cache.Valid()
    modifies cache
    ensures cache.Valid()
    ensures r <==> Owns(raw, path)
  {
    hide InPattern, EndsWith, OwnsAt, Fits, GlobCache.Valid;
    var pattern := raw;
    var dirOnly := EndsWith(pattern, [SLASH]);
    if dirOnly { pattern := pattern[..|pattern| - 1]; }
    if pattern == [] { return false; }
    var startsAnchored := pattern[0] == SLASH;
    if startsAnchored { pattern := pattern[1..]; }
    var anchored := startsAnchored || SLASH in pattern;
    assert ShapeOf(raw) == Some(Shape(pattern, dirOnly, anchored));
    if anchored {
      r := MatchAnchored(cache, pattern, path, dirOnly);
    } else {
      r := MatchFloating(cache, pattern, path, dirOnly);
    }
  }

  lemma NoneFromStart(shape: Shape, path: Str)
    requires !OwnsFrom(shape, path, 0)
    ensures NoneFrom(shape, path, 0)
  {
    hide InPattern, EndsWith;
  }

  /** A pattern without a slash fits from `lo` on exactly when it fits the suffix from its root. */
  lemma FloatingAt(pattern: Str, dirOnly: bool, path: Str, lo: nat)
    requires SLASH !in pattern && lo <= |path| && Begins(path, lo)
    ensures Fits(Shape(pattern, dirOnly, true), path[lo..]) <==>
            OwnsFrom(Shape(pattern, dirOnly, false), path, lo)
    ensures OwnsFrom(Shape(pattern, dirOnly, false), path, lo) ==> Fits(Shape(pattern, dirOnly, false), path)
  {
    hide InPattern, EndsWith;
    EndsWithStar(pattern);
    var suffix, rooted, floating := path[lo..], Shape(pattern, dirOnly, true), Shape(pattern, dirOnly, false);
    forall hi | lo <= hi <= |path|
      ensures OwnsAt(rooted, suffix, 0, hi - lo) <==> OwnsAt(floating, path, lo, hi)
    {
      assert suffix[0..hi - lo] == path[lo..hi];
    }
    if OwnsFrom(floating, path, lo) {
      var hi :| OwnsAt(floating, path, lo, hi);
      assert OwnsAt(rooted, suffix, 0, hi - lo);
    }
    if Fits(rooted, suffix) {
      var z, hi :| OwnsAt(rooted, suffix, z, hi);
      assert OwnsAt(floating, path, lo, lo + hi);
    }
  }

  // ----- Properties of ownership -----

  /** What the slashes at the ends of a pattern's text say. */
  lemma ShapeOfText(raw: Str)
    ensures ShapeOf(raw).None? <==> raw == [] || raw == [SLASH]
    ensures ShapeOf(raw).Some? ==>
              (ShapeOf(raw).value.OneLevel() <==> EndsWith(raw, [SLASH, STAR]) && raw != [SLASH, STAR])
  {
    EndsWithStar(raw);
    if raw != [] && raw != [SLASH] {
      EndsWithStar(ShapeOf(raw).value.body);
      assert |raw| == 1 ==> raw == [raw[0]];
      assert |raw| == 2 ==> raw == [raw[0], raw[1]];
    }
  }

  /** A pattern owns everything below whatever it owns, unless its text ends in a star segment that is not all of it. */
  lemma SubtreeOwned(raw: Str, dir: Str, rest: Str)
    requires Owns(raw, dir)
    requires EndsWith(raw, [SLASH]) || raw == [SLASH, STAR] || !EndsWith(raw, [SLASH, STAR])
    ensures Owns(raw, dir + [SLASH] + rest)
  {
    ShapeOfText(raw);
    EndsWithStar(raw);
    var shape := ShapeOf(raw).value;
    assert !shape.OneLevel();
    hide InPattern, ShapeOf, EndsWith, Shape.OneLevel;
    var lo, hi :| OwnsAt(shape, dir, lo, hi);
    var path := dir + [SLASH] + rest;
    assert Begins(path, lo) && Ends(path, hi);
    assert path[lo..hi] == dir[lo..hi] && path[..|dir|] == dir;
    assert OwnsAt(shape, path, lo, hi);
  }

  lemma NothingOwned(path: Str)
    ensures !Owns([], path) && !Owns([SLASH], path)
  {
    ShapeOfText([]);
    ShapeOfText([SLASH]);
  }

  /** The whole path is in the pattern's language, or a directory on the way to it is. */
  ghost predicate OwnsBelow(p: Str, path: Str) {
    InPattern(p, path) || exists i :: 0 <= i < |path| && path[i] == SLASH && InPattern(p, path[..i])
  }

  lemma FitsFromRoot(p: Str, dirOnly: bool, path: Str)
    ensures Fits(Shape(p, dirOnly, true), path) <==>
            if !dirOnly && EndsWith(p, [SLASH, STAR]) then InPattern(p, path) else OwnsBelow(p, path)
  {
    hide InPattern, EndsWith;
    var shape := Shape(p, dirOnly, true);
    assert path[..|path|] == path;
    forall hi | 0 <= hi <= |path| && Ends(path, hi) && (shape.OneLevel() ==> hi == |path|)
      ensures OwnsAt(shape, path, 0, hi) <==> InPattern(p, path[..hi])
    {
      OwnsFromRoot(shape, path, hi);
    }
    if Fits(shape, path) {
      var lo, hi :| OwnsAt(shape, path, lo, hi);
      assert InPattern(p, path[..hi]);
    }
    if OwnsBelow(p, path) && !shape.OneLevel() && !InPattern(p, path) {
      var i :| 0 <= i < |path| && path[i] == SLASH && InPattern(p, path[..i]);
      assert OwnsAt(shape, path, 0, i);
    }
    if InPattern(p, path) {
      assert OwnsAt(shape, path, 0, |path|);
    }
  }

  /** What a pattern written from the root owns, with and without the slash at its end. */
  lemma RootedOwned(p: Str, path: Str)
    ensures Owns([SLASH] + p + [SLASH], path) <==> OwnsBelow(p, path)
    ensures p != [] && p[|p| - 1] != SLASH ==>
              (Owns([SLASH] + p, path) <==>
               if EndsWith(p, [SLASH, STAR]) then InPattern(p, path) else OwnsBelow(p, path))
  {
    var raw := [SLASH] + p;
    assert (raw + [SLASH])[..|raw|] == raw && raw[1..] == p;
    assert ShapeOf(raw + [SLASH]) == Some(Shape(p, true, true));
    FitsFromRoot(p, true, path);
    if p != [] && p[|p| - 1] != SLASH {
      assert ShapeOf(raw) == Some(Shape(p, false, true));
      FitsFromRoot(p, false, path);
    }
  }

  /** A slash inside a pattern roots it. */
  lemma InnerSlashRoots(raw: Str, path: Str, i: nat)
    requires i + 1 < |raw| && raw[i] == SLASH && raw[0] != SLASH
    ensures Owns(raw, path) <==> Owns([SLASH] + raw, path)
  {
    hide InPattern, Fits;
    var rooted := [SLASH] + raw;
    assert rooted[|rooted| - 1] == raw[|raw| - 1] && rooted[1..] == raw;
    assert EndsWith(rooted, [SLASH]) <==> EndsWith(raw, [SLASH]);
    assert rooted[..|rooted| - 1][1..] == raw[..|raw| - 1];
    assert raw[..|raw| - 1][i] == SLASH;
    assert ShapeOf(rooted) == ShapeOf(raw);
  }

  function Slashes(s: Str): nat {
    if s == [] then 0 else (if s[0] == SLASH then 1 else 0) + Slashes(s[1..])
  }

  lemma {:induction false} SlashesConcat(a: Str, b: Str)
    ensures Slashes(a + b) == Slashes(a) + Slashes(b)
  {
    if a == [] {
      assert a + b == b;
    } else {
      assert (a + b)[0] == a[0] && (a + b)[1..] == a[1..] + b;
      SlashesConcat(a[1..], b);
    }
  }

  lemma {:induction false} NoSlashes(s: Str)
    ensures Slashes(s) == 0 <==> SLASH !in s
  {
    if s != [] {
      NoSlashes(s[1..]);
    }
  }

  predicate DoubleStar(p: Str) {
    exists i :: 0 <= i && i + 1 < |p| && p[i] == STAR && p[i + 1] == STAR
  }

  lemma NoDoubleStarLater(p: Str)
    requires p != [] && !DoubleStar(p)
    ensures !DoubleStar(p[1..])
  {
    var rest := p[1..];
    forall i | 0 <= i && i + 1 < |rest| ensures !(rest[i] == STAR && rest[i + 1] == STAR) {
      assert rest[i] == p[i + 1] && rest[i + 1] == p[i + 2];
    }
  }

  lemma StarsAtFront(p: Str)
    ensures [STAR, STAR] <= p ==> DoubleStar(p)
  {
    if [STAR, STAR] <= p {
      assert p[0] == [STAR, STAR][0] && p[1] == [STAR, STAR][1];
    }
  }

  /** Without `**`, a text has exactly the slashes its pattern has. */
  lemma {:induction false} SameSlashes(p: Str, t: Str)
    requires InPattern(p, t) && !DoubleStar(p)
    ensures Slashes(t) == Slashes(p)
    decreases |p|
  {
    if p != [] {
      var rest := p[1..];
      StarsAtFront(p);
      NoDoubleStarLater(p);
      if p[0] == STAR {
        var k :| 0 <= k <= |t| && SLASH !in t[..k] && InPattern(rest, t[k..]);
        SameSlashes(rest, t[k..]);
        NoSlashes(t[..k]);
        SlashesConcat(t[..k], t[k..]);
        assert t == t[..k] + t[k..];
      } else {
        SameSlashes(rest, t[1..]);
      }
    }
  }

  /** A pattern ending in a star segment without `**` owns one level only, so it never recurses. */
  lemma OneLevelOwned(raw: Str, path: Str)
    requires Owns(raw, path) && EndsWith(raw, [SLASH, STAR]) && raw != [SLASH, STAR] && !DoubleStar(raw)
    ensures Slashes(path) == Slashes(raw) - if raw[0] == SLASH then 1 else 0
    ensures forall rest: Str :: !Owns(raw, path + [SLASH] + rest)
  {
    var shape := ShapeOf(raw).value;
    ShapeOfText(raw);
    EndsWithStar(raw);
    assert !shape.dirOnly && shape.anchored && shape.body == (if raw[0] == SLASH then raw[1..] else raw);
    NoDoubleStarLater(raw);
    assert Slashes(raw) == Slashes(shape.body) + if raw[0] == SLASH then 1 else 0;
    hide InPattern, EndsWith, OwnsAt, Fits, DoubleStar;
    OneLevelSlashes(shape, path);
    forall rest: Str ensures !Owns(raw, path + [SLASH] + rest) {
      SlashesConcat(path, [SLASH] + rest);
      assert ([SLASH] + rest)[1..] == rest;
      assert path + [SLASH] + rest == path + ([SLASH] + rest);
      if Fits(shape, path + [SLASH] + rest) {
        OneLevelSlashes(shape, path + [SLASH] + rest);
        assert false;
      }
    }
  }

  lemma OneLevelSlashes(shape: Shape, path: Str)
    requires Fits(shape, path) && shape.OneLevel() && shape.anchored && !DoubleStar(shape.body)
    ensures Slashes(path) == Slashes(shape.body)
  {
    hide InPattern, EndsWith, DoubleStar;
    var lo, hi :| OwnsAt(shape, path, lo, hi);
    assert path[lo..hi] == path;
    SameSlashes(shape.body, path);
  }

  /**
   * A bare name, with or without a trailing slash, owns what the name behind a double star owns:
   * the scan over suffixes and the matcher's own wildcard agree.
   */
  lemma BareMeansAnywhere(raw: Str, path: Str)
    requires raw != [] && raw != [SLASH] && forall i :: 0 <= i < |raw| - 1 ==> raw[i] != SLASH
    ensures Owns(raw, path) <==> Owns([STAR, STAR, SLASH] + raw, path)
  {
    ShapeOfText(raw);
    assert raw[0] != SLASH by { assert |raw| == 1 ==> raw == [raw[0]]; }
    hide InPattern, EndsWith, OwnsAt, Fits;
    assert !ShapeOf(raw).value.anchored;
    hide ShapeOf;
    DeepShape(raw);
    var bare := ShapeOf(raw).value;
    var deep := Shape([STAR, STAR, SLASH] + bare.body, bare.dirOnly, true);
    BareShape(raw);
    if bare.body == [STAR] {
      AllOwned(bare, deep, path);
    } else {
      OneLevelShape(bare.body);
      BareOwnsDeep(bare, deep, path);
      DeepOwnsBare(bare, deep, path);
    }
  }

  lemma BareShape(raw: Str)
    requires ShapeOf(raw).Some? && !ShapeOf(raw).value.anchored
    ensures ShapeOf(raw).value.body != [] && SLASH !in ShapeOf(raw).value.body
  {
  }

  lemma BareOwnsDeep(bare: Shape, deep: Shape, path: Str)
    requires !bare.anchored && deep.body == [STAR, STAR, SLASH] + bare.body && !bare.OneLevel() && !deep.OneLevel()
    ensures Fits(bare, path) ==> Fits(deep, path)
  {
    hide InPattern, EndsWith;
    if Fits(bare, path) {
      var lo, hi :| OwnsAt(bare, path, lo, hi);
      DeepFits(bare.body, path, lo, hi);
      assert OwnsAt(deep, path, 0, hi);
    }
  }

  lemma DeepOwnsBare(bare: Shape, deep: Shape, path: Str)
    requires deep.anchored && deep.body == [STAR, STAR, SLASH] + bare.body
    requires !bare.anchored && !bare.OneLevel() && !deep.OneLevel()
    ensures Fits(deep, path) ==> Fits(bare, path)
  {
    hide InPattern, EndsWith;
    if Fits(deep, path) {
      var z, hi :| OwnsAt(deep, path, z, hi);
      var lo := DeepFrom(bare.body, path, hi);
      assert OwnsAt(bare, path, lo, hi);
    }
  }

  lemma DeepShape(raw: Str)
    requires ShapeOf(raw).Some? && !ShapeOf(raw).value.anchored
    ensures var bare := ShapeOf(raw).value;
            ShapeOf([STAR, STAR, SLASH] + raw) == Some(Shape([STAR, STAR, SLASH] + bare.body, bare.dirOnly, true))
  {
    var deep := [STAR, STAR, SLASH] + raw;
    assert deep[|deep| - 1] == raw[|raw| - 1];
    assert EndsWith(raw, [SLASH]) <==> EndsWith(deep, [SLASH]);
    if EndsWith(raw, [SLASH]) {
      assert deep[..|deep| - 1] == [STAR, STAR, SLASH] + raw[..|raw| - 1];
    }
    assert deep[2] == SLASH;
  }

  lemma OneLevelShape(body: Str)
    requires SLASH !in body && body != [] && body != [STAR]
    ensures !EndsWith(body, [SLASH, STAR]) && !EndsWith([STAR, STAR, SLASH] + body, [SLASH, STAR])
  {
    EndsWithStar(body);
    EndsWithStar([STAR, STAR, SLASH] + body);
    var deep := [STAR, STAR, SLASH] + body;
    assert |body| >= 2 ==> deep[|deep| - 2] == body[|body| - 2];
    assert deep[|deep| - 1] == body[|body| - 1];
    assert |body| == 1 ==> body == [body[0]];
  }

  lemma DeepFits(body: Str, path: Str, lo: int, hi: int)
    requires 0 <= lo <= hi <= |path| && Begins(path, lo) && InPattern(body, path[lo..hi])
    ensures InPattern([STAR, STAR, SLASH] + body, path[0..hi])
  {
    var t := path[0..hi];
    assert ([STAR, STAR, SLASH] + body)[3..] == body && t[lo..] == path[lo..hi];
    if lo > 0 {
      assert t[lo - 1] == SLASH && InPattern(body, t[lo..]);
    }
  }

  lemma DeepFrom(body: Str, path: Str, hi: int) returns (lo: int)
    requires 0 <= hi <= |path| && InPattern([STAR, STAR, SLASH] + body, path[0..hi])
    ensures 0 <= lo <= hi && Begins(path, lo) && InPattern(body, path[lo..hi])
  {
    var t := path[0..hi];
    assert ([STAR, STAR, SLASH] + body)[3..] == body;
    if InPattern(body, t) {
      lo := 0;
    } else {
      lo :| 0 < lo <= |t| && t[lo - 1] == SLASH && InPattern(body, t[lo..]);
      assert t[lo..] == path[lo..hi];
    }
  }

  /** A lone star owns every path, on either route. */
  lemma AllOwned(bare: Shape, deep: Shape, path: Str)
    requires bare == Shape([STAR], bare.dirOnly, false) && deep == Shape([STAR, STAR, SLASH, STAR], bare.dirOnly, true)
    ensures Fits(bare, path) && Fits(deep, path)
  {
    var lo := LastSegment(path);
    StarFits(path[lo..]);
    assert path[lo..|path|] == path[lo..];
    assert OwnsAt(bare, path, lo, |path|);
    DeepFits([STAR], path, lo, |path|);
    assert [STAR, STAR, SLASH] + [STAR] == [STAR, STAR, SLASH, STAR];
    assert OwnsAt(deep, path, 0, |path|);
  }

  lemma StarFits(t: Str)
    requires SLASH !in t
    ensures InPattern([STAR], t)
  {
    assert t[..|t|] == t && InPattern([], t[|t|..]);
    assert [STAR][1..] == [];
  }

  lemma LastSegment(path: Str) returns (lo: int)
    ensures 0 <= lo <= |path| && Begins(path, lo) && SLASH !in path[lo..]
  {
    lo := |path|;
    while lo > 0 && path[lo - 1] != SLASH
      invariant 0 <= lo <= |path| && SLASH !in path[lo..]
    {
      assert path[lo - 1..] == [path[lo - 1]] + path[lo..];
      lo := lo - 1;
    }
  }

  // ----- Rules -----

  /** `s.replace(/\\/g, "/")`. */
  function Slashed(s: Str): (r: Str)
    ensures |r| == |s| && forall i :: 0 <= i < |s| ==> r[i] == if s[i] == BACKSLASH then SLASH else s[i]
    ensures BACKSLASH !in s ==> r == s
  {
    seq(|s|, i requires 0 <= i < |s| => if s[i] == BACKSLASH then SLASH else s[i])
  }

  function Normalize(filePath: Str): Str {
    var p := Slashed(filePath);
    var q := if [DOT, SLASH] <= p then p[2..] else p;
    if [SLASH] <= q then q[1..] else q
  }

  /** One root prefix, written with either slash, makes no difference; any other path only has its slashes turned. */
  lemma NormalizeRooted(p: Str)
    ensures Normalize([SLASH] + p) == Normalize([BACKSLASH] + p) == Slashed(p)
    ensures Normalize([DOT, SLASH] + p) == if [SLASH] <= Slashed(p) then Slashed(p)[1..] else Slashed(p)
    ensures Normalize(p) == Slashed(p) <==> !([DOT, SLASH] <= Slashed(p)) && !([SLASH] <= Slashed(p))
  {
    hide Slashed;
    assert Slashed([SLASH] + p) == Slashed([BACKSLASH] + p) == [SLASH] + Slashed(p);
    assert Slashed([DOT, SLASH] + p) == [DOT, SLASH] + Slashed(p);
    var s := Slashed(p);
    assert ([SLASH] + s)[0] != [DOT, SLASH][0] && ([SLASH] + s)[1..] == s;
    assert [SLASH] <= [SLASH] + s && [DOT, SLASH] <= [DOT, SLASH] + s && ([DOT, SLASH] + s)[2..] == s;
  }

  /** The last matching rule decides, told as a forward scan in which later matches override. */
  ghost function Decide(rules: seq<Rule>, path: Str, soFar: Option<seq<Str>>): Option<seq<Str>> {
    if rules == [] then soFar
    else Decide(rules[1..], path, if Owns(rules[0].pattern, path) then Some(rules[0].owners) else soFar)
  }

  /** A deciding rule without owners unsets ownership; so does having no deciding rule. */
  ghost function OwnersOf(rules: seq<Rule>, path: Str): seq<Str> {
    var d := Decide(rules, path, None);
    if d.Some? then d.value else []
  }

  lemma {:induction false} DecideConcat(a: seq<Rule>, b: seq<Rule>, path: Str, soFar: Option<seq<Str>>)
    ensures Decide(a + b, path, soFar) == Decide(b, path, Decide(a, path, soFar))
  {
    if a == [] {
      assert a + b == b;
    } else {
      assert (a + b)[0] == a[0] && (a + b)[1..] == a[1..] + b;
      DecideConcat(a[1..], b, path, if Owns(a[0].pattern, path) then Some(a[0].owners) else soFar);
    }
  }

  ghost predicate AnyOwns(rules: seq<Rule>, path: Str) {
    exists r :: r in rules && Owns(r.pattern, path)
  }

  lemma {:induction false} DecideFrom(rules: seq<Rule>, path: Str, soFar: Option<seq<Str>>)
    ensures Decide(rules, path, soFar) == if AnyOwns(rules, path) then Decide(rules, path, None) else soFar
    ensures AnyOwns(rules, path) <==> Decide(rules, path, None).Some?
  {
    if rules != [] {
      DecideFrom(rules[1..], path, if Owns(rules[0].pattern, path) then Some(rules[0].owners) else soFar);
      DecideFrom(rules[1..], path, if Owns(rules[0].pattern, path) then Some(rules[0].owners) else None);
      assert rules == [rules[0]] + rules[1..];
    }
  }

  /** Owners come from the later rules if any of them matches, and from the earlier ones otherwise. */
  lemma LaterRulesWin(earlier: seq<Rule>, later: seq<Rule>, path: Str)
    ensures OwnersOf(earlier + later, path) ==
            if AnyOwns(later, path) then OwnersOf(later, path) else OwnersOf(earlier, path)
  {
    DecideConcat(earlier, later, path, None);
    DecideFrom(later, path, Decide(earlier, path, None));
  }

  lemma OneRule(rule: Rule, path: Str)
    ensures AnyOwns([rule], path) <==> Owns(rule.pattern, path)
    ensures Owns(rule.pattern, path) ==> OwnersOf([rule], path) == rule.owners
  {
    assert rule in [rule] && [rule][1..] == [];
    assert Decide([], path, Some(rule.owners)) == Some(rule.owners);
  }

  /** The owners are those of the last rule that owns the path, and nobody if none does. */
  lemma {:induction false} LastRuleDecides(rules: seq<Rule>, path: Str)
    ensures AnyOwns(rules, path) ==>
              exists i :: 0 <= i < |rules| && Owns(rules[i].pattern, path) && OwnersOf(rules, path) == rules[i].owners
                          && forall j :: i < j < |rules| ==> !Owns(rules[j].pattern, path)
    ensures !AnyOwns(rules, path) ==> OwnersOf(rules, path) == []
    decreases |rules|
  {
    DecideFrom(rules, path, None);
    if AnyOwns(rules, path) {
      var front, last := rules[..|rules| - 1], rules[|rules| - 1];
      assert rules == front + [last];
      LaterRulesWin(front, [last], path);
      OneRule(last, path);
      if !Owns(last.pattern, path) {
        hide Owns, OwnersOf;
        LastRuleDecides(front, path);
      }
    }
  }

  /** The reverse scan of `matchOwners`. */
  method MatchOwners(cache: GlobCache, filePath: Str, rules: seq<Rule>) returns (owners: seq<Str>)
    requires cache.Valid()
    modifies cache
    ensures cache.Valid()
    ensures owners == OwnersOf(rules, Normalize(filePath))
  {
    var path := Normalize(filePath);
    var i := |rules|;
    assert rules[..|rules|] == rules;
    while i > 0
      invariant 0 <= i <= |rules| && cache.Valid()
      invariant OwnersOf(rules, path) == OwnersOf(rules[..i], path)
    {
      i := i - 1;
      assert rules[..i + 1] == rules[..i] + [rules[i]];
      LaterRulesWin(rules[..i], [rules[i]], path);
      OneRule(rules[i], path);
      var found := MatchPattern(cache, rules[i].pattern, path);
      if found {
        return rules[i].owners;
      }
    }
    assert rules[..0] == [];
    return [];
  }
}
