/** Ignore rules: which paths are left out of the served tree. */
module Ignore {
  import opened Types
  import opened Path
  import opened PathMap
  import opened Glob
  import Coherence

  datatype Pattern = Pattern(segs: seq<Name>, anchored: bool, dirOnly: bool)

  /** Patterns as parsing leaves them: none is empty. */
  predicate Usable(patterns: seq<Pattern>) {
    forall k :: 0 <= k < |patterns| ==> patterns[k].segs != []
  }

  // --- segments -----------------------------------------------------------------------------------

  /** Length of the run before the next '/'. */
  function Reach(s: seq<byte>): (n: nat)
    ensures n <= |s| && (n < |s| ==> s[n] == SLASH) && SLASH !in s[..n]
  {
    if s == [] || s[0] == SLASH then 0
    else
      assert s[..1 + Reach(s[1..])] == [s[0]] + s[1..][..Reach(s[1..])];
      1 + Reach(s[1..])
  }

  /** The non-empty runs between slashes. */
  function Segments(s: seq<byte>): seq<Name>
    decreases |s|
  {
    if s == [] then []
    else if s[0] == SLASH then Segments(s[1..])
    else [s[..Reach(s)]] + Segments(s[Reach(s)..])
  }

  /** The next '/' at or after `i`, or the end. */
  method FindSlash(s: seq<byte>, i: nat) returns (j: nat)
    requires i <= |s|
    ensures i <= j <= |s| && SLASH !in s[i..j] && (j < |s| ==> s[j] == SLASH)
  {
    j := i;
    while j < |s| && s[j] != SLASH
      invariant i <= j <= |s| && SLASH !in s[i..j]
    {
      assert s[i..j + 1] == s[i..j] + [s[j]];
      j := j + 1;
    }
  }

  /** What is left to split after position `i`. */
  ghost function Left(s: seq<byte>, i: nat): seq<Name> {
    if i < |s| then Segments(s[i..]) else []
  }

  method Split(s: seq<byte>) returns (out: seq<Name>)
    ensures out == Segments(s)
  {
    out := [];
    var i := 0;
    ghost var all := Segments(s);
    assert s[0..] == s && [] + Left(s, 0) == all;
    while i < |s|
      invariant 0 <= i <= |s| + 1
      invariant out + Left(s, i) == all
    {
      var j := FindSlash(s, i);
      SplitStep(s, out, i, j);
      if j > i {
        out := out + [s[i..j]];
      }
      i := j + 1;
    }
  }

  lemma {:induction false} ReachIs(s: seq<byte>, n: nat)
    requires n <= |s| && SLASH !in s[..n] && (n < |s| ==> s[n] == SLASH)
    ensures Reach(s) == n
  {
    var r := Reach(s);
    if r < n {
      NoSlashBefore(s, n, r);
    } else if n < r {
      NoSlashBefore(s, r, n);
    }
  }

  lemma NoSlashBefore(s: seq<byte>, n: int, k: int)
    requires 0 <= k < n <= |s| && SLASH !in s[..n]
    ensures s[k] != SLASH
  {
    assert s[k] == s[..n][k];
  }

  lemma SegmentAt(s: seq<byte>, i: nat, j: nat)
    requires i < |s| && i <= j <= |s| && SLASH !in s[i..j] && (j < |s| ==> s[j] == SLASH)
    ensures Left(s, i) == if j > i then [s[i..j]] + Left(s, j + 1) else Left(s, j + 1)
  {
    var r := s[i..];
    assert r[..j - i] == s[i..j];
    ReachIs(r, j - i);
    assert r[j - i..] == s[j..];
    if j < |s| {
      assert s[j..][1..] == s[j + 1..];
      assert j + 1 == |s| ==> s[j + 1..] == [];
    } else {
      assert s[j..] == [];
    }
    assert Segments(s[j..]) == Left(s, j + 1);
    if j > i {
      assert r[0] == s[i..j][0] && r[0] != SLASH;
      assert Segments(r) == [r[..j - i]] + Segments(r[j - i..]);
    }
  }

  /** One turn of the splitting loop. */
  lemma SplitStep(s: seq<byte>, out: seq<Name>, i: nat, j: nat)
    requires i < |s| && i <= j <= |s| && SLASH !in s[i..j] && (j < |s| ==> s[j] == SLASH)
    ensures out + Left(s, i) == (if j > i then out + [s[i..j]] else out) + Left(s, j + 1)
  {
    SegmentAt(s, i, j);
  }

  lemma {:induction false} FirstSegment(c: Name, rest: seq<byte>)
    requires Plain(c) && (rest != [] ==> rest[0] == SLASH)
    ensures Segments(c + rest) == [c] + Segments(rest)
  {
    var s := c + rest;
    assert s[..|c|] == c && s[|c|..] == rest && s[0] == c[0];
    ReachIs(s, |c|);
  }

  /** On a normal form the segments are the components. */
  lemma {:induction false} SegmentsOfJoin(cs: seq<Name>)
    requires AllPlain(cs)
    ensures Segments(Join(cs)) == cs
  {
    if cs != [] {
      assert Plain(cs[0]);
      if |cs| > 1 {
        FirstSegment(cs[0], [SLASH] + Join(cs[1..]));
        assert Join(cs) == cs[0] + ([SLASH] + Join(cs[1..])) && ([SLASH] + Join(cs[1..]))[1..] == Join(cs[1..]);
        SegmentsOfJoin(cs[1..]);
        assert cs == [cs[0]] + cs[1..];
      } else {
        FirstSegment(cs[0], []);
        assert cs[0] + [] == cs[0] && cs == [cs[0]];
      }
    }
  }

  // --- rules --------------------------------------------------------------------------------------

  /** An anchored pattern matches from the root down, and names the entry at its own depth. */
  predicate AnchoredHit(pat: Pattern, segs: Location, directory: bool) {
    && |pat.segs| <= |segs|
    && (forall k :: 0 <= k < |pat.segs| ==> Matches(pat.segs[k], segs[k]))
    && (pat.dirOnly ==> |pat.segs| < |segs| || directory)
  }

  /** Any other matches one name at any depth. */
  predicate FloatingHit(pat: Pattern, segs: Location, directory: bool)
    requires pat.segs != []
  {
    exists s :: 0 <= s < |segs| && Matches(pat.segs[|pat.segs| - 1], segs[s]) && (pat.dirOnly ==> s + 1 < |segs| || directory)
  }

  predicate Hit(pat: Pattern, segs: Location, directory: bool)
    requires pat.segs != []
  {
    if pat.anchored then AnchoredHit(pat, segs, directory) else FloatingHit(pat, segs, directory)
  }

  predicate Excluded(patterns: seq<Pattern>, segs: Location, directory: bool)
    requires Usable(patterns)
  {
    exists k :: 0 <= k < |patterns| && Hit(patterns[k], segs, directory)
  }

  // --- what patterns mean ---------------------------------------------------------------------------

  /** An anchored pattern decides from the root: its segments match the first components, one by one. */
  lemma AnchoredIff(pat: Pattern, segs: Location, directory: bool)
    requires pat.segs != [] && pat.anchored
    ensures Hit(pat, segs, directory) <==>
              && |pat.segs| <= |segs|
              && (forall k :: 0 <= k < |pat.segs| ==> Matches(pat.segs[k], segs[k]))
              && (pat.dirOnly && |pat.segs| == |segs| ==> directory)
  {
  }

  /** ... so what lies below a component it does not match is safe from it, however deep. */
  lemma AnchoredAtRootOnly(pat: Pattern, x: Name, segs: Location, directory: bool)
    requires pat.segs != [] && pat.anchored && !Matches(pat.segs[0], x)
    ensures !Hit(pat, [x] + segs, directory)
  {
  }

  /** A floating pattern decides by one name, at any depth: what is put above a path changes nothing. */
  lemma FloatingAnyDepth(pat: Pattern, above: Location, segs: Location, directory: bool)
    requires pat.segs != [] && !pat.anchored && segs != []
    requires forall k :: 0 <= k < |above| ==> !Matches(pat.segs[|pat.segs| - 1], above[k])
    ensures Hit(pat, above + segs, directory) <==> Hit(pat, segs, directory)
  {
    var all := above + segs;
    assert forall k :: 0 <= k < |above| ==> all[k] == above[k];
    if Hit(pat, segs, directory) {
      var s :| 0 <= s < |segs| && Matches(pat.segs[|pat.segs| - 1], segs[s]) && (pat.dirOnly ==> s + 1 < |segs| || directory);
      assert all[|above| + s] == segs[s];
    }
    if Hit(pat, all, directory) {
      var s :| 0 <= s < |all| && Matches(pat.segs[|pat.segs| - 1], all[s]) && (pat.dirOnly ==> s + 1 < |all| || directory);
      assert segs[s - |above|] == all[s];
    }
  }

  /** One name alone is hit by a floating pattern exactly when that name matches and the kind is right. */
  lemma FloatingOne(pat: Pattern, x: Name, directory: bool)
    requires pat.segs != [] && !pat.anchored
    ensures Hit(pat, [x], directory) <==> Matches(pat.segs[|pat.segs| - 1], x) && (pat.dirOnly ==> directory)
  {
    if Matches(pat.segs[|pat.segs| - 1], x) && (pat.dirOnly ==> directory) {
      assert [x][0] == x;
    }
  }

  /** A directory-only pattern never decides a file: it is hit exactly when a directory above it is. */
  lemma DirectoryOnlyIff(pat: Pattern, segs: Location)
    requires pat.segs != [] && pat.dirOnly
    ensures Hit(pat, segs, false) <==> exists n :: 0 <= n < |segs| && Hit(pat, segs[..n], true)
  {
    if Hit(pat, segs, false) {
      if pat.anchored {
        assert AnchoredHit(pat, segs[..|pat.segs|], true);
      } else {
        var s :| 0 <= s < |segs| && Matches(pat.segs[|pat.segs| - 1], segs[s]) && s + 1 < |segs|;
        assert segs[..s + 1][s] == segs[s];
        assert Hit(pat, segs[..s + 1], true);
      }
    }
    if n :| 0 <= n < |segs| && Hit(pat, segs[..n], true) {
      HitBelow(pat, segs[..n], segs, true, false);
    }
  }

  /** Any other pattern does not ask for the kind. */
  lemma KindDoesNotMatter(pat: Pattern, segs: Location)
    requires pat.segs != [] && !pat.dirOnly
    ensures Hit(pat, segs, true) <==> Hit(pat, segs, false)
  {
  }

  method HitAnchored(pat: Pattern, segs: Location, directory: bool) returns (hit: bool)
    requires pat.segs != []
    ensures hit == AnchoredHit(pat, segs, directory)
  {
    if |pat.segs| > |segs| {
      return false;
    }
    var k := 0;
    while k < |pat.segs|
      invariant 0 <= k <= |pat.segs|
      invariant forall j :: 0 <= j < k ==> Matches(pat.segs[j], segs[j])
    {
      var m := GlobSegment(pat.segs[k], segs[k]);
      if !m {
        return false;
      }
      k := k + 1;
    }
    return !pat.dirOnly || |pat.segs| < |segs| || directory;
  }

  method HitFloating(pat: Pattern, segs: Location, directory: bool) returns (hit: bool)
    requires pat.segs != []
    ensures hit == FloatingHit(pat, segs, directory)
  {
    var name := pat.segs[|pat.segs| - 1];
    for s := 0 to |segs|
      invariant forall j :: 0 <= j < s && Matches(name, segs[j]) ==> pat.dirOnly && j + 1 == |segs| && !directory
    {
      var m := GlobSegment(name, segs[s]);
      if m && (!pat.dirOnly || s + 1 < |segs| || directory) {
        return true;
      }
    }
    return false;
  }

  method Ignored(patterns: seq<Pattern>, rel: seq<byte>, directory: bool) returns (ignored: bool)
    requires Usable(patterns)
    ensures ignored == Excluded(patterns, Segments(rel), directory)
  {
    var segs := Split(rel);
    if patterns == [] || segs == [] {
      NothingExcluded(patterns, directory);
      return false;
    }
    for k := 0 to |patterns|
      invariant forall j :: 0 <= j < k ==> !Hit(patterns[j], segs, directory)
    {
      var hit;
      if patterns[k].anchored {
        hit := HitAnchored(patterns[k], segs, directory);
      } else {
        hit := HitFloating(patterns[k], segs, directory);
      }
      if hit {
        return true;
      }
    }
    return false;
  }

  lemma NothingExcluded(patterns: seq<Pattern>, directory: bool)
    requires Usable(patterns)
    ensures !Excluded(patterns, [], directory)
  {
  }

  lemma HitBelow(pat: Pattern, a: Location, p: Location, asDirectory: bool, directory: bool)
    requires pat.segs != [] && a < p && Hit(pat, a, asDirectory)
    ensures Hit(pat, p, directory)
  {
    if !pat.anchored {
      var s :| 0 <= s < |a| && Matches(pat.segs[|pat.segs| - 1], a[s]);
      assert p[s] == a[s];
    }
  }

  /** What is excluded takes everything below it along, so a scan that does not descend loses nothing else. */
  lemma ExcludedBelow(patterns: seq<Pattern>, a: Location, p: Location, asDirectory: bool, directory: bool)
    requires Usable(patterns) && a < p && Excluded(patterns, a, asDirectory)
    ensures Excluded(patterns, p, directory)
  {
    var k :| 0 <= k < |patterns| && Hit(patterns[k], a, asDirectory);
    HitBelow(patterns[k], a, p, asDirectory, directory);
  }

  function Rules(patterns: seq<Pattern>): Coherence.Rules
    requires Usable(patterns)
  {
    (p, directory) => Excluded(patterns, p, directory)
  }

  /** The ignore rules are of the kind the coherence protocol relies on. */
  lemma RulesDownward(patterns: seq<Pattern>)
    requires Usable(patterns)
    ensures Coherence.Downward(Rules(patterns))
  {
    var rules := Rules(patterns);
    forall a, p | a <= p && a != [] && Coherence.Skipped(rules, a) ensures Coherence.Skipped(rules, p) {
      if a < p {
        if rules(a, false) {
          ExcludedBelow(patterns, a, p, false, false);
        } else {
          ExcludedBelow(patterns, a, p, true, false);
        }
      } else {
        assert a == p;
      }
    }
  }
}
