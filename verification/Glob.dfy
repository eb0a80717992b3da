/** Glob matching of one path segment: the scan with a single remembered star, and what globs mean. */
module Glob {
  import opened Types

  const STAR: byte := 42
  const QUESTION: byte := 63

  predicate Fits(p: byte, c: byte) {
    p == QUESTION || p == c
  }

  /** What a pattern matches: a star any run of bytes, a question mark any one byte, anything else itself. */
  predicate Globs(pat: Name, text: Name)
    decreases |pat| + |text|
  {
    if pat == [] then text == []
    else if pat[0] == STAR then Globs(pat[1..], text) || (text != [] && Globs(pat, text[1..]))
    else text != [] && Fits(pat[0], text[0]) && Globs(pat[1..], text[1..])
  }

  predicate AllStars(pat: Name) {
    forall k :: 0 <= k < |pat| ==> pat[k] == STAR
  }

  /** The scan: literal equality is tried before the star, and only the last star is gone back to. */
  predicate Scan(pat: Name, text: Name, p: nat, t: nat, star: int, mark: nat)
    requires p <= |pat| && mark <= t <= |text| && -1 <= star < p
    decreases |text| - mark, |text| - t, |pat| - p
  {
    if t == |text| then AllStars(pat[p..])
    else if p < |pat| && Fits(pat[p], text[t]) then Scan(pat, text, p + 1, t + 1, star, mark)
    else if p < |pat| && pat[p] == STAR then Scan(pat, text, p + 1, t, p, t)
    else if star >= 0 then Scan(pat, text, star + 1, mark + 1, star, mark + 1)
    else false
  }

  predicate Matches(pat: Name, text: Name) {
    Scan(pat, text, 0, 0, -1, 0)
  }

  method OnlyStars(pat: Name, start: nat) returns (r: bool)
    requires start <= |pat|
    ensures r == AllStars(pat[start..])
  {
    var p := start;
    while p < |pat| && pat[p] == STAR
      invariant start <= p <= |pat|
      invariant forall k :: start <= k < p ==> pat[k] == STAR
    {
      p := p + 1;
    }
    if p < |pat| {
      assert pat[start..][p - start] != STAR;
    }
    return p == |pat|;
  }

  method GlobSegment(pat: Name, text: Name) returns (r: bool)
    ensures r == Matches(pat, text)
  {
    var p, t, star, mark := 0, 0, -1, 0;
    while t < |text|
      invariant 0 <= p <= |pat| && 0 <= mark <= t <= |text| && -1 <= star < p
      invariant Scan(pat, text, p, t, star, mark) == Matches(pat, text)
      decreases |text| - mark, |text| - t, |pat| - p
    {
      if p < |pat| && (pat[p] == QUESTION || pat[p] == text[t]) {
        p, t := p + 1, t + 1;
      } else if p < |pat| && pat[p] == STAR {
        star, p, mark := p, p + 1, t;
      } else if star >= 0 {
        p, mark := star + 1, mark + 1;
        t := mark;
      } else {
        return false;
      }
    }
    r := OnlyStars(pat, p);
  }

  // --- globs ------------------------------------------------------------------------------------

  lemma {:induction false} GlobsEmpty(pat: Name)
    ensures Globs(pat, []) <==> AllStars(pat)
  {
    if pat != [] {
      GlobsEmpty(pat[1..]);
      assert pat == [pat[0]] + pat[1..];
      assert AllStars(pat[1..]) && pat[0] == STAR ==> forall k :: 0 <= k < |pat| ==> pat[k] == ([pat[0]] + pat[1..])[k];
    }
  }

  /** A star may swallow any number of bytes first. */
  lemma {:induction false} StarSwallows(pat: Name, text: Name, n: nat)
    requires pat != [] && pat[0] == STAR && n <= |text| && Globs(pat, text[n..])
    ensures Globs(pat, text)
    decreases |text|
  {
    if n == 0 {
      assert text[n..] == text;
    } else {
      assert text[1..][n - 1..] == text[n..];
      StarSwallows(pat, text[1..], n - 1);
    }
  }

  /** ... and whatever a star pattern matches, it does so by swallowing some number. */
  lemma {:induction false} StarSplits(pat: Name, text: Name) returns (n: nat)
    requires pat != [] && pat[0] == STAR && Globs(pat, text)
    ensures n <= |text| && Globs(pat[1..], text[n..])
    decreases |text|
  {
    if Globs(pat[1..], text) {
      n := 0;
      assert text[0..] == text;
    } else {
      n := StarSplits(pat, text[1..]);
      assert text[1..][n..] == text[n + 1..];
      n := n + 1;
    }
  }

  /** The bytes `pat[a..a+n]`, none of them a star, fit `text[b..b+n]` one by one. */
  predicate Aligned(pat: Name, a: nat, text: Name, b: nat, n: nat) {
    && a + n <= |pat| && b + n <= |text|
    && forall k {:trigger pat[k]} :: a <= k < a + n ==> pat[k] != STAR && Fits(pat[k], text[k - a + b])
  }

  /** Past an aligned stretch both sides may be read on from its end. */
  lemma {:induction false} AlignedGlobs(pat: Name, a: nat, text: Name, b: nat, n: nat)
    requires Aligned(pat, a, text, b, n)
    ensures Globs(pat[a..], text[b..]) <==> Globs(pat[a + n..], text[b + n..])
    decreases n
  {
    if n > 0 {
      assert pat[a] != STAR && Fits(pat[a], text[b]);
      assert pat[a..][1..] == pat[a + 1..] && text[b..][1..] == text[b + 1..];
      AlignedGlobs(pat, a + 1, text, b + 1, n - 1);
    }
  }

  /** A star-free stretch of a matching pattern is aligned with the text it starts on. */
  lemma {:induction false} GlobsAligned(pat: Name, a: nat, text: Name, b: nat, n: nat)
    requires a + n <= |pat| && b <= |text| && (forall k :: a <= k < a + n ==> pat[k] != STAR)
    requires Globs(pat[a..], text[b..])
    ensures b + n <= |text| && Globs(pat[a + n..], text[b + n..])
    decreases n
  {
    if n > 0 {
      assert pat[a] != STAR;
      assert pat[a..][1..] == pat[a + 1..] && text[b..][1..] == text[b + 1..];
      GlobsAligned(pat, a + 1, text, b + 1, n - 1);
    }
  }

  // --- the scan is exact on texts without a star ---------------------------------------------------

  /** What the scan has established: since the last star, everything is aligned. */
  predicate Sound(pat: Name, text: Name, p: nat, t: nat, star: int, mark: nat) {
    && p <= |pat| && mark <= t <= |text| && -1 <= star < p
    && (star >= 0 ==> pat[star] == STAR && p - star - 1 == t - mark && Aligned(pat, star + 1, text, mark, t - mark))
  }

  /** The question the scan is still answering. */
  predicate Open(pat: Name, text: Name, p: nat, t: nat, star: int, mark: nat)
    requires p <= |pat| && mark <= t <= |text| && -1 <= star < p
  {
    if star < 0 then Globs(pat[p..], text[t..]) else Globs(pat[star..], text[mark..])
  }

  /** Going on to a new star loses nothing: what an earlier star could do, the later one can. */
  lemma LaterStar(pat: Name, text: Name, p: nat, t: nat, star: int, mark: nat)
    requires Sound(pat, text, p, t, star, mark) && p < |pat| && pat[p] == STAR
    ensures Open(pat, text, p, t, star, mark) <==> Globs(pat[p..], text[t..])
  {
    if star >= 0 {
      var n := t - mark;
      AlignedGlobs(pat, star + 1, text, mark, n);
      assert pat[star..][1..] == pat[star + 1..];
      if Globs(pat[star..], text[mark..]) {
        var m := StarSplits(pat[star..], text[mark..]);
        assert text[mark..][m..] == text[mark + m..];
        GlobsAligned(pat, star + 1, text, mark + m, n);
        assert text[t..][m..] == text[mark + m + n..];
        StarSwallows(pat[p..], text[t..], m);
      }
    }
  }

  /** Where the scan is stuck, the last star has to take one byte more. */
  lemma StuckStar(pat: Name, text: Name, p: nat, t: nat, star: int, mark: nat)
    requires Sound(pat, text, p, t, star, mark) && star >= 0 && t < |text|
    requires p == |pat| || (pat[p] != STAR && !Fits(pat[p], text[t]))
    ensures Globs(pat[star..], text[mark..]) <==> Globs(pat[star..], text[mark + 1..])
  {
    AlignedGlobs(pat, star + 1, text, mark, t - mark);
    assert pat[star..][1..] == pat[star + 1..] && text[mark..][1..] == text[mark + 1..];
    assert !Globs(pat[p..], text[t..]);
  }

  /** At the end of the text the last star has nothing more to take. */
  lemma EndOfText(pat: Name, text: Name, p: nat, star: int, mark: nat)
    requires Sound(pat, text, p, |text|, star, mark)
    ensures Open(pat, text, p, |text|, star, mark) <==> AllStars(pat[p..])
  {
    var t := |text|;
    assert text[t..] == [];
    GlobsEmpty(pat[p..]);
    if star >= 0 {
      AlignedGlobs(pat, star + 1, text, mark, t - mark);
      assert pat[star..][1..] == pat[star + 1..];
      if Globs(pat[star..], text[mark..]) {
        var m := StarSplits(pat[star..], text[mark..]);
        assert text[mark..][m..] == text[mark + m..];
        GlobsAligned(pat, star + 1, text, mark + m, t - mark);
        assert m == 0;
      }
    }
  }

  lemma {:induction false} ScanExact(pat: Name, text: Name, p: nat, t: nat, star: int, mark: nat)
    requires STAR !in text && Sound(pat, text, p, t, star, mark)
    ensures Scan(pat, text, p, t, star, mark) == Open(pat, text, p, t, star, mark)
    decreases |text| - mark, |text| - t, |pat| - p
  {
    if t == |text| {
      EndOfText(pat, text, p, star, mark);
    } else if p < |pat| && Fits(pat[p], text[t]) {
      assert text[t] != STAR;
      assert Sound(pat, text, p + 1, t + 1, star, mark);
      ScanExact(pat, text, p + 1, t + 1, star, mark);
      assert pat[p..][1..] == pat[p + 1..] && text[t..][1..] == text[t + 1..];
    } else if p < |pat| && pat[p] == STAR {
      LaterStar(pat, text, p, t, star, mark);
      ScanExact(pat, text, p + 1, t, p, t);
    } else if star >= 0 {
      StuckStar(pat, text, p, t, star, mark);
      ScanExact(pat, text, star + 1, mark + 1, star, mark + 1);
    }
  }

  // --- the scan never matches too much ------------------------------------------------------------

  /** A match from here, or from where the last star began, is a match of the whole. */
  predicate Leads(pat: Name, text: Name, p: nat, t: nat, star: int, mark: nat)
    requires p <= |pat| && mark <= t <= |text| && -1 <= star < p
  {
    && (Globs(pat[p..], text[t..]) ==> Globs(pat, text))
    && (star >= 0 ==> pat[star] == STAR && (Globs(pat[star..], text[mark..]) ==> Globs(pat, text)))
  }

  lemma FitsLead(pat: Name, text: Name, p: nat, t: nat)
    requires p < |pat| && t < |text| && Fits(pat[p], text[t]) && Globs(pat[p + 1..], text[t + 1..])
    ensures Globs(pat[p..], text[t..])
  {
    assert pat[p..][1..] == pat[p + 1..] && text[t..][1..] == text[t + 1..];
  }

  lemma StarLeads(pat: Name, text: Name, star: nat, mark: nat)
    requires star < |pat| && mark <= |text| && pat[star] == STAR
    ensures Globs(pat[star + 1..], text[mark..]) ==> Globs(pat[star..], text[mark..])
    ensures mark < |text| && Globs(pat[star..], text[mark + 1..]) ==> Globs(pat[star..], text[mark..])
  {
    assert pat[star..][1..] == pat[star + 1..];
    assert mark < |text| ==> text[mark..][1..] == text[mark + 1..];
  }

  /** One step of the scan keeps what leads to a match. */
  lemma LeadsOn(pat: Name, text: Name, p: nat, t: nat, star: int, mark: nat)
    requires p <= |pat| && mark <= t < |text| && -1 <= star < p && Leads(pat, text, p, t, star, mark)
    ensures p < |pat| && Fits(pat[p], text[t]) ==> Leads(pat, text, p + 1, t + 1, star, mark)
    ensures p < |pat| && pat[p] == STAR ==> Leads(pat, text, p + 1, t, p, t)
    ensures star >= 0 ==> Leads(pat, text, star + 1, mark + 1, star, mark + 1)
  {
    if p < |pat| && Fits(pat[p], text[t]) && Globs(pat[p + 1..], text[t + 1..]) {
      FitsLead(pat, text, p, t);
    }
    if p < |pat| && pat[p] == STAR {
      StarLeads(pat, text, p, t);
    }
    if star >= 0 {
      StarLeads(pat, text, star, mark);
      StarLeads(pat, text, star, mark + 1);
    }
  }

  lemma {:induction false} ScanSound(pat: Name, text: Name, p: nat, t: nat, star: int, mark: nat)
    requires p <= |pat| && mark <= t <= |text| && -1 <= star < p && Leads(pat, text, p, t, star, mark)
    requires Scan(pat, text, p, t, star, mark)
    ensures Globs(pat, text)
    decreases |text| - mark, |text| - t, |pat| - p
  {
    if t == |text| {
      assert text[t..] == [];
      GlobsEmpty(pat[p..]);
    } else {
      LeadsOn(pat, text, p, t, star, mark);
      if p < |pat| && Fits(pat[p], text[t]) {
        ScanSound(pat, text, p + 1, t + 1, star, mark);
      } else if p < |pat| && pat[p] == STAR {
        ScanSound(pat, text, p + 1, t, p, t);
      } else {
        ScanSound(pat, text, star + 1, mark + 1, star, mark + 1);
      }
    }
  }

  /** Whatever the scan accepts the pattern means, and on texts without a star it accepts all of that. */
  lemma {:induction false} MatchesGlobs(pat: Name, text: Name)
    ensures Matches(pat, text) ==> Globs(pat, text)
    ensures STAR !in text ==> (Matches(pat, text) <==> Globs(pat, text))
  {
    assert pat[0..] == pat && text[0..] == text;
    if Matches(pat, text) {
      ScanSound(pat, text, 0, 0, -1, 0);
    }
    if STAR !in text {
      ScanExact(pat, text, 0, 0, -1, 0);
    }
  }

  // --- a star in the text ---------------------------------------------------------------------------

  lemma {:induction false} SamePrefix(u: Name, x: Name, y: Name)
    requires Globs(x, y)
    ensures Globs(u + x, u + y)
  {
    if u == [] {
      assert u + x == x && u + y == y;
    } else {
      SamePrefix(u[1..], x, y);
      var pat, text := u + x, u + y;
      assert pat[1..] == u[1..] + x && text[1..] == u[1..] + y;
      assert pat[0..] == pat && text[0..] == text;
      FitsLead(pat, text, 0, 0);
    }
  }

  /** Equal bytes are consumed one by one and no star is remembered. */
  lemma {:induction false} ScanEqual(pat: Name, text: Name, p: nat, n: nat)
    requires p + n <= |pat| && p + n <= |text| && (forall k :: p <= k < p + n ==> pat[k] == text[k])
    ensures Scan(pat, text, p, p, -1, 0) == Scan(pat, text, p + n, p + n, -1, 0)
    decreases n
  {
    if n > 0 {
      ScanEqual(pat, text, p + 1, n - 1);
    }
  }

  /** With no star left or remembered, a pattern longer than the text is refused. */
  lemma {:induction false} ScanTooLong(pat: Name, text: Name, p: nat, t: nat)
    requires p <= |pat| && t <= |text| && |pat| - p > |text| - t && (forall k :: p <= k < |pat| ==> pat[k] != STAR)
    ensures !Scan(pat, text, p, t, -1, 0)
    decreases |text| - t
  {
    if t == |text| {
      assert pat[p..][0] == pat[p];
    } else if Fits(pat[p], text[t]) {
      ScanTooLong(pat, text, p + 1, t + 1);
    }
  }

  lemma {:induction false} LastStar(text: Name) returns (i: nat)
    requires STAR in text
    ensures i < |text| && text[i] == STAR && STAR !in text[i + 1..]
  {
    var n := |text| - 1;
    assert text == text[..n] + [text[n]];
    if text[n] == STAR {
      i := n;
    } else {
      i := LastStar(text[..n]);
      assert text[i + 1..] == text[..n][i + 1..] + [text[n]];
    }
  }

  /** For every text with a star in it some pattern that means it is refused. */
  lemma StarredTextRefused(text: Name) returns (pat: Name)
    requires STAR in text
    ensures Globs(pat, text) && !Matches(pat, text)
  {
    var i := LastStar(text);
    var u, v := text[..i], text[i + 1..];
    var x, y := [STAR, QUESTION] + v, [STAR] + v;
    pat := u + x;
    assert text == u + y;
    assert Globs(x, y) by {
      assert x[1..] == [QUESTION] + v && ([QUESTION] + v)[1..] == v && y[1..] == v;
      SamePrefix(v, [], []);
      assert v + [] == v;
    }
    SamePrefix(u, x, y);
    ScanEqual(pat, text, 0, i + 1);
    assert forall k :: i + 2 <= k < |pat| ==> pat[k] == v[k - i - 2];
    ScanTooLong(pat, text, i + 1, i + 1);
  }

  /** The scan decides every pattern correctly on exactly the texts without a star. */
  lemma {:induction false} ExactIff(text: Name)
    ensures (forall pat :: Matches(pat, text) <==> Globs(pat, text)) <==> STAR !in text
  {
    if STAR in text {
      var pat := StarredTextRefused(text);
    } else {
      forall pat ensures Matches(pat, text) <==> Globs(pat, text) {
        MatchesGlobs(pat, text);
      }
    }
  }

  // --- the meaning, spelt out -------------------------------------------------------------------

  /** Without a `*` (42) a pattern matches texts of its own length, byte by byte, `?` (63) standing for any one. */
  lemma {:induction false} PlainGlobs(pat: Name, text: Name)
    requires 42 !in pat
    ensures Globs(pat, text) <==> |pat| == |text| && forall k :: 0 <= k < |pat| ==> pat[k] == 63 || pat[k] == text[k]
    decreases |pat|
  {
    if pat != [] {
      assert pat[0] in pat && 42 !in pat[1..];
      if text != [] {
        PlainGlobs(pat[1..], text[1..]);
        var p, t := pat[1..], text[1..];
        if |pat| == |text| && (pat[0] == 63 || pat[0] == text[0])
           && forall k :: 0 <= k < |p| ==> p[k] == 63 || p[k] == t[k] {
          forall k | 0 <= k < |pat| ensures pat[k] == 63 || pat[k] == text[k] {
            assert k > 0 ==> pat[k] == p[k - 1] && text[k] == t[k - 1];
          }
        }
      }
    }
  }

  /** A pattern of plain stretches around one `*` matches what begins with the first and ends with the second. */
  lemma {:induction false} StarGlobs(a: Name, b: Name, text: Name)
    requires 42 !in a
    ensures Globs(a + [42] + b, text) <==>
              exists n :: |a| <= n <= |text| && Globs(a, text[..|a|]) && Globs(b, text[n..])
    decreases |a|
  {
    var pat := a + [42] + b;
    if a == [] {
      assert pat[0] == STAR && pat[1..] == b;
      assert Globs(a, text[..0]);
      if Globs(pat, text) {
        var n := StarSplits(pat, text);
        assert Globs(b, text[n..]);
      }
      if n :| 0 <= n <= |text| && Globs(b, text[n..]) {
        StarTakes(pat, text, n);
      }
    } else {
      assert a[0] in a && 42 !in a[1..];
      assert pat[0] == a[0] && pat[1..] == a[1..] + [42] + b;
      if text != [] {
        StarGlobs(a[1..], b, text[1..]);
        StarShift(a, b, text);
      }
    }
  }

  lemma {:induction false} StarTakes(pat: Name, text: Name, n: nat)
    requires pat != [] && pat[0] == STAR && n <= |text| && Globs(pat[1..], text[n..])
    ensures Globs(pat, text)
  {
    assert Globs(pat, text[n..]);
    StarSwallows(pat, text, n);
  }

  lemma StarShift(a: Name, b: Name, text: Name)
    requires a != [] && text != [] && a[0] != STAR
    ensures (exists n :: |a| <= n <= |text| && Globs(a, text[..|a|]) && Globs(b, text[n..])) <==>
              && Fits(a[0], text[0])
              && exists n :: |a| - 1 <= n <= |text| - 1 && Globs(a[1..], text[1..][..|a| - 1]) && Globs(b, text[1..][n..])
  {
    if |a| <= |text| {
      assert text[..|a|][1..] == text[1..][..|a| - 1] && text[..|a|][0] == text[0];
      assert Globs(a, text[..|a|]) <==> Fits(a[0], text[0]) && Globs(a[1..], text[1..][..|a| - 1]);
    }
    if n :| |a| <= n <= |text| && Globs(a, text[..|a|]) && Globs(b, text[n..]) {
      assert text[1..][n - 1..] == text[n..];
    }
    if n :| |a| - 1 <= n <= |text| - 1 && Globs(a[1..], text[1..][..|a| - 1]) && Globs(b, text[1..][n..]) {
      assert text[1..][n..] == text[n + 1..];
    }
  }

  /** Such a pattern is also matched that way, whatever the text. */
  lemma {:induction false} PlainScan(pat: Name, text: Name, p: nat)
    requires 42 !in pat && p <= |pat| && p <= |text|
    ensures Scan(pat, text, p, p, -1, 0) <==>
              |pat| == |text| && forall k :: p <= k < |pat| ==> pat[k] == 63 || pat[k] == text[k]
    decreases |text| - p
  {
    if p < |text| && p < |pat| {
      assert pat[p] in pat;
      PlainScan(pat, text, p + 1);
    } else if p == |text| && p < |pat| {
      assert pat[p] in pat && pat[p..][0] == pat[p];
    }
  }

  lemma PlainMatches(pat: Name, text: Name)
    requires 42 !in pat
    ensures Matches(pat, text) <==> |pat| == |text| && forall k :: 0 <= k < |pat| ==> pat[k] == 63 || pat[k] == text[k]
  {
    PlainScan(pat, text, 0);
  }
}
