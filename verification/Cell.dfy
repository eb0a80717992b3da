/** Mirror updates seen at one path: every list of changes acts on a cell in one of three ways. */
module Cell {
  import opened Types
  import opened PathMap
  import opened CaseFold

  /** A mirror update as the wire carries it. */
  datatype Change = Upsert(path: Location, attr: Attributes) | Remove(path: Location) | Rescan

  function Apply(m: Mirror, c: Change): Mirror {
    match c
    case Upsert(p, a) => Upserted(m, p, a)
    case Remove(p) => Removed(m, p)
    case Rescan => m
  }

  function ApplyAll(m: Mirror, cs: seq<Change>): Mirror {
    if cs == [] then m else Apply(ApplyAll(m, cs[..|cs| - 1]), cs[|cs| - 1])
  }

  function At(m: Mirror, p: Location): Option<Attributes> {
    if p in m then Some(m[p]) else None
  }

  /** What a list of changes does to one path: nothing, supply a default directory, or a fixed outcome. */
  datatype Action = Keep | Fill | Set(value: Option<Attributes>)

  function Run(a: Action, v: Option<Attributes>): Option<Attributes> {
    match a
    case Keep => v
    case Fill => if v.None? then Some(IMPLICIT_DIRECTORY) else v
    case Set(w) => w
  }

  function Then(a: Action, b: Action): Action {
    match b
    case Keep => a
    case Set(_) => b
    case Fill => if a.Set? then Set(Run(Fill, a.value)) else Fill
  }

  function ActionOf(c: Change, p: Location): Action {
    match c
    case Upsert(q, a) =>
      if q == p then Set(Some(a)) else if p < q then Fill
      else if q != [] && q < p && !a.kind.Directory? then Set(None) else Keep
    case Remove(q) => if q != [] && q <= p then Set(None) else Keep
    case Rescan => Keep
  }

  function ActionOfAll(cs: seq<Change>, p: Location): Action {
    if cs == [] then Keep else Then(ActionOfAll(cs[..|cs| - 1], p), ActionOf(cs[|cs| - 1], p))
  }

  lemma RunThen(a: Action, b: Action, v: Option<Attributes>)
    ensures Run(Then(a, b), v) == Run(b, Run(a, v))
  {
  }

  lemma {:induction false} ActionConcat(a: seq<Change>, b: seq<Change>, p: Location)
    ensures ActionOfAll(a + b, p) == Then(ActionOfAll(a, p), ActionOfAll(b, p))
  {
    if b == [] {
      assert a + b == a;
    } else {
      assert (a + b)[..|a + b| - 1] == a + b[..|b| - 1];
      ActionConcat(a, b[..|b| - 1], p);
    }
  }

  // --- changes that go astray -------------------------------------------------------

  /** Where an upsert finds no room: on the way to its path, below something that is no directory. */
  function Refused(m: Mirror, c: Change): set<Location> {
    if c.Upsert? then set p | p in Ancestors(c.path) && Blocked(m, p) else {}
  }

  /**
   * What a received change turns into on lookup. A removal whose path is not held as spelt may, in a
   * case-insensitive mount, take a path that folds like it.
   */
  predicate Aims(mode: LookupMode, m: Mirror, c: Change, hit: Change) {
    || hit == c
    || (mode.CaseInsensitive? && c.Remove? && hit.Remove?
        && c.path !in m && hit.path in m && SameFolding(hit.path, c.path))
  }

  /** Everything a removal takes with a path other than the one it names. */
  function Struck(m: Mirror, c: Change, hit: Change): set<Location> {
    if hit != c && hit.Remove? then set p | p in m && hit.path <= p else {}
  }

  /** A change with a fixed outcome at a path makes up for whatever went astray there before. */
  function Unsettled(before: set<Location>, c: Change): set<Location> {
    set p | p in before && !ActionOf(c, p).Set?
  }

  predicate Aimed(mode: LookupMode, m: Mirror, cs: seq<Change>, hits: seq<Change>) {
    && |hits| == |cs|
    && forall k {:trigger hits[k]} :: 0 <= k < |cs| ==> Aims(mode, ApplyAll(m, hits[..k]), cs[k], hits[k])
  }

  function RefusedAfter(m: Mirror, before: set<Location>, cs: seq<Change>, hits: seq<Change>): set<Location>
    requires |hits| == |cs|
    decreases |cs|
  {
    if cs == [] then before
    else
      var n := |cs| - 1;
      Unsettled(RefusedAfter(m, before, cs[..n], hits[..n]), cs[n]) + Refused(ApplyAll(m, hits[..n]), cs[n])
  }

  function StruckAfter(m: Mirror, before: set<Location>, cs: seq<Change>, hits: seq<Change>): set<Location>
    requires |hits| == |cs|
    decreases |cs|
  {
    if cs == [] then before
    else
      var n := |cs| - 1;
      Unsettled(StruckAfter(m, before, cs[..n], hits[..n]), cs[n]) + Struck(ApplyAll(m, hits[..n]), cs[n], hits[n])
  }

  lemma RemovedTree(m: Mirror, q: Location)
    requires TreeClosed(m)
    ensures TreeClosed(Removed(m, q))
  {
    var m' := Removed(m, q);
    forall x | x in m' && x != [] ensures IsDirectory(m', Parent(x)) {
      assert q != [] && q <= Parent(x) ==> q <= x;
    }
  }

  lemma WithDirectoriesTree(m: Mirror, p: Location)
    requires TreeClosed(m) && forall k :: 0 <= k <= |p| && p[..k] in m ==> m[p[..k]].kind.Directory?
    ensures TreeClosed(WithDirectories(m, p)) && IsDirectory(WithDirectories(m, p), p)
  {
    var m' := WithDirectories(m, p);
    forall k | 0 <= k <= |p| ensures IsDirectory(m', p[..k]) {
      assert p[..k] in Ancestors(p);
    }
    assert p[..|p|] == p;
    forall x | x in m' && x != [] ensures IsDirectory(m', Parent(x)) {
      if x !in m {
        var k :| 0 <= k <= |p| && x == p[..k];
        assert Parent(x) == p[..k - 1];
      }
    }
  }

  lemma UpsertedTree(m: Mirror, q: Location, a: Attributes)
    requires TreeClosed(m)
    ensures TreeClosed(Upserted(m, q, a))
  {
    if q != [] && !Blocked(m, q) {
      var d := Parent(q);
      assert forall k :: 0 <= k <= |d| ==> d[..k] == q[..k];
      WithDirectoriesTree(m, d);
      var w := WithDirectories(m, d);
      var m' := WithAttributes(w, q, a);
      forall x | x in m' && x != [] ensures IsDirectory(m', Parent(x)) {
        if x != q {
          assert x in w;
          assert q < Parent(x) ==> q < x;
          assert Parent(x) == q && !a.kind.Directory? ==> q < x;
        }
      }
    }
  }

  lemma BlockedAbsent(m: Mirror, p: Location)
    requires TreeClosed(m) && Blocked(m, p)
    ensures p !in m
  {
    var k :| 0 <= k < |p| && p[..k] in m && !m[p[..k]].kind.Directory?;
    if p in m {
      PrefixHeld(m, p, k);
    }
  }

  lemma AbsentBelow(m: Mirror, q: Location, p: Location)
    requires TreeClosed(m) && q !in m && q <= p
    ensures p !in m
  {
    assert p[..|q|] == q;
    if p in m {
      PrefixHeld(m, p, |q|);
    }
  }

  lemma OnePrefix(q: Location, v: Location, p: Location)
    requires |q| == |v|
    ensures q <= p && v <= p ==> q == v
  {
    assert q <= p ==> q == p[..|v|];
  }

  lemma UpsertAbove(m: Mirror, q: Location, a: Attributes, p: Location)
    requires TreeClosed(m) && p < q && p != [] && !Blocked(m, p)
    ensures At(Upserted(m, q, a), p) == Run(Fill, At(m, p))
  {
    assert p == q[..|p|];
    if p !in m {
      forall k | 0 <= k < |q| && q[..k] in m ensures m[q[..k]].kind.Directory? {
        if k < |p| {
          assert q[..k] == p[..k];
        } else {
          assert q[..k][..|p|] == p;
          PrefixHeld(m, q[..k], |p|);
        }
      }
      assert Parent(q)[..|p|] == p;
      assert p in Ancestors(Parent(q));
    }
  }

  lemma UpsertBeside(m: Mirror, q: Location, a: Attributes, p: Location)
    requires q != p && !(p < q) && (q < p ==> a.kind.Directory?)
    ensures At(Upserted(m, q, a), p) == At(m, p)
  {
    if q != [] {
      assert p in Ancestors(Parent(q)) ==> p < q;
    }
  }

  lemma UpsertBelow(m: Mirror, q: Location, a: Attributes, p: Location)
    requires TreeClosed(m) && q != [] && q < p && !a.kind.Directory?
    ensures p !in Upserted(m, q, a)
  {
    if Blocked(m, q) {
      var k :| 0 <= k < |q| && q[..k] in m && !m[q[..k]].kind.Directory?;
      assert p[..k] == q[..k];
      BlockedAbsent(m, p);
    }
  }

  /** An upsert does to `p` what its action says unless `p` is where it is refused. */
  lemma CellUpsert(m: Mirror, q: Location, a: Attributes, p: Location)
    requires TreeClosed(m) && p != []
    ensures var c := Upsert(q, a);
            p !in Refused(m, c) <==> At(Upserted(m, q, a), p) == Run(ActionOf(c, p), At(m, p))
  {
    var c := Upsert(q, a);
    if p <= q {
      assert p == q[..|p|] && p in Ancestors(q);
      if Blocked(m, p) {
        BlockedAbsent(m, p);
        var k :| 0 <= k < |p| && p[..k] in m && !m[p[..k]].kind.Directory?;
        assert q[..k] == p[..k];
        assert Blocked(m, q);
      } else if p < q {
        UpsertAbove(m, q, a, p);
      }
    } else {
      assert p !in Ancestors(q);
      if q != [] && q < p && !a.kind.Directory? {
        UpsertBelow(m, q, a, p);
      } else if q != [] {
        UpsertBeside(m, q, a, p);
      }
    }
  }

  /** A removal does to `p` what its action says unless it takes `p` along with a path it does not name. */
  lemma CellRemove(mode: LookupMode, m: Mirror, q: Location, v: Location, p: Location)
    requires TreeClosed(m) && p != [] && Aims(mode, m, Remove(q), Remove(v))
    ensures p !in Struck(m, Remove(q), Remove(v)) <==> At(Removed(m, v), p) == Run(ActionOf(Remove(q), p), At(m, p))
  {
    if v != q {
      if q <= p {
        AbsentBelow(m, q, p);
      }
      OnePrefix(q, v, p);
    }
  }

  /** A change does to a path what its action says, except exactly where it goes astray. */
  lemma CellChange(mode: LookupMode, m: Mirror, c: Change, hit: Change, p: Location)
    requires TreeClosed(m) && p != [] && Aims(mode, m, c, hit)
    ensures TreeClosed(Apply(m, hit))
    ensures p !in Refused(m, c) + Struck(m, c, hit) <==> At(Apply(m, hit), p) == Run(ActionOf(c, p), At(m, p))
  {
    match c
    case Rescan =>
    case Remove(q) =>
      RemovedTree(m, hit.path);
      CellRemove(mode, m, q, hit.path, p);
    case Upsert(q, a) =>
      UpsertedTree(m, q, a);
      CellUpsert(m, q, a, p);
  }

  /** Where a change went astray, the mirror holds nothing; what it should hold is something. */
  lemma AstrayCell(mode: LookupMode, m: Mirror, c: Change, hit: Change, p: Location)
    requires TreeClosed(m) && p != [] && Aims(mode, m, c, hit) && p in Refused(m, c) + Struck(m, c, hit)
    ensures p !in Apply(m, hit)
    ensures var a := ActionOf(c, p); (a.Keep? && p in m) || a.Fill? || (a.Set? && a.value.Some?)
  {
    if p in Refused(m, c) {
      BlockedAbsent(m, p);
      var j :| 0 <= j <= |c.path| && p == c.path[..j];
      var k :| 0 <= k < |p| && p[..k] in m && !m[p[..k]].kind.Directory?;
      assert c.path[..k] == p[..k];
      assert Blocked(m, c.path);
    } else {
      OnePrefix(c.path, hit.path, p);
    }
  }

  /**
   * `v` is what the changes received so far make of `p`. The mirror holds that, except where a change
   * went astray: there it holds nothing, or a directory supplied by default.
   */
  predicate Stands(m: Mirror, astray: set<Location>, p: Location, v: Option<Attributes>) {
    if p in astray then v.Some? && (p in m ==> m[p] == IMPLICIT_DIRECTORY) else v == At(m, p)
  }

  lemma StandsOn(mode: LookupMode, m: Mirror, before: set<Location>, c: Change, hit: Change, p: Location, v: Option<Attributes>)
    requires TreeClosed(m) && p != [] && Aims(mode, m, c, hit) && Stands(m, before, p, v)
    ensures TreeClosed(Apply(m, hit))
    ensures Stands(Apply(m, hit), Unsettled(before, c) + Refused(m, c) + Struck(m, c, hit), p, Run(ActionOf(c, p), v))
  {
    CellChange(mode, m, c, hit, p);
    if p in Refused(m, c) + Struck(m, c, hit) {
      AstrayCell(mode, m, c, hit, p);
    }
  }

  /** A list of received changes acts on every path as its action says, except where one of them went astray. */
  lemma {:induction false} CellChanges(mode: LookupMode, m: Mirror, refused: set<Location>, struck: set<Location>,
                                       cs: seq<Change>, hits: seq<Change>, p: Location, v: Option<Attributes>)
    requires TreeClosed(m) && p != [] && Aimed(mode, m, cs, hits) && Stands(m, refused + struck, p, v)
    ensures TreeClosed(ApplyAll(m, hits))
    ensures Stands(ApplyAll(m, hits), RefusedAfter(m, refused, cs, hits) + StruckAfter(m, struck, cs, hits),
                   p, Run(ActionOfAll(cs, p), v))
    decreases |cs|
  {
    if cs != [] {
      var n := |cs| - 1;
      AimedPrefix(mode, m, cs, hits, n);
      CellChanges(mode, m, refused, struck, cs[..n], hits[..n], p, v);
      var now := ApplyAll(m, hits[..n]);
      var r, k := RefusedAfter(m, refused, cs[..n], hits[..n]), StruckAfter(m, struck, cs[..n], hits[..n]);
      StandsOn(mode, now, r + k, cs[n], hits[n], p, Run(ActionOfAll(cs[..n], p), v));
      RunThen(ActionOfAll(cs[..n], p), ActionOf(cs[n], p), v);
    }
  }

  lemma {:induction false} AimedPrefix(mode: LookupMode, m: Mirror, cs: seq<Change>, hits: seq<Change>, n: nat)
    requires Aimed(mode, m, cs, hits) && n < |cs|
    ensures Aimed(mode, m, cs[..n], hits[..n]) && Aims(mode, ApplyAll(m, hits[..n]), cs[n], hits[n])
  {
    forall k | 0 <= k < n ensures Aims(mode, ApplyAll(m, hits[..n][..k]), cs[..n][k], hits[..n][k]) {
      assert hits[..n][..k] == hits[..k];
      assert Aims(mode, ApplyAll(m, hits[..k]), cs[k], hits[k]);
    }
  }

  lemma {:induction false} ChangesTree(m: Mirror, cs: seq<Change>)
    requires TreeClosed(m)
    ensures TreeClosed(ApplyAll(m, cs))
  {
    if cs != [] {
      var n := |cs| - 1;
      ChangesTree(m, cs[..n]);
      match cs[n]
      case Rescan =>
      case Remove(q) => RemovedTree(ApplyAll(m, cs[..n]), q);
      case Upsert(q, a) => UpsertedTree(ApplyAll(m, cs[..n]), q, a);
    }
  }

  /** Matched by spelling every change is applied as it is ... */
  lemma ExactHits(m: Mirror, cs: seq<Change>, hits: seq<Change>)
    requires Aimed(Exact, m, cs, hits)
    ensures hits == cs
  {
    forall k | 0 <= k < |cs| ensures hits[k] == cs[k] {
      assert Aims(Exact, ApplyAll(m, hits[..k]), cs[k], hits[k]);
    }
  }

  /** ... and no removal takes what it does not name. */
  lemma {:induction false} ExactStrikesNothing(m: Mirror, before: set<Location>, cs: seq<Change>)
    ensures StruckAfter(m, before, cs, cs) <= before
    decreases |cs|
  {
    if cs != [] {
      var n := |cs| - 1;
      ExactStrikesNothing(m, before, cs[..n]);
      assert Struck(ApplyAll(m, cs[..n]), cs[n], cs[n]) == {};
    }
  }

  /** `q` is spelt differently from the prefix of `p` it folds like. */
  predicate FoldsAbove(q: Location, p: Location) {
    |q| <= |p| && p[..|q|] != q && SameFolding(p[..|q|], q)
  }

  /** A path is struck only by a removal that folds like a prefix of it and is spelt otherwise. */
  lemma {:induction false} StruckByFolding(mode: LookupMode, m: Mirror, before: set<Location>,
                                           cs: seq<Change>, hits: seq<Change>, p: Location)
    requires Aimed(mode, m, cs, hits) && p in StruckAfter(m, before, cs, hits) && p !in before
    ensures mode.CaseInsensitive? && exists q {:trigger FoldsAbove(q, p)} :: Remove(q) in cs && FoldsAbove(q, p)
    decreases |cs|
  {
    var n := |cs| - 1;
    AimedPrefix(mode, m, cs, hits, n);
    if p in StruckAfter(m, before, cs[..n], hits[..n]) {
      StruckByFolding(mode, m, before, cs[..n], hits[..n], p);
      var q :| Remove(q) in cs[..n] && FoldsAbove(q, p);
      assert Remove(q) in cs;
    } else {
      assert p[..|cs[n].path|] == hits[n].path;
      assert FoldsAbove(cs[n].path, p) && cs[n] in cs;
    }
  }
}
