/** The abstract mirror: a map from component paths to attributes. */
module PathMap {
  import opened Types

  type Location = seq<Name>
  type Mirror = map<Location, Attributes>

  function Parent(p: Location): Location
    requires p != []
  {
    p[..|p| - 1]
  }

  predicate IsDirectory(m: Mirror, p: Location) {
    p in m && m[p].kind.Directory?
  }

  /** Everything present has a directory above it, up to the root. */
  ghost predicate TreeClosed(m: Mirror) {
    && [] in m
    && forall p :: p in m && p != [] ==> IsDirectory(m, Parent(p))
  }

  /** Some proper ancestor is held as something other than a directory. */
  predicate Blocked(m: Mirror, p: Location) {
    exists k :: 0 <= k < |p| && p[..k] in m && !m[p[..k]].kind.Directory?
  }

  /** `p` itself or some ancestor of it is held as something other than a directory. */
  predicate Obstructed(m: Mirror, p: Location) {
    exists k :: 0 <= k <= |p| && p[..k] in m && !m[p[..k]].kind.Directory?
  }

  function Ancestors(p: Location): set<Location> {
    set k | 0 <= k <= |p| :: p[..k]
  }

  /** `m` with every missing directory on the way to `p` (and `p` itself) added. */
  function WithDirectories(m: Mirror, p: Location): Mirror {
    m + map q | q in Ancestors(p) && q !in m :: IMPLICIT_DIRECTORY
  }

  function WithoutSubtree(m: Mirror, p: Location): Mirror {
    map q | q in m && !(p <= q) :: m[q]
  }

  function WithoutDescendants(m: Mirror, p: Location): Mirror {
    map q | q in m && !(p < q) :: m[q]
  }

  /** New attributes at `p`; a directory that stops being one loses what was below it. */
  function WithAttributes(m: Mirror, p: Location, a: Attributes): Mirror {
    (if a.kind.Directory? then m else WithoutDescendants(m, p))[p := a]
  }

  /** Insert or refresh `p`, creating missing ancestors; nothing when blocked or at the root. */
  function Upserted(m: Mirror, p: Location, a: Attributes): Mirror {
    if p == [] || Blocked(m, p) then m
    else WithAttributes(WithDirectories(m, Parent(p)), p, a)
  }

  /** Delete everything at or below `p`; the root stays. */
  function Removed(m: Mirror, p: Location): Mirror {
    if p == [] then m else WithoutSubtree(m, p)
  }

  /** Where a path ends up when the subtree at `src` moves to `dst`. */
  function Relocated(q: Location, src: Location, dst: Location): Location {
    if src <= q then dst + q[|src|..] else q
  }

  /** Where `q` came from before that move. */
  function Origin(q: Location, src: Location, dst: Location): Location {
    if dst <= q then src + q[|dst|..] else q
  }

  /** Move the subtree at `src` to `dst`, keeping every relative path. */
  function Renamed<V>(m: map<Location, V>, src: Location, dst: Location): map<Location, V> {
    map q | q in (set x | x in m :: Relocated(x, src, dst)) && Origin(q, src, dst) in m ::
      m[Origin(q, src, dst)]
  }

  /** Every prefix of a present path is present. */
  lemma {:induction false} PrefixHeld(m: Mirror, q: Location, n: nat)
    requires TreeClosed(m) && q in m && n <= |q|
    ensures q[..n] in m
    ensures n < |q| ==> IsDirectory(m, q[..n])
    decreases |q| - n
  {
    if n < |q| {
      PrefixHeld(m, q, n + 1);
      assert Parent(q[..n + 1]) == q[..n];
    } else {
      assert q[..n] == q;
    }
  }

  /** What an upsert leaves at each path: the entry itself, directories on the way, nothing below a non-directory. */
  lemma UpsertedAt(m: Mirror, p: Location, a: Attributes, q: Location)
    requires p != [] && forall k :: 0 <= k < |p| && p[..k] in m ==> m[p[..k]].kind.Directory?
    ensures var r := Upserted(m, p, a);
            && (q == p ==> q in r && r[q] == a)
            && (q < p ==> q in r && r[q] == if q in m then m[q] else Attributes(0, 0, 493, Directory))
            && (p < q && !a.kind.Directory? ==> q !in r)
            && ((p < q && a.kind.Directory?) || (!(p <= q) && !(q <= p)) ==> (q in r <==> q in m) && (q in m ==> r[q] == m[q]))
  {
    var d := Parent(p);
    assert !Blocked(m, p);
    if q < p {
      assert q == d[..|q|] && q in Ancestors(d);
    } else {
      assert q in Ancestors(d) ==> q < p;
    }
  }

  /** An upsert that finds something other than a directory on its way, or names the root, does nothing. */
  lemma UpsertBlocked(m: Mirror, p: Location, a: Attributes, k: nat)
    requires k < |p| && p[..k] in m && !m[p[..k]].kind.Directory?
    ensures Upserted(m, p, a) == m && Upserted(m, [], a) == m
  {
  }

  /** A removal takes a path and everything below it, and nothing else; the root stays. */
  lemma RemovedAt(m: Mirror, p: Location, q: Location)
    ensures q in Removed(m, p) <==> q in m && (p == [] || !(p <= q))
    ensures q in Removed(m, p) ==> Removed(m, p)[q] == m[q]
  {
  }

  /** A rename carries every path below its source to the same place below its target. */
  lemma RenamedAt<V>(m: map<Location, V>, src: Location, dst: Location, rest: Location, q: Location)
    requires forall x :: x in m ==> !(dst <= x)
    ensures src + rest in m ==> dst + rest in Renamed(m, src, dst) && Renamed(m, src, dst)[dst + rest] == m[src + rest]
    ensures q in m && !(src <= q) ==> q in Renamed(m, src, dst) && Renamed(m, src, dst)[q] == m[q]
    ensures q in Renamed(m, src, dst) ==> (!(src <= q) && q in m) || (dst <= q && src + q[|dst|..] in m)
  {
    if src + rest in m {
      assert Relocated(src + rest, src, dst) == dst + rest by {
        assert (src + rest)[|src|..] == rest;
      }
      assert Origin(dst + rest, src, dst) == src + rest by {
        assert (dst + rest)[|dst|..] == rest;
      }
    }
    if q in m && !(src <= q) {
      assert Relocated(q, src, dst) == q && Origin(q, src, dst) == q;
    }
    if q in Renamed(m, src, dst) && !(dst <= q) {
      var x :| x in m && Relocated(x, src, dst) == q;
      assert src <= x ==> dst <= q;
    }
  }
}
