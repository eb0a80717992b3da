/**
 * The three views of the node vector that lookups depend on: the path of every
 * node, the exact (parent, name) index and the case-folded index.
 */
module TreeIndex {
  import opened Types
  import opened PathMap
  import opened TreeModel
  import opened Finite

  /** The path of `i` extends the path of its parent by its own name. */
  ghost predicate PathStep(nodes: seq<Node>, paths: seq<Location>, i: int, skip: int)
    requires Live(nodes, i) && |paths| == |nodes|
  {
    && Live(nodes, nodes[i].parent) && nodes[i].parent != skip
    && paths[i] == paths[nodes[i].parent] + [nodes[i].name.value]
  }

  ghost predicate PathEntry(paths: seq<Location>, at: map<Location, int>, i: int)
    requires 0 <= i < |paths|
  {
    paths[i] in at && at[paths[i]] == i
  }

  ghost predicate AtEntry(nodes: seq<Node>, paths: seq<Location>, at: map<Location, int>, q: Location)
    requires q in at && |paths| == |nodes|
  {
    Live(nodes, at[q]) && paths[at[q]] == q
  }

  /**
   * `paths` and `at` are inverse to each other on the live nodes other than `skip`.
   * Path length strictly grows from parent to child, so parent chains end at the root.
   */
  ghost predicate Placed(nodes: seq<Node>, paths: seq<Location>, at: map<Location, int>, skip: int) {
    && |paths| == |nodes| && Live(nodes, 0) && paths[0] == [] && skip != 0
    && (forall i {:trigger PathEntry(paths, at, i)} :: Live(nodes, i) && i != skip ==> PathEntry(paths, at, i))
    && (forall q {:trigger AtEntry(nodes, paths, at, q)} :: q in at ==> AtEntry(nodes, paths, at, q) && at[q] != skip)
    && (forall i {:trigger PathStep(nodes, paths, i, skip)} ::
          Live(nodes, i) && i != 0 && i != skip ==> PathStep(nodes, paths, i, skip))
  }

  function KeyOf(nodes: seq<Node>, i: int): Key
    requires Live(nodes, i)
  {
    (nodes[i].parent, nodes[i].name.value)
  }

  ghost predicate ExactEntry(nodes: seq<Node>, exact: map<Key, int>, i: int)
    requires Live(nodes, i)
  {
    KeyOf(nodes, i) in exact && exact[KeyOf(nodes, i)] == i
  }

  ghost predicate KeyEntry(nodes: seq<Node>, exact: map<Key, int>, key: Key, skip: int)
    requires key in exact
  {
    Live(nodes, exact[key]) && exact[key] != 0 && exact[key] != skip && KeyOf(nodes, exact[key]) == key
  }

  /** The exact index holds every live node but the root and `skip`, and nothing else. */
  ghost predicate Indexed(nodes: seq<Node>, exact: map<Key, int>, skip: int) {
    && (forall i {:trigger ExactEntry(nodes, exact, i)} ::
          Live(nodes, i) && i != 0 && i != skip ==> ExactEntry(nodes, exact, i))
    && (forall key {:trigger KeyEntry(nodes, exact, key, skip)} ::
          key in exact ==> KeyEntry(nodes, exact, key, skip))
  }

  predicate HasFolding(nodes: seq<Node>, c: int, f: Name) {
    0 <= c < |nodes| && nodes[c].folded == f
  }

  /** The first node of `ks` whose folded name is `f`, or NIL. */
  function FirstFolded(nodes: seq<Node>, ks: seq<int>, f: Name): int
  {
    if ks == [] then NIL
    else if HasFolding(nodes, ks[0], f) then ks[0]
    else FirstFolded(nodes, ks[1..], f)
  }

  function Get<K>(m: map<K, int>, key: K): int {
    if key in m then m[key] else NIL
  }

  /** The nodes of `order[p]` are live children of `p`. */
  ghost predicate Ordered(nodes: seq<Node>, order: seq<seq<int>>) {
    && |order| == |nodes|
    && forall p, k :: 0 <= p < |order| && 0 <= k < |order[p]| ==>
         Live(nodes, order[p][k]) && nodes[order[p][k]].parent == p && order[p][k] != 0
  }

  ghost predicate FoldEntry(nodes: seq<Node>, order: seq<seq<int>>, folded: map<Key, int>, p: int, f: Name)
    requires 0 <= p < |order|
  {
    FirstFolded(nodes, order[p], f) == Get(folded, (p, f))
  }

  /** Each folded key names the first child in sibling order with that folding. */
  ghost predicate Folds(nodes: seq<Node>, order: seq<seq<int>>, folded: map<Key, int>) {
    && Ordered(nodes, order)
    && (forall key :: key in folded ==> 0 <= key.0 < |order| && folded[key] != NIL)
    && (forall p, f {:trigger FoldEntry(nodes, order, folded, p, f)} ::
          0 <= p < |order| ==> FoldEntry(nodes, order, folded, p, f))
  }

  lemma {:induction false} FirstFoldedFacts(nodes: seq<Node>, ks: seq<int>, f: Name)
    ensures var r := FirstFolded(nodes, ks, f);
            && (r != NIL ==> r in ks && HasFolding(nodes, r, f))
            && (r == NIL <==> forall k :: 0 <= k < |ks| ==> !HasFolding(nodes, ks[k], f))
  {
    if ks != [] {
      FirstFoldedFacts(nodes, ks[1..], f);
      if FirstFolded(nodes, ks, f) == NIL {
        forall k | 0 <= k < |ks| ensures !HasFolding(nodes, ks[k], f) {
          assert k > 0 ==> ks[k] == ks[1..][k - 1];
        }
      } else if !HasFolding(nodes, ks[0], f) {
        var k :| 0 <= k < |ks[1..]| && HasFolding(nodes, ks[1..][k], f);
        assert ks[k + 1] == ks[1..][k];
      }
    }
  }

  lemma {:induction false} FirstFoldedSame(nodes: seq<Node>, nodes': seq<Node>, ks: seq<int>, f: Name)
    requires forall k :: 0 <= k < |ks| ==> HasFolding(nodes, ks[k], f) == HasFolding(nodes', ks[k], f)
    ensures FirstFolded(nodes, ks, f) == FirstFolded(nodes', ks, f)
  {
    if ks != [] {
      assert forall k :: 0 <= k < |ks[1..]| ==> ks[1..][k] == ks[k + 1];
      FirstFoldedSame(nodes, nodes', ks[1..], f);
    }
  }

  lemma {:induction false} FirstFoldedSnoc(nodes: seq<Node>, ks: seq<int>, c: int, f: Name)
    requires forall k :: 0 <= k < |ks| ==> ks[k] != NIL
    ensures FirstFolded(nodes, ks + [c], f)
            == if FirstFolded(nodes, ks, f) != NIL then FirstFolded(nodes, ks, f)
               else if HasFolding(nodes, c, f) then c else NIL
  {
    if ks == [] {
      assert (ks + [c])[1..] == [];
    } else {
      assert (ks + [c])[1..] == ks[1..] + [c];
      FirstFoldedSnoc(nodes, ks[1..], c, f);
    }
  }

  lemma {:induction false} FirstFoldedWithout(nodes: seq<Node>, ks: seq<int>, c: int, f: Name)
    requires Distinct(ks) && c in ks
    ensures FirstFolded(nodes, ks, f) != c ==>
              FirstFolded(nodes, Without(ks, c), f) == FirstFolded(nodes, ks, f)
  {
    if ks[0] != c {
      assert c in ks[1..];
      FirstFoldedWithout(nodes, ks[1..], c, f);
    }
  }

  /** With as many folded entries as exact ones, no two siblings share a folding. */
  lemma NoCollision(nodes: seq<Node>, order: seq<seq<int>>, exact: map<Key, int>, folded: map<Key, int>, p: int, c: int)
    requires Indexed(nodes, exact, NIL) && Folds(nodes, order, folded)
    requires 0 <= p < |order| && c in order[p] && Live(nodes, c)
    requires Get(folded, (p, nodes[c].folded)) != c
    ensures |folded| < |exact|
  {
    forall key | key in folded
      ensures Live(nodes, folded[key]) && folded[key] != 0
      ensures ExactEntry(nodes, exact, folded[key])
      ensures nodes[folded[key]].parent == key.0 && nodes[folded[key]].folded == key.1
    {
      assert FoldEntry(nodes, order, folded, key.0, key.1);
      FirstFoldedFacts(nodes, order[key.0], key.1);
    }
    assert ExactEntry(nodes, exact, c);
    var g := map key | key in folded :: KeyOf(nodes, folded[key]);
    assert g.Keys == folded.Keys;
    InjectionFits(g, exact.Keys - {KeyOf(nodes, c)});
  }

  /** Lists that do not mention a changed slot keep their folded owners. */
  lemma FoldsFrame(nodes: seq<Node>, nodes': seq<Node>, order: seq<seq<int>>, order': seq<seq<int>>, folded: map<Key, int>)
    requires Folds(nodes, order, folded) && Ordered(nodes', order')
    requires |order| <= |order'|
    requires forall p :: 0 <= p < |order| ==> order'[p] == order[p]
    requires forall p :: |order| <= p < |order'| ==> order'[p] == []
    requires forall p, k :: 0 <= p < |order| && 0 <= k < |order[p]| ==>
               0 <= order[p][k] < |nodes| && 0 <= order[p][k] < |nodes'|
               && nodes'[order[p][k]].folded == nodes[order[p][k]].folded
    ensures Folds(nodes', order', folded)
  {
    forall p, f | 0 <= p < |order'| ensures FoldEntry(nodes', order', folded, p, f) {
      if p < |order| {
        assert FoldEntry(nodes, order, folded, p, f);
        FirstFoldedSame(nodes, nodes', order[p], f);
      }
    }
  }

  /** index_node: the appended child owns its folding only if nobody did. */
  lemma IndexFolds(nodes: seq<Node>, order: seq<seq<int>>, order': seq<seq<int>>, folded: map<Key, int>, c: int)
    requires Folds(nodes, order, folded) && Live(nodes, c) && c != 0
    requires 0 <= nodes[c].parent < |nodes| && c !in order[nodes[c].parent]
    requires order' == order[nodes[c].parent := order[nodes[c].parent] + [c]]
    ensures var fk := (nodes[c].parent, nodes[c].folded);
            Folds(nodes, order', if fk in folded then folded else folded[fk := c])
  {
    var p := nodes[c].parent;
    var fk := (p, nodes[c].folded);
    var folded' := if fk in folded then folded else folded[fk := c];
    forall q, f | 0 <= q < |order'| ensures FoldEntry(nodes, order', folded', q, f) {
      assert FoldEntry(nodes, order, folded, q, f);
      if q == p {
        FirstFoldedSnoc(nodes, order[p], c, f);
      }
    }
  }

  /** unindex_node: the slot passes to `heir`, the first remaining sibling with that folding. */
  lemma {:induction false} UnindexFolds(nodes: seq<Node>, order: seq<seq<int>>, order': seq<seq<int>>, folded: map<Key, int>, c: int, heir: int)
    requires Folds(nodes, order, folded) && Live(nodes, c)
    requires 0 <= nodes[c].parent < |nodes| && c in order[nodes[c].parent] && Distinct(order[nodes[c].parent])
    requires order' == order[nodes[c].parent := Without(order[nodes[c].parent], c)]
    requires heir == FirstFolded(nodes, order'[nodes[c].parent], nodes[c].folded)
    ensures var fk := (nodes[c].parent, nodes[c].folded);
            Folds(nodes, order', if Get(folded, fk) != c then folded else if heir == NIL then folded - {fk} else folded[fk := heir])
  {
    var p := nodes[c].parent;
    var fk := (p, nodes[c].folded);
    WithoutFacts(order[p], c);
    var folded' := if Get(folded, fk) != c then folded else if heir == NIL then folded - {fk} else folded[fk := heir];
    forall q, f | 0 <= q < |order'| ensures FoldEntry(nodes, order', folded', q, f) {
      assert FoldEntry(nodes, order, folded, q, f);
      if q == p {
        FirstFoldedWithout(nodes, order[p], c, f);
        FirstFoldedFacts(nodes, order[p], f);
      }
    }
    FirstFoldedFacts(nodes, order'[p], nodes[c].folded);
    forall k | 0 <= k < |order'[p]|
      ensures Live(nodes, order'[p][k]) && nodes[order'[p][k]].parent == p && order'[p][k] != 0
    {
      assert order'[p][k] in order[p];
    }
  }

  lemma IndexExact(nodes: seq<Node>, exact: map<Key, int>, c: int)
    requires Live(nodes, c) && c != 0 && Indexed(nodes, exact, c) && KeyOf(nodes, c) !in exact
    ensures Indexed(nodes, exact[KeyOf(nodes, c) := c], NIL)
    ensures |exact[KeyOf(nodes, c) := c]| == |exact| + 1
  {
    var exact' := exact[KeyOf(nodes, c) := c];
    forall i | Live(nodes, i) && i != 0 ensures ExactEntry(nodes, exact', i) {
      assert i != c ==> ExactEntry(nodes, exact, i);
    }
    forall key | key in exact' ensures KeyEntry(nodes, exact', key, NIL) {
      assert key in exact ==> KeyEntry(nodes, exact, key, c);
    }
  }

  lemma UnindexExact(nodes: seq<Node>, exact: map<Key, int>, c: int)
    requires Live(nodes, c) && c != 0 && Indexed(nodes, exact, NIL)
    ensures Indexed(nodes, exact - {KeyOf(nodes, c)}, c)
    ensures |exact - {KeyOf(nodes, c)}| == |exact| - 1
  {
    var exact' := exact - {KeyOf(nodes, c)};
    assert exact'.Keys == exact.Keys - {KeyOf(nodes, c)};
    assert ExactEntry(nodes, exact, c);
    forall i | Live(nodes, i) && i != 0 && i != c ensures ExactEntry(nodes, exact', i) {
      assert ExactEntry(nodes, exact, i);
    }
    forall key | key in exact' ensures KeyEntry(nodes, exact', key, c) {
      assert KeyEntry(nodes, exact, key, NIL);
    }
  }

  /** An indexed child's folding always has an owner. */
  lemma OwnerExists(nodes: seq<Node>, order: seq<seq<int>>, folded: map<Key, int>, p: int, c: int)
    requires Folds(nodes, order, folded) && 0 <= p < |order| && c in order[p] && Live(nodes, c)
    ensures (p, nodes[c].folded) in folded
    ensures |folded - {(p, nodes[c].folded)}| == |folded| - 1
  {
    var f := nodes[c].folded;
    assert FoldEntry(nodes, order, folded, p, f);
    FirstFoldedFacts(nodes, order[p], f);
    var k :| 0 <= k < |order[p]| && order[p][k] == c;
    assert HasFolding(nodes, order[p][k], f);
    assert (folded - {(p, f)}).Keys == folded.Keys - {(p, f)};
  }

  /** What unindex_node does to both indexes, with the size of each result. */
  function Handover(nodes: seq<Node>, folded: map<Key, int>, c: int, heir: int): map<Key, int>
    requires Live(nodes, c)
  {
    var fk := (nodes[c].parent, nodes[c].folded);
    if Get(folded, fk) != c then folded else if heir == NIL then folded - {fk} else folded[fk := heir]
  }

  lemma {:induction false} UnindexSummary(nodes: seq<Node>, order: seq<seq<int>>, order': seq<seq<int>>,
                       exact: map<Key, int>, folded: map<Key, int>, c: int, heir: int)
    requires Indexed(nodes, exact, NIL) && Folds(nodes, order, folded) && Live(nodes, c) && c != 0
    requires 0 <= nodes[c].parent < |nodes| && c in order[nodes[c].parent] && Distinct(order[nodes[c].parent])
    requires order' == order[nodes[c].parent := Without(order[nodes[c].parent], c)]
    requires heir == FirstFolded(nodes, order'[nodes[c].parent], nodes[c].folded)
    ensures Indexed(nodes, exact - {KeyOf(nodes, c)}, c)
    ensures |exact - {KeyOf(nodes, c)}| == |exact| - 1
    ensures (nodes[c].parent, nodes[c].folded) in folded
    ensures Folds(nodes, order', Handover(nodes, folded, c, heir))
    ensures Get(folded, (nodes[c].parent, nodes[c].folded)) == c && heir != NIL ==> |folded| < |exact|
    ensures |Handover(nodes, folded, c, heir)|
            == if Get(folded, (nodes[c].parent, nodes[c].folded)) == c && heir == NIL then |folded| - 1 else |folded|
  {
    var p := nodes[c].parent;
    UnindexExact(nodes, exact, c);
    OwnerExists(nodes, order, folded, p, c);
    UnindexFolds(nodes, order, order', folded, c, heir);
    if heir != NIL {
      FirstFoldedFacts(nodes, order'[p], nodes[c].folded);
      WithoutFacts(order[p], c);
      if Get(folded, (p, nodes[c].folded)) == c {
        NoCollision(nodes, order, exact, folded, p, heir);
      }
    }
  }

  /** The exact index resolves a child exactly when its path is taken. */
  lemma ChildPath(nodes: seq<Node>, paths: seq<Location>, at: map<Location, int>, exact: map<Key, int>, p: int, name: Name)
    requires Placed(nodes, paths, at, NIL) && Indexed(nodes, exact, NIL) && Live(nodes, p)
    ensures (p, name) in exact <==> paths[p] + [name] in at
    ensures (p, name) in exact ==> exact[(p, name)] == at[paths[p] + [name]]
  {
    var q := paths[p] + [name];
    if (p, name) in exact {
      assert KeyEntry(nodes, exact, (p, name), NIL);
      var i := exact[(p, name)];
      assert PathStep(nodes, paths, i, NIL);
      assert PathEntry(paths, at, i);
    }
    if q in at {
      assert AtEntry(nodes, paths, at, q);
      var i := at[q];
      assert q != [];
      assert PathStep(nodes, paths, i, NIL);
      var up := nodes[i].parent;
      assert q[..|q| - 1] == paths[up] && q[..|q| - 1] == paths[p];
      assert PathEntry(paths, at, up) && PathEntry(paths, at, p);
      assert ExactEntry(nodes, exact, i);
    }
  }

  /** Slots keep their identity: what a change of links alone leaves alone. */
  ghost predicate SameIdentity(nodes: seq<Node>, nodes': seq<Node>, i: int)
    requires 0 <= i < |nodes| && 0 <= i < |nodes'|
  {
    && nodes'[i].name == nodes[i].name && nodes'[i].folded == nodes[i].folded
    && nodes'[i].parent == nodes[i].parent
  }

  lemma IndexedFrame(nodes: seq<Node>, nodes': seq<Node>, exact: map<Key, int>, c: int)
    requires Indexed(nodes, exact, c) && |nodes| <= |nodes'|
    requires forall i :: 0 <= i < |nodes| && i != c ==> SameIdentity(nodes, nodes', i)
    requires forall i :: |nodes| <= i < |nodes'| && i != c ==> !Live(nodes', i)
    ensures Indexed(nodes', exact, c)
  {
    forall i | Live(nodes', i) && i != 0 && i != c ensures ExactEntry(nodes', exact, i) {
      assert SameIdentity(nodes, nodes', i);
      assert ExactEntry(nodes, exact, i);
    }
    forall key | key in exact ensures KeyEntry(nodes', exact, key, c) {
      assert KeyEntry(nodes, exact, key, c);
      assert SameIdentity(nodes, nodes', exact[key]);
    }
  }

  lemma PlacedFrame(nodes: seq<Node>, nodes': seq<Node>, paths: seq<Location>, at: map<Location, int>)
    requires Placed(nodes, paths, at, NIL) && |nodes'| == |nodes|
    requires forall i :: 0 <= i < |nodes| ==> SameIdentity(nodes, nodes', i)
    ensures Placed(nodes', paths, at, NIL)
  {
    assert SameIdentity(nodes, nodes', 0);
    forall i | Live(nodes', i) ensures PathEntry(paths, at, i) {
      assert SameIdentity(nodes, nodes', i);
    }
    forall q | q in at ensures AtEntry(nodes', paths, at, q) && at[q] != NIL {
      assert AtEntry(nodes, paths, at, q);
      assert SameIdentity(nodes, nodes', at[q]);
    }
    forall i | Live(nodes', i) && i != 0 ensures PathStep(nodes', paths, i, NIL) {
      assert SameIdentity(nodes, nodes', i);
      assert PathStep(nodes, paths, i, NIL);
      assert SameIdentity(nodes, nodes', nodes[i].parent);
    }
  }

  /** A new child takes its parent's path extended by its name. */
  lemma PlacedInsert(nodes: seq<Node>, nodes': seq<Node>, paths: seq<Location>, paths': seq<Location>,
                     at: map<Location, int>, c: int)
    requires Placed(nodes, paths, at, NIL) && !Live(nodes, c) && Live(nodes', c)
    requires |nodes| <= |nodes'| == |paths'|
    requires forall i :: 0 <= i < |nodes| && i != c ==> SameIdentity(nodes, nodes', i) && paths'[i] == paths[i]
    requires forall i :: |nodes| <= i < |nodes'| && i != c ==> !Live(nodes', i)
    requires Live(nodes, nodes'[c].parent)
    requires paths'[c] == paths[nodes'[c].parent] + [nodes'[c].name.value] && paths'[c] !in at
    ensures Placed(nodes', paths', at[paths'[c] := c], NIL)
  {
    var at' := at[paths'[c] := c];
    assert SameIdentity(nodes, nodes', 0);
    forall i | Live(nodes', i) ensures PathEntry(paths', at', i) {
      if i != c {
        assert SameIdentity(nodes, nodes', i);
        assert PathEntry(paths, at, i);
      }
    }
    forall q | q in at' ensures AtEntry(nodes', paths', at', q) && at'[q] != NIL {
      if q != paths'[c] {
        assert AtEntry(nodes, paths, at, q);
        assert SameIdentity(nodes, nodes', at[q]);
      }
    }
    forall i | Live(nodes', i) && i != 0 ensures PathStep(nodes', paths', i, NIL) {
      assert SameIdentity(nodes, nodes', nodes'[c].parent);
      if i != c {
        assert SameIdentity(nodes, nodes', i);
        assert PathStep(nodes, paths, i, NIL);
        assert SameIdentity(nodes, nodes', nodes[i].parent);
      }
    }
  }

  /** A slot that is not live is not indexed either. */
  lemma IndexedFresh(nodes: seq<Node>, exact: map<Key, int>, c: int)
    requires Indexed(nodes, exact, NIL) && !Live(nodes, c)
    ensures Indexed(nodes, exact, c)
  {
    forall key | key in exact ensures KeyEntry(nodes, exact, key, c) {
      assert KeyEntry(nodes, exact, key, NIL);
    }
    forall i | Live(nodes, i) && i != 0 && i != c ensures ExactEntry(nodes, exact, i) {
    }
  }

  lemma FreshFolds(nodes: seq<Node>, nodes': seq<Node>, order: seq<seq<int>>, order': seq<seq<int>>,
                   folded: map<Key, int>, c: int)
    requires Folds(nodes, order, folded) && !Live(nodes, c)
    requires |nodes| <= |nodes'| == |order'|
    requires forall p :: 0 <= p < |order| ==> order'[p] == order[p]
    requires forall p :: |order| <= p < |order'| ==> order'[p] == []
    requires forall i :: 0 <= i < |nodes| && i != c ==> SameIdentity(nodes, nodes', i)
    ensures Folds(nodes', order', folded)
  {
    forall p, k | 0 <= p < |order| && 0 <= k < |order[p]|
      ensures SameIdentity(nodes, nodes', order[p][k]) && Live(nodes, order[p][k])
    {
    }
    FoldsFrame(nodes, nodes', order, order', folded);
  }

  /** Giving up an unindexed slot leaves the indexes right. */
  lemma FreeIndexed(nodes: seq<Node>, exact: map<Key, int>, c: int)
    requires Indexed(nodes, exact, c) && Live(nodes, c)
    ensures Indexed(nodes[c := nodes[c].(name := None)], exact, NIL)
  {
    var nodes' := nodes[c := nodes[c].(name := None)];
    forall i | Live(nodes', i) && i != 0 ensures ExactEntry(nodes', exact, i) {
      assert ExactEntry(nodes, exact, i);
    }
    forall key | key in exact ensures KeyEntry(nodes', exact, key, NIL) {
      assert KeyEntry(nodes, exact, key, c);
    }
  }

  lemma FreeFolds(nodes: seq<Node>, order: seq<seq<int>>, folded: map<Key, int>, c: int)
    requires Folds(nodes, order, folded) && Live(nodes, c)
    requires 0 <= nodes[c].parent < |order| ==> c !in order[nodes[c].parent]
    ensures Folds(nodes[c := nodes[c].(name := None)], order, folded)
  {
    FoldsFrame(nodes, nodes[c := nodes[c].(name := None)], order, order, folded);
  }

  /** Giving up a slot nobody has as parent frees exactly its own path. */
  lemma FreePlaced(nodes: seq<Node>, paths: seq<Location>, at: map<Location, int>, c: int)
    requires Placed(nodes, paths, at, NIL) && Live(nodes, c) && c != 0
    requires forall i :: Live(nodes, i) ==> nodes[i].parent != c
    ensures Placed(nodes[c := nodes[c].(name := None)], paths, at - {paths[c]}, NIL)
  {
    var nodes', at' := nodes[c := nodes[c].(name := None)], at - {paths[c]};
    assert PathEntry(paths, at, c);
    forall i | Live(nodes', i) ensures PathEntry(paths, at', i) {
      assert PathEntry(paths, at, i);
    }
    forall q | q in at' ensures AtEntry(nodes', paths, at', q) && at'[q] != NIL {
      assert AtEntry(nodes, paths, at, q);
    }
    forall i | Live(nodes', i) && i != 0 ensures PathStep(nodes', paths, i, NIL) {
      assert PathStep(nodes, paths, i, NIL);
    }
  }

  /** Walking up from a live node visits a live node at every prefix of its path. */
  lemma {:induction false} PrefixPresent(nodes: seq<Node>, paths: seq<Location>, at: map<Location, int>, i: int, q: Location)
    requires Placed(nodes, paths, at, NIL) && Live(nodes, i) && q <= paths[i]
    ensures q in at
    decreases |paths[i]|
  {
    if q == paths[i] {
      assert PathEntry(paths, at, i);
    } else {
      assert PathStep(nodes, paths, i, NIL);
      var p := nodes[i].parent;
      assert q <= paths[p] by {
        assert paths[i][..|paths[p]|] == paths[p];
      }
      PrefixPresent(nodes, paths, at, p, q);
    }
  }
}
