/** What each mutation of the tree does to its representation, and that the invariant survives. */
module TreeOps {
  import opened Types
  import opened PathMap
  import opened TreeModel
  import opened TreeIndex
  import opened CaseFold
  import opened Finite
  import Path

  /** A legal name together with its folding. */
  ghost predicate NamePair(name: Name, fold: Name) {
    Path.ValidName(name) && fold == Fold(name)
  }

  ghost predicate NameEntry(nodes: seq<Node>, i: int)
    requires Live(nodes, i)
  {
    NamePair(nodes[i].name.value, nodes[i].folded)
  }

  /** Every live node but the root has a legal name and carries its folding. */
  ghost predicate Named(nodes: seq<Node>) {
    forall i {:trigger NameEntry(nodes, i)} :: Live(nodes, i) && i != 0 ==> NameEntry(nodes, i)
  }

  /** `free` lists every slot that is not live, once. */
  ghost predicate FreeList(nodes: seq<Node>, free: seq<int>) {
    && Distinct(free)
    && (forall k :: 0 <= k < |free| ==> 0 <= free[k] < |nodes| && !Live(nodes, free[k]))
    && (forall i :: 0 <= i < |nodes| && !Live(nodes, i) ==> i in free)
  }

  /** alloc_node: the last free slot if there is one, else a new one. */
  ghost predicate Taken(nodes: seq<Node>, free: seq<int>, free': seq<int>, id: int) {
    if free == [] then id == |nodes| && free' == []
    else id == free[|free| - 1] && free' == free[..|free| - 1]
  }

  lemma TakenSlot(nodes: seq<Node>, nodes': seq<Node>, free: seq<int>, free': seq<int>, id: int)
    requires FreeList(nodes, free) && Taken(nodes, free, free', id)
    ensures 0 <= id <= |nodes| && !Live(nodes, id)
    ensures |nodes'| == (if id == |nodes| then |nodes| + 1 else |nodes|) && Live(nodes', id)
            && (forall i :: 0 <= i < |nodes| && i != id ==> Live(nodes', i) == Live(nodes, i))
            ==> FreeList(nodes', free') && |nodes'| - |free'| == |nodes| - |free| + 1
  {
    if free != [] && Live(nodes', id) {
      forall i | 0 <= i < |nodes| && i != id && !Live(nodes, i) ensures i in free' {
        assert i in free;
      }
    }
  }

  /** A live node that an operation left in place. */
  ghost predicate Kept(nodes: seq<Node>, nodes': seq<Node>, paths: seq<Location>, paths': seq<Location>, i: int) {
    && Live(nodes, i) && Live(nodes', i) && i < |paths| && i < |paths'|
    && paths'[i] == paths[i] && nodes'[i].attr == nodes[i].attr && nodes'[i].name == nodes[i].name
    && nodes'[i].parent == nodes[i].parent
  }

  /** All the fields of a tree as one value. */
  datatype Rep = Rep(
    nodes: seq<Node>, free: seq<int>, exact: map<Key, int>, folded: map<Key, int>,
    live: int, collisions: int, kids: seq<seq<int>>, paths: seq<Location>, at: map<Location, int>)

  /** The representation invariant. */
  ghost predicate Consistent(r: Rep) {
    && Shape(r.nodes, r.kids, {})
    && Placed(r.nodes, r.paths, r.at, NIL)
    && Indexed(r.nodes, r.exact, NIL)
    && Folds(r.nodes, r.kids, r.folded)
    && Named(r.nodes)
    && FreeList(r.nodes, r.free)
    && r.live == |r.nodes| - |r.free| == |r.exact| + 1
    && r.collisions == |r.exact| - |r.folded|
  }

  /** The abstract map a consistent tree stands for. */
  ghost function View(r: Rep): Mirror {
    map q | q in r.at :: AttrAt(r, q)
  }

  function AttrAt(r: Rep, q: Location): Attributes
    requires q in r.at
  {
    if 0 <= r.at[q] < |r.nodes| then r.nodes[r.at[q]].attr else IMPLICIT_DIRECTORY
  }

  /** Everything insert has done by the time it returns; `mid` is the vector before linking. */
  ghost predicate InsertStep(r: Rep, r': Rep, mid: seq<Node>, p: int, id: int, name: Name, fold: Name, attr: Attributes) {
    && Live(r.nodes, p) && r.nodes[p].attr.kind.Directory?
    && 0 <= id <= |r.nodes| == |r.kids| == |r.paths| && !Live(r.nodes, id) && Taken(r.nodes, r.free, r'.free, id)
    && (p, name) !in r.exact && r.paths[p] + [name] !in r.at
    && mid == Append(r.nodes, id, BLANK.(name := Some(name), folded := fold, attr := attr))
    && |r'.nodes| == |mid|
    && (LinkStep(mid, r'.nodes, p, id))
    && r'.exact == r.exact[(p, name) := id]
    && r'.folded == (if (p, fold) in r.folded then r.folded else r.folded[(p, fold) := id])
    && r'.collisions == r.collisions + (if (p, fold) in r.folded then 1 else 0)
    && r'.kids == Append(r.kids, id, [])[p := r.kids[p] + [id]]
    && r'.paths == Append(r.paths, id, r.paths[p] + [name])
    && r'.at == r.at[r.paths[p] + [name] := id]
    && r'.live == r.live + 1
  }

  /** `x` stored in slot `id`, which is either in range or the next one. */
  function Append<T>(s: seq<T>, id: int, x: T): seq<T>
    requires 0 <= id <= |s|
  {
    if id == |s| then s + [x] else s[id := x]
  }

  lemma InsertIdentity(r: Rep, r': Rep, mid: seq<Node>, p: int, id: int, name: Name, fold: Name, attr: Attributes)
    requires InsertStep(r, r', mid, p, id, name, fold, attr)
    ensures forall i :: 0 <= i < |r.nodes| && i != id ==>
              SameIdentity(r.nodes, r'.nodes, i) && r'.nodes[i].attr == r.nodes[i].attr && r'.paths[i] == r.paths[i]
    ensures r'.nodes[id].name == Some(name) && r'.nodes[id].folded == fold
    ensures r'.nodes[id].parent == p && r'.nodes[id].attr == attr && r'.paths[id] == r.paths[p] + [name]
  {
    forall i | 0 <= i < |r.nodes| && i != id
      ensures SameIdentity(r.nodes, r'.nodes, i) && r'.nodes[i].attr == r.nodes[i].attr
    {
      assert r'.nodes[i] == LinkedNode(mid, p, id, i);
    }
    assert r'.nodes[id] == LinkedNode(mid, p, id, id);
  }

  lemma InsertShape(r: Rep, r': Rep, mid: seq<Node>, p: int, id: int, name: Name, fold: Name, attr: Attributes)
    requires Shape(r.nodes, r.kids, {}) && InsertStep(r, r', mid, p, id, name, fold, attr)
    ensures Shape(r'.nodes, r'.kids, {})
    ensures id !in r.kids[p]
    ensures Append(r.kids, id, []) == if id == |r.kids| then r.kids + [[]] else r.kids
  {
    var kids1 := Append(r.kids, id, []);
    assert id < |r.kids| ==> SlotOk(r.nodes, r.kids, id);
    FreshKeeps(r.nodes, mid, r.kids, kids1, id);
    LinkKeeps(mid, r'.nodes, kids1, {id}, p, id);
    assert {id} - {id} == {};
    if id in r.kids[p] {
      Listed(r.nodes, r.kids, {}, p, id);
    }
  }

  lemma InsertIndexes(r: Rep, r': Rep, mid: seq<Node>, p: int, id: int, name: Name, fold: Name, attr: Attributes)
    requires InsertStep(r, r', mid, p, id, name, fold, attr) && id != 0
    requires Indexed(r.nodes, r.exact, NIL) && Folds(r.nodes, r.kids, r.folded) && id !in r.kids[p]
    requires id < |r.kids| ==> r.kids[id] == []
    ensures Indexed(r'.nodes, r'.exact, NIL) && |r'.exact| == |r.exact| + 1
    ensures Folds(r'.nodes, r'.kids, r'.folded)
  {
    InsertIdentity(r, r', mid, p, id, name, fold, attr);
    IndexedFresh(r.nodes, r.exact, id);
    IndexedFrame(r.nodes, r'.nodes, r.exact, id);
    IndexExact(r'.nodes, r.exact, id);
    FreshFolds(r.nodes, r'.nodes, r.kids, Append(r.kids, id, []), r.folded, id);
    IndexFolds(r'.nodes, Append(r.kids, id, []), r'.kids, r.folded, id);
  }

  lemma InsertKeeps(r: Rep, r': Rep, mid: seq<Node>, p: int, id: int, name: Name, fold: Name, attr: Attributes)
    requires Consistent(r) && InsertStep(r, r', mid, p, id, name, fold, attr) && NamePair(name, fold)
    ensures Consistent(r')
  {
    InsertIdentity(r, r', mid, p, id, name, fold, attr);
    InsertShape(r, r', mid, p, id, name, fold, attr);
    assert id < |r.kids| ==> SlotOk(r.nodes, r.kids, id);
    InsertIndexes(r, r', mid, p, id, name, fold, attr);
    PlacedInsert(r.nodes, r'.nodes, r.paths, r'.paths, r.at, id);
    forall i | Live(r'.nodes, i) && i != 0 ensures NameEntry(r'.nodes, i) {
      assert i != id ==> NameEntry(r.nodes, i);
    }
    TakenSlot(r.nodes, r'.nodes, r.free, r'.free, id);
  }

  lemma InsertView(r: Rep, r': Rep, mid: seq<Node>, p: int, id: int, name: Name, fold: Name, attr: Attributes)
    requires Placed(r.nodes, r.paths, r.at, NIL) && InsertStep(r, r', mid, p, id, name, fold, attr)
    ensures View(r') == View(r)[r.paths[p] + [name] := attr]
    ensures forall i :: Live(r.nodes, i) ==> Kept(r.nodes, r'.nodes, r.paths, r'.paths, i)
  {
    InsertIdentity(r, r', mid, p, id, name, fold, attr);
    forall q | q in r.at ensures AttrAt(r', q) == AttrAt(r, q) {
      assert AtEntry(r.nodes, r.paths, r.at, q);
    }
  }

  // --- removing a subtree ----------------------------------------------------

  /**
   * The state while the subtree at `id` is being released: `id` is out of its
   * parent's list but still indexed, and `order` is the sibling order the
   * folded index still refers to.
   */
  ghost predicate Releasing(r: Rep, id: int, order: seq<seq<int>>) {
    && Live(r.nodes, id) && id != 0
    && Shape(r.nodes, r.kids, {id})
    && Placed(r.nodes, r.paths, r.at, NIL)
    && Indexed(r.nodes, r.exact, NIL)
    && Folds(r.nodes, order, r.folded)
    && Named(r.nodes)
    && FreeList(r.nodes, r.free)
    && r.live == |r.nodes| - |r.free| == |r.exact| + 1
    && r.collisions == |r.exact| - |r.folded|
    && PendingOrder(r.nodes, r.kids, id, order)
  }

  ghost predicate PendingOrder(nodes: seq<Node>, kids: seq<seq<int>>, id: int, order: seq<seq<int>>)
    requires Live(nodes, id)
  {
    var p := nodes[id].parent;
    && |order| == |kids| && 0 <= p < |kids|
    && (forall q :: 0 <= q < |kids| && q != p ==> order[q] == kids[q])
    && id in order[p] && Distinct(order[p]) && kids[p] == Without(order[p], id)
  }

  /** The fields after `unlink_child(c)` left `nodes'`. */
  function Unlinked(r: Rep, nodes': seq<Node>, c: int): Rep
    requires 0 <= c < |r.nodes| && 0 <= r.nodes[c].parent < |r.kids|
  {
    var p := r.nodes[c].parent;
    r.(nodes := nodes', kids := r.kids[p := Without(r.kids[p], c)])
  }

  lemma UnlinkIdentity(nodes: seq<Node>, nodes': seq<Node>, c: int)
    requires 0 <= c < |nodes| == |nodes'|
    requires UnlinkStep(nodes, nodes', c)
    ensures forall i :: 0 <= i < |nodes| ==> SameIdentity(nodes, nodes', i) && nodes'[i].attr == nodes[i].attr
  {
    forall i | 0 <= i < |nodes| ensures SameIdentity(nodes, nodes', i) && nodes'[i].attr == nodes[i].attr {
      assert nodes'[i] == UnlinkedNode(nodes, c, i);
    }
  }

  /** A change of links alone keeps every index. */
  lemma LinksOnly(nodes: seq<Node>, nodes': seq<Node>, paths: seq<Location>, at: map<Location, int>,
                  exact: map<Key, int>, order: seq<seq<int>>, folded: map<Key, int>, free: seq<int>)
    requires |nodes'| == |nodes| && forall i :: 0 <= i < |nodes| ==> SameIdentity(nodes, nodes', i)
    requires Placed(nodes, paths, at, NIL) && Indexed(nodes, exact, NIL) && Folds(nodes, order, folded)
    requires Named(nodes) && FreeList(nodes, free)
    ensures Placed(nodes', paths, at, NIL) && Indexed(nodes', exact, NIL) && Folds(nodes', order, folded)
    ensures Named(nodes') && FreeList(nodes', free)
  {
    PlacedFrame(nodes, nodes', paths, at);
    IndexedFrame(nodes, nodes', exact, NIL);
    forall i | 0 <= i < |nodes| ensures Live(nodes', i) <==> Live(nodes, i) {
      assert SameIdentity(nodes, nodes', i);
    }
    forall p, k | 0 <= p < |order| && 0 <= k < |order[p]| ensures SameIdentity(nodes, nodes', order[p][k]) {
      assert Live(nodes, order[p][k]);
    }
    FoldsFrame(nodes, nodes', order, order, folded);
    forall i | Live(nodes', i) && i != 0 ensures NameEntry(nodes', i) {
      assert SameIdentity(nodes, nodes', i);
      assert NameEntry(nodes, i);
    }
  }

  /** Unlinking the subtree's root opens the release. */
  lemma BeginRelease(r: Rep, r': Rep, id: int)
    requires Consistent(r) && Live(r.nodes, id) && id != 0
    requires |r'.nodes| == |r.nodes|
    requires UnlinkStep(r.nodes, r'.nodes, id)
    requires 0 <= r.nodes[id].parent < |r.kids| && r' == Unlinked(r, r'.nodes, id)
    ensures Releasing(r', id, r.kids)
  {
    UnlinkKeeps(r.nodes, r'.nodes, r.kids, {}, id);
    assert {} + {id} == {id};
    UnlinkIdentity(r.nodes, r'.nodes, id);
    LinksOnly(r.nodes, r'.nodes, r.paths, r.at, r.exact, r.kids, r.folded, r.free);
    assert SameIdentity(r.nodes, r'.nodes, id);
    assert SlotOk(r.nodes, r.kids, r.nodes[id].parent);
  }

  /** Unlinking a descendant, ready for unindex_node. */
  lemma {:induction false} UnlinkDescendant(r: Rep, r': Rep, id: int, order: seq<seq<int>>, c: int)
    requires Releasing(r, id, order) && Live(r.nodes, c) && c != 0 && c != id
    requires r.nodes[c].parent != r.nodes[id].parent
    requires |r'.nodes| == |r.nodes|
    requires UnlinkStep(r.nodes, r'.nodes, c)
    requires 0 <= r.nodes[c].parent < |r.kids| && r' == Unlinked(r, r'.nodes, c)
    ensures Shape(r'.nodes, r'.kids, {id, c})
    ensures Placed(r'.nodes, r.paths, r.at, NIL) && Indexed(r'.nodes, r.exact, NIL) && Folds(r'.nodes, order, r.folded)
    ensures Named(r'.nodes) && FreeList(r'.nodes, r.free)
    ensures r'.nodes[c].parent == r.nodes[c].parent && Live(r'.nodes, c) && Live(r'.nodes, r'.nodes[c].parent)
    ensures c in order[r.nodes[c].parent] && Distinct(order[r.nodes[c].parent])
    ensures Without(order[r.nodes[c].parent], c) == Without(r'.kids[r.nodes[c].parent], c) == r'.kids[r.nodes[c].parent]
    ensures r'.nodes[id].parent == r.nodes[id].parent && Live(r'.nodes, id)
  {
    var p := r.nodes[c].parent;
    UnlinkKeeps(r.nodes, r'.nodes, r.kids, {id}, c);
    assert {id} + {c} == {id, c};
    UnlinkIdentity(r.nodes, r'.nodes, c);
    LinksOnly(r.nodes, r'.nodes, r.paths, r.at, r.exact, order, r.folded, r.free);
    assert SameIdentity(r.nodes, r'.nodes, id) && SameIdentity(r.nodes, r'.nodes, c) && SameIdentity(r.nodes, r'.nodes, p);
    assert SlotOk(r.nodes, r.kids, p);
    WithoutFacts(r.kids[p], c);
    WithoutAbsent(Without(r.kids[p], c), c);
  }

  /** The last step of releasing one slot. */
  function Freed(r: Rep, c: int): Rep
    requires 0 <= c < |r.nodes| && c < |r.paths|
  {
    r.(nodes := r.nodes[c := r.nodes[c].(name := None)], free := r.free + [c],
       live := r.live - 1, at := r.at - {r.paths[c]})
  }

  /** Clearing the name of a detached, unindexed, childless slot frees it. */
  lemma FreeSlot(r: Rep, r': Rep, det: set<int>, order: seq<seq<int>>, c: int)
    requires c in det && Live(r.nodes, c)
    requires Shape(r.nodes, r.kids, det) && r.kids[c] == []
    requires forall d :: d in det && Live(r.nodes, d) ==> r.nodes[d].parent != c
    requires Placed(r.nodes, r.paths, r.at, NIL) && Indexed(r.nodes, r.exact, c)
    requires Folds(r.nodes, order, r.folded) && 0 <= r.nodes[c].parent < |order| && c !in order[r.nodes[c].parent]
    requires Named(r.nodes) && FreeList(r.nodes, r.free)
    requires c < |r.paths| && r' == Freed(r, c)
    ensures Shape(r'.nodes, r'.kids, det - {c})
    ensures Placed(r'.nodes, r'.paths, r'.at, NIL) && Indexed(r'.nodes, r'.exact, NIL)
    ensures Folds(r'.nodes, order, r'.folded)
    ensures Named(r'.nodes) && FreeList(r'.nodes, r'.free)
  {
    FreeKeeps(r.nodes, r.kids, det, c);
    forall i | Live(r.nodes, i) ensures r.nodes[i].parent != c {
      if i !in det && i != 0 {
        assert AttachedAt(r.nodes, r.kids, i);
      }
    }
    FreePlaced(r.nodes, r.paths, r.at, c);
    FreeIndexed(r.nodes, r.exact, c);
    FreeFolds(r.nodes, order, r.folded, c);
    forall i | Live(r'.nodes, i) && i != 0 ensures NameEntry(r'.nodes, i) {
      assert NameEntry(r.nodes, i);
    }
    forall i | 0 <= i < |r'.nodes| && !Live(r'.nodes, i) ensures i in r'.free {
      assert i != c ==> i in r.free;
    }
  }

  /** Freeing a descendant keeps the release going. */
  lemma ReleaseDescendant(r: Rep, r': Rep, id: int, order: seq<seq<int>>, c: int)
    requires Live(r.nodes, c) && Live(r.nodes, id) && c != id && id != 0 && c != 0
    requires Shape(r.nodes, r.kids, {id, c}) && r.kids[c] == [] && r.nodes[id].parent != c && r.nodes[c].parent != c
    requires Placed(r.nodes, r.paths, r.at, NIL) && Indexed(r.nodes, r.exact, c)
    requires Folds(r.nodes, order, r.folded) && 0 <= r.nodes[c].parent < |order| && c !in order[r.nodes[c].parent]
    requires Named(r.nodes) && FreeList(r.nodes, r.free)
    requires r.live == |r.nodes| - |r.free| == |r.exact| + 2 && r.collisions == |r.exact| - |r.folded|
    requires PendingOrder(r.nodes, r.kids, id, order)
    requires c < |r.paths| && r' == Freed(r, c)
    ensures Releasing(r', id, order)
  {
    FreeSlot(r, r', {id, c}, order, c);
    assert {id, c} - {c} == {id};
  }

  /** Freeing the subtree's root closes the release. */
  lemma EndRelease(r: Rep, r': Rep, id: int)
    requires Live(r.nodes, id) && id != 0
    requires Shape(r.nodes, r.kids, {id}) && r.kids[id] == [] && 0 <= r.nodes[id].parent < |r.nodes|
    requires Placed(r.nodes, r.paths, r.at, NIL) && Indexed(r.nodes, r.exact, id)
    requires Folds(r.nodes, r.kids, r.folded)
    requires Named(r.nodes) && FreeList(r.nodes, r.free)
    requires r.live == |r.nodes| - |r.free| == |r.exact| + 2 && r.collisions == |r.exact| - |r.folded|
    requires id < |r.paths| && r' == Freed(r, id)
    ensures Consistent(r')
  {
    assert PathStep(r.nodes, r.paths, id, NIL);
    FreeSlot(r, r', {id}, r.kids, id);
    assert {id} - {id} == {};
  }

  /** Distinct indices into a vector are no more than its length. */
  lemma Pigeonhole(ks: seq<int>, n: nat)
    requires Distinct(ks) && forall k :: 0 <= k < |ks| ==> 0 <= ks[k] < n
    ensures |ks| <= n
  {
    var used := set k | 0 <= k < |ks| :: ks[k];
    CountDistinct(ks, used);
    SubsetSize(used, Range(n));
  }

  lemma {:induction false} CountDistinct(ks: seq<int>, used: set<int>)
    requires Distinct(ks) && used == set k | 0 <= k < |ks| :: ks[k]
    ensures |used| == |ks|
  {
    if ks != [] {
      var n := |ks| - 1;
      var rest := set k | 0 <= k < n :: ks[..n][k];
      assert used == rest + {ks[n]} by {
        assert forall k :: 0 <= k < n ==> ks[..n][k] == ks[k];
      }
      CountDistinct(ks[..n], rest);
    }
  }

  /** A strict descendant shares no parent with its ancestor and is not above it. */
  lemma PathStepsApart(nodes: seq<Node>, paths: seq<Location>, at: map<Location, int>, id: int, c: int)
    requires Placed(nodes, paths, at, NIL) && Live(nodes, id) && Live(nodes, c)
    requires id != 0 && c != 0 && id != c && paths[id] <= paths[c]
    ensures nodes[c].parent != nodes[id].parent && nodes[id].parent != c && nodes[c].parent != c
  {
    assert PathStep(nodes, paths, id, NIL) && PathStep(nodes, paths, c, NIL);
    assert PathEntry(paths, at, id) && PathEntry(paths, at, c);
    assert paths[id] != paths[c];
  }

  /** The whole of one leaf's release, from before the unlink to after the free; `mid` is after unindexing. */
  lemma {:induction false} ReleaseLeafKeeps(r: Rep, mid: Rep, r': Rep, id: int, order: seq<seq<int>>, order': seq<seq<int>>, c: int)
    requires Releasing(r, id, order) && Live(r.nodes, c) && c != 0 && c != id
    requires r.kids[c] == [] && Below(r, id, c)
    requires |mid.nodes| == |r.nodes|
    requires UnlinkStep(r.nodes, mid.nodes, c)
    requires 0 <= r.nodes[c].parent < |order| == |r.kids|
    requires mid == Unlinked(r, mid.nodes, c).(exact := mid.exact, folded := mid.folded, collisions := mid.collisions)
    requires Indexed(mid.nodes, mid.exact, c) && |mid.exact| == |r.exact| - 1
    requires order' == order[r.nodes[c].parent := Without(order[r.nodes[c].parent], c)]
    requires Folds(mid.nodes, order', mid.folded) && mid.collisions == |mid.exact| - |mid.folded|
    requires c < |mid.paths| && r' == Freed(mid, c)
    ensures Releasing(r', id, order')
    ensures !Live(r'.nodes, c)
    ensures forall i :: Live(r.nodes, i) && i != c ==> Kept(r.nodes, r'.nodes, r.paths, r'.paths, i)
    ensures forall i :: Live(r'.nodes, i) ==> Live(r.nodes, i)
  {
    PathStepsApart(r.nodes, r.paths, r.at, id, c);
    var step := r.(nodes := mid.nodes, kids := mid.kids);
    UnlinkDescendant(r, step, id, order, c);
    UnlinkIdentity(r.nodes, mid.nodes, c);
    WithoutFacts(order[r.nodes[c].parent], c);
    assert SameIdentity(r.nodes, mid.nodes, id);
    ReleaseDescendant(mid, r', id, order', c);
  }

  ghost predicate Below(r: Rep, id: int, c: int) {
    0 <= id < |r.paths| && 0 <= c < |r.paths| && r.paths[id] <= r.paths[c]
  }

  /** What unindex_node needs when the subtree's root is the one to go. */
  lemma {:induction false} PendingUnindex(nodes: seq<Node>, kids: seq<seq<int>>, id: int, order: seq<seq<int>>)
    requires Live(nodes, id) && PendingOrder(nodes, kids, id, order)
    ensures var p := nodes[id].parent;
            && Without(order[p], id) == Without(kids[p], id)
            && order[p := Without(order[p], id)] == kids
  {
    var p := nodes[id].parent;
    WithoutFacts(order[p], id);
    WithoutAbsent(kids[p], id);
  }

  ghost predicate Waiting(nodes: seq<Node>, paths: seq<Location>, c: int, id: int)
    requires |paths| == |nodes| && 0 <= id < |nodes|
  {
    Live(nodes, c) && c != 0 && paths[id] <= paths[c]
  }

  ghost predicate AboveIt(nodes: seq<Node>, stack: seq<int>, k: int)
    requires 0 <= k < |stack|
  {
    0 <= stack[k] < |nodes| && exists j :: 0 <= j < k && stack[j] == nodes[stack[k]].parent
  }

  /** The slots still waiting in release_subtree: distinct live nodes below `id`, parents first. */
  ghost predicate Stacked(nodes: seq<Node>, paths: seq<Location>, stack: seq<int>, id: int)
    requires |paths| == |nodes| && 0 <= id < |nodes|
  {
    && stack != [] && stack[0] == id && Distinct(stack)
    && (forall k :: 0 <= k < |stack| ==> Waiting(nodes, paths, stack[k], id))
    && (forall k {:trigger AboveIt(nodes, stack, k)} :: 0 < k < |stack| ==> AboveIt(nodes, stack, k))
  }

  /** Pushing the children of the top keeps the stack in order, and within the vector's length. */
  lemma StackedPush(r: Rep, stack: seq<int>, id: int)
    requires 0 <= id < |r.nodes| == |r.paths| && Shape(r.nodes, r.kids, {id}) && Placed(r.nodes, r.paths, r.at, NIL)
    requires Stacked(r.nodes, r.paths, stack, id) && Live(r.nodes, stack[|stack| - 1])
    ensures Stacked(r.nodes, r.paths, stack + r.kids[stack[|stack| - 1]], id)
    ensures |stack + r.kids[stack[|stack| - 1]]| <= |r.nodes|
  {
    var top := |stack| - 1;
    var cur := stack[top];
    var ks := r.kids[cur];
    var all := stack + ks;
    assert Waiting(r.nodes, r.paths, stack[top], id);
    assert SlotOk(r.nodes, r.kids, cur);
    forall k | 0 <= k < |stack| ensures stack[k] !in ks {
      assert k > 0 ==> AboveIt(r.nodes, stack, k);
      if stack[k] in ks {
        Listed(r.nodes, r.kids, {id}, cur, stack[k]);
      }
    }
    forall j | 0 <= j < |ks| ensures Waiting(r.nodes, r.paths, ks[j], id) && r.nodes[ks[j]].parent == cur {
      Listed(r.nodes, r.kids, {id}, cur, ks[j]);
      assert PathStep(r.nodes, r.paths, ks[j], NIL);
    }
    forall k | 0 < k < |all| ensures AboveIt(r.nodes, all, k) {
      if k < |stack| {
        assert AboveIt(r.nodes, stack, k);
        var j :| 0 <= j < k && stack[j] == r.nodes[stack[k]].parent;
        assert all[j] == r.nodes[all[k]].parent;
      } else {
        assert all[k] == ks[k - |stack|] && all[top] == r.nodes[all[k]].parent;
      }
    }
    forall k | 0 <= k < |all| ensures Waiting(r.nodes, r.paths, all[k], id) {
      assert k < |stack| ==> Waiting(r.nodes, r.paths, stack[k], id);
    }
    Pigeonhole(all, |r.nodes|);
  }

  /** Popping a released top leaves the others as they were. */
  lemma StackedPop(r: Rep, r': Rep, stack: seq<int>, id: int)
    requires |r.paths| == |r.nodes| == |r'.nodes| && 0 <= id < |r.nodes| && r'.paths == r.paths && |stack| > 1
    requires Stacked(r.nodes, r.paths, stack, id)
    requires forall i :: Live(r.nodes, i) && i != stack[|stack| - 1] ==> Kept(r.nodes, r'.nodes, r.paths, r'.paths, i)
    ensures Stacked(r'.nodes, r'.paths, stack[..|stack| - 1], id)
  {
    var rest := stack[..|stack| - 1];
    forall k | 0 <= k < |rest| ensures Waiting(r'.nodes, r'.paths, rest[k], id) {
      assert Waiting(r.nodes, r.paths, stack[k], id);
      assert Kept(r.nodes, r'.nodes, r.paths, r'.paths, stack[k]);
    }
    forall k | 0 < k < |rest| ensures AboveIt(r'.nodes, rest, k) {
      assert AboveIt(r.nodes, stack, k);
      assert Waiting(r.nodes, r.paths, stack[k], id);
      assert Kept(r.nodes, r'.nodes, r.paths, r'.paths, stack[k]);
      var j :| 0 <= j < k && stack[j] == r.nodes[stack[k]].parent;
      assert rest[j] == stack[j];
    }
  }

  /** What a release has done so far: it dropped only nodes at or below `id`. */
  ghost predicate Dropped(r: Rep, r': Rep, id: int) {
    && |r'.nodes| == |r.nodes| && r'.paths == r.paths
    && (forall i {:trigger Live(r'.nodes, i)} :: Live(r'.nodes, i) ==> Kept(r.nodes, r'.nodes, r.paths, r'.paths, i))
    && (forall i {:trigger Below(r, id, i)} :: Live(r.nodes, i) && !Below(r, id, i) ==> Live(r'.nodes, i))
  }

  lemma DroppedOne(r: Rep, r1: Rep, r2: Rep, id: int, c: int)
    requires Dropped(r, r1, id) && Below(r, id, c)
    requires |r2.nodes| == |r1.nodes| && r2.paths == r1.paths
    requires forall i :: Live(r1.nodes, i) && i != c ==> Kept(r1.nodes, r2.nodes, r1.paths, r2.paths, i)
    requires forall i :: Live(r2.nodes, i) ==> Live(r1.nodes, i)
    requires !Live(r2.nodes, c)
    ensures Dropped(r, r2, id)
  {
    forall i | Live(r2.nodes, i) ensures Kept(r.nodes, r2.nodes, r.paths, r2.paths, i) {
      assert Live(r1.nodes, i);
      assert Kept(r1.nodes, r2.nodes, r1.paths, r2.paths, i);
    }
    forall i | Live(r.nodes, i) && !Below(r, id, i) ensures Live(r2.nodes, i) {
      assert Live(r1.nodes, i);
      assert Kept(r1.nodes, r2.nodes, r1.paths, r2.paths, i);
    }
  }

  /** Unlinking first and releasing then drops the same nodes as seen from before the unlink. */
  lemma DroppedFromLinked(r: Rep, r1: Rep, r2: Rep, id: int)
    requires 0 <= id < |r.nodes| == |r1.nodes| && UnlinkStep(r.nodes, r1.nodes, id)
    requires 0 <= r.nodes[id].parent < |r.kids| && r1 == Unlinked(r, r1.nodes, id)
    requires Dropped(r1, r2, id)
    ensures Dropped(r, r2, id)
  {
    UnlinkIdentity(r.nodes, r1.nodes, id);
    forall i | Live(r2.nodes, i) ensures Kept(r.nodes, r2.nodes, r.paths, r2.paths, i) {
      assert Kept(r1.nodes, r2.nodes, r1.paths, r2.paths, i);
      assert SameIdentity(r.nodes, r1.nodes, i);
    }
    forall i | Live(r.nodes, i) && !Below(r, id, i) ensures Live(r2.nodes, i) {
      assert SameIdentity(r.nodes, r1.nodes, i);
      assert !Below(r1, id, i);
    }
  }

  /** A path that survives a release leads to the node it led to before. */
  lemma SurvivorPath(r: Rep, r': Rep, id: int, q: Location)
    requires Placed(r.nodes, r.paths, r.at, NIL) && Placed(r'.nodes, r'.paths, r'.at, NIL)
    requires Dropped(r, r', id) && q in r'.at
    ensures q in r.at && r.at[q] == r'.at[q] && Live(r'.nodes, r'.at[q]) && r'.paths[r'.at[q]] == q
    ensures AttrAt(r', q) == AttrAt(r, q)
  {
    assert AtEntry(r'.nodes, r'.paths, r'.at, q);
    assert Live(r'.nodes, r'.at[q]);
    assert PathEntry(r.paths, r.at, r'.at[q]);
  }

  /** Exactly the paths at or below the removed one are gone, and the rest kept their attributes. */
  lemma DroppedView(r: Rep, r': Rep, id: int)
    requires Placed(r.nodes, r.paths, r.at, NIL) && Placed(r'.nodes, r'.paths, r'.at, NIL)
    requires Live(r.nodes, id) && !Live(r'.nodes, id) && Dropped(r, r', id)
    ensures View(r') == WithoutSubtree(View(r), r.paths[id])
  {
    var p := r.paths[id];
    assert PathEntry(r.paths, r.at, id);
    forall q | q in r'.at ensures q in r.at && !(p <= q) && AttrAt(r', q) == AttrAt(r, q) {
      SurvivorPath(r, r', id, q);
      if p <= q {
        PrefixPresent(r'.nodes, r'.paths, r'.at, r'.at[q], p);
        SurvivorPath(r, r', id, p);
      }
    }
    forall q | q in r.at && !(p <= q) ensures q in r'.at {
      assert AtEntry(r.nodes, r.paths, r.at, q);
      assert !Below(r, id, r.at[q]);
      assert PathEntry(r'.paths, r'.at, r.at[q]);
    }
  }

  ghost predicate StrictlyBelow(r: Rep, id: int, i: int) {
    0 <= id < |r.paths| && 0 <= i < |r.paths| && r.paths[id] < r.paths[i]
  }

  /** set_attributes so far: only nodes strictly below `id` have gone. */
  ghost predicate Emptied(r: Rep, r': Rep, id: int) {
    && |r'.nodes| == |r.nodes| && r'.paths == r.paths
    && (forall i {:trigger Live(r'.nodes, i)} :: Live(r'.nodes, i) ==> Kept(r.nodes, r'.nodes, r.paths, r'.paths, i))
    && (forall i {:trigger StrictlyBelow(r, id, i)} ::
          Live(r.nodes, i) && !StrictlyBelow(r, id, i) ==> Live(r'.nodes, i))
  }

  lemma EmptiedMore(r: Rep, r1: Rep, r2: Rep, id: int, c: int)
    requires Emptied(r, r1, id) && Dropped(r1, r2, c) && StrictlyBelow(r, id, c)
    ensures Emptied(r, r2, id)
  {
    forall i | Live(r2.nodes, i) ensures Kept(r.nodes, r2.nodes, r.paths, r2.paths, i) {
      assert Kept(r1.nodes, r2.nodes, r1.paths, r2.paths, i);
      assert Live(r1.nodes, i);
    }
    forall i | Live(r.nodes, i) && !StrictlyBelow(r, id, i) ensures Live(r2.nodes, i) {
      assert Live(r1.nodes, i);
      assert !Below(r1, c, i);
    }
  }

  /** New attributes on a node that is childless or stays a directory. */
  lemma AttributesKeep(r: Rep, r': Rep, id: int, attr: Attributes)
    requires Consistent(r) && Live(r.nodes, id) && (attr.kind.Directory? || r.kids[id] == [])
    requires r' == r.(nodes := r.nodes[id := r.nodes[id].(attr := attr)])
    ensures Consistent(r')
    ensures View(r') == View(r)[r.paths[id] := attr]
  {
    var nodes' := r'.nodes;
    forall i | 0 <= i < |r.nodes| ensures SameIdentity(r.nodes, nodes', i) {
    }
    LinksOnly(r.nodes, nodes', r.paths, r.at, r.exact, r.kids, r.folded, r.free);
    forall p | 0 <= p < |nodes'| ensures SlotOk(nodes', r.kids, p) {
      assert SlotOk(r.nodes, r.kids, p);
      forall k | Live(nodes', p) && 0 <= k < |r.kids[p]| ensures SiblingAt(nodes', p, r.kids[p], k) {
        assert SiblingAt(r.nodes, p, r.kids[p], k);
      }
    }
    forall i | Live(nodes', i) && i != 0 ensures AttachedAt(nodes', r.kids, i) {
      assert AttachedAt(r.nodes, r.kids, i);
    }
    assert PathEntry(r.paths, r.at, id);
    forall q | q in r.at && q != r.paths[id] ensures AttrAt(r', q) == AttrAt(r, q) {
      assert AtEntry(r.nodes, r.paths, r.at, q);
    }
  }

  /** A node with something below its path has a child. */
  lemma ChildPresent(r: Rep, id: int, q: Location)
    requires Consistent(r) && Live(r.nodes, id) && q in r.at && r.paths[id] < q
    ensures r.kids[id] != []
  {
    var child := q[..|r.paths[id]| + 1];
    assert AtEntry(r.nodes, r.paths, r.at, q);
    PrefixPresent(r.nodes, r.paths, r.at, r.at[q], child);
    assert AtEntry(r.nodes, r.paths, r.at, child);
    var i := r.at[child];
    assert PathStep(r.nodes, r.paths, i, NIL);
    assert child[..|child| - 1] == r.paths[id] == r.paths[r.nodes[i].parent];
    assert PathEntry(r.paths, r.at, id) && PathEntry(r.paths, r.at, r.nodes[i].parent);
    assert AttachedAt(r.nodes, r.kids, i);
  }

  /** After every child has been released, exactly the strict descendants are gone. */
  lemma EmptiedView(r: Rep, r': Rep, id: int)
    requires Placed(r.nodes, r.paths, r.at, NIL) && Consistent(r')
    requires Live(r.nodes, id) && Emptied(r, r', id) && Live(r'.nodes, id) && r'.kids[id] == []
    ensures View(r') == WithoutDescendants(View(r), r.paths[id])
  {
    var p := r.paths[id];
    forall q | q in r'.at ensures q in r.at && !(p < q) && AttrAt(r', q) == AttrAt(r, q) {
      assert AtEntry(r'.nodes, r'.paths, r'.at, q);
      assert Live(r'.nodes, r'.at[q]);
      assert PathEntry(r.paths, r.at, r'.at[q]);
      if p < q {
        ChildPresent(r', id, q);
      }
    }
    forall q | q in r.at && !(p < q) ensures q in r'.at {
      assert AtEntry(r.nodes, r.paths, r.at, q);
      assert !StrictlyBelow(r, id, r.at[q]);
      assert PathEntry(r'.paths, r'.at, r.at[q]);
    }
  }

  lemma FirstChild(r: Rep, id: int)
    requires Consistent(r) && Live(r.nodes, id) && r.nodes[id].first != NIL
    ensures var c := r.nodes[id].first; Live(r.nodes, c) && c != 0 && StrictlyBelow(r, id, c)
  {
    Childless(r.nodes, r.kids, {}, id);
    assert SlotOk(r.nodes, r.kids, id);
    Listed(r.nodes, r.kids, {}, id, r.kids[id][0]);
    assert PathStep(r.nodes, r.paths, r.kids[id][0], NIL);
  }

  lemma EmptiedSelf(r: Rep, id: int)
    requires |r.paths| == |r.nodes|
    ensures Emptied(r, r, id)
  {
  }

  // --- renaming ---------------------------------------------------------------

  /** The paths after the subtree at `src` moved to `dst`. */
  ghost function MovedPaths(paths: seq<Location>, src: Location, dst: Location): seq<Location> {
    seq(|paths|, i requires 0 <= i < |paths| => Relocated(paths[i], src, dst))
  }

  /** A fresh destination outside the moved subtree makes relocation reversible. */
  lemma RelocatedBack(r: Rep, src: Location, dst: Location, x: Location)
    requires Placed(r.nodes, r.paths, r.at, NIL) && x in r.at && dst !in r.at
    ensures Origin(Relocated(x, src, dst), src, dst) == x
  {
    if src <= x {
      assert x == src + x[|src|..];
      assert (dst + x[|src|..])[|dst|..] == x[|src|..];
    } else if dst <= x {
      assert AtEntry(r.nodes, r.paths, r.at, x);
      PrefixPresent(r.nodes, r.paths, r.at, r.at[x], dst);
    }
  }

  /** One parent-to-child step survives relocation. */
  lemma RelocatedStep(up: Location, name: Name, src: Location, dst: Location)
    requires src != up + [name]
    ensures Relocated(up + [name], src, dst) == Relocated(up, src, dst) + [name]
  {
    var x := up + [name];
    if src <= x {
      assert |src| <= |up|;
      assert x[..|src|] == up[..|src|];
      assert x[|src|..] == up[|src|..] + [name];
    }
  }

  lemma PlacedRename(r: Rep, nodes': seq<Node>, id: int, np: int, name: Name)
    requires Placed(r.nodes, r.paths, r.at, NIL) && Live(r.nodes, id) && id != 0 && Live(r.nodes, np)
    requires |nodes'| == |r.nodes| && forall i :: 0 <= i < |r.nodes| && i != id ==> SameIdentity(r.nodes, nodes', i)
    requires nodes'[id].name == Some(name) && nodes'[id].parent == np
    requires var dst := r.paths[np] + [name]; dst !in r.at && !(r.paths[id] <= r.paths[np])
    ensures var src, dst := r.paths[id], r.paths[np] + [name];
            Placed(nodes', MovedPaths(r.paths, src, dst), Renamed(r.at, src, dst), NIL)
  {
    var src, dst := r.paths[id], r.paths[np] + [name];
    var paths', at' := MovedPaths(r.paths, src, dst), Renamed(r.at, src, dst);
    assert PathStep(r.nodes, r.paths, id, NIL);
    assert SameIdentity(r.nodes, nodes', 0);
    forall i | Live(nodes', i) ensures PathEntry(paths', at', i) {
      assert i != id ==> SameIdentity(r.nodes, nodes', i);
      assert PathEntry(r.paths, r.at, i);
      RelocatedBack(r, src, dst, r.paths[i]);
    }
    forall q | q in at' ensures AtEntry(nodes', paths', at', q) && at'[q] != NIL {
      var x :| x in r.at && q == Relocated(x, src, dst);
      RelocatedBack(r, src, dst, x);
      assert AtEntry(r.nodes, r.paths, r.at, x);
      assert at'[q] != id ==> SameIdentity(r.nodes, nodes', at'[q]);
    }
    forall i | Live(nodes', i) && i != 0 ensures PathStep(nodes', paths', i, NIL) {
      if i == id {
        assert SameIdentity(r.nodes, nodes', np);
        assert src[|src|..] == [];
      } else {
        assert SameIdentity(r.nodes, nodes', i);
        assert PathStep(r.nodes, r.paths, i, NIL);
        var up := r.nodes[i].parent;
        assert up != id ==> SameIdentity(r.nodes, nodes', up);
        assert PathEntry(r.paths, r.at, i) && PathEntry(r.paths, r.at, id);
        RelocatedStep(r.paths[up], r.nodes[i].name.value, src, dst);
      }
    }
  }

  /** A detached node may change its name. */
  lemma RenameDetached(nodes: seq<Node>, kids: seq<seq<int>>, c: int, name: Name, fold: Name)
    requires Shape(nodes, kids, {c}) && Live(nodes, c)
    ensures Shape(nodes[c := nodes[c].(name := Some(name), folded := fold)], kids, {c})
  {
    var nodes' := nodes[c := nodes[c].(name := Some(name), folded := fold)];
    forall p | 0 <= p < |nodes'| ensures SlotOk(nodes', kids, p) {
      assert SlotOk(nodes, kids, p);
      forall k | Live(nodes', p) && 0 <= k < |kids[p]| ensures SiblingAt(nodes', p, kids[p], k) {
        assert SiblingAt(nodes, p, kids[p], k);
      }
    }
    forall i | Live(nodes', i) && i != 0 && i !in {c} ensures AttachedAt(nodes', kids, i) {
      assert AttachedAt(nodes, kids, i);
    }
  }

  /** What rename has done before the node is linked again: unindexed, unlinked, renamed. */
  ghost predicate Moving(r: Rep, r1: Rep, id: int, name: Name, fold: Name) {
    && Live(r.nodes, id) && 0 <= r.nodes[id].parent < |r.kids| && id < |r1.nodes| == |r.nodes|
    && r1.kids == r.kids[r.nodes[id].parent := Without(r.kids[r.nodes[id].parent], id)]
    && Shape(r1.nodes, r1.kids, {id})
    && (forall i :: 0 <= i < |r.nodes| && i != id ==>
          SameIdentity(r.nodes, r1.nodes, i) && r1.nodes[i].attr == r.nodes[i].attr)
    && r1.nodes[id].name == Some(name) && r1.nodes[id].folded == fold && r1.nodes[id].attr == r.nodes[id].attr
    && Indexed(r.nodes, r1.exact, id) && r1.exact == r.exact - {KeyOf(r.nodes, id)} && |r1.exact| == |r.exact| - 1
    && Folds(r.nodes, r1.kids, r1.folded) && r1.collisions == |r1.exact| - |r1.folded|
    && r1.free == r.free && r1.live == r.live && r1.paths == r.paths && r1.at == r.at
  }

  /** Everything rename has done by the time it returns. */
  ghost predicate RenameStep(r: Rep, r1: Rep, r': Rep, id: int, np: int, name: Name, fold: Name) {
    && Live(r.nodes, np) && np < |r1.nodes| == |r'.nodes| && 0 <= id < |r1.nodes| && np < |r1.kids| && np < |r.paths| && id < |r.paths|
    && LinkStep(r1.nodes, r'.nodes, np, id)
    && r'.exact == r1.exact[(np, name) := id]
    && r'.folded == (if (np, fold) in r1.folded then r1.folded else r1.folded[(np, fold) := id])
    && r'.collisions == r1.collisions + (if (np, fold) in r1.folded then 1 else 0)
    && r'.kids == r1.kids[np := r1.kids[np] + [id]]
    && r'.paths == MovedPaths(r.paths, r.paths[id], r.paths[np] + [name])
    && r'.at == Renamed(r.at, r.paths[id], r.paths[np] + [name])
    && r'.free == r.free && r'.live == r.live
  }

  /** index_node after link_child, as one change of the fields. */
  ghost predicate Relinked(r1: Rep, r2: Rep, id: int, np: int, name: Name, fold: Name) {
    && 0 <= np < |r1.nodes| == |r2.nodes| && 0 <= id < |r1.nodes| && np < |r1.kids|
    && LinkStep(r1.nodes, r2.nodes, np, id)
    && r2 == r1.(nodes := r2.nodes, exact := r1.exact[(np, name) := id],
                 folded := if (np, fold) in r1.folded then r1.folded else r1.folded[(np, fold) := id],
                 collisions := r1.collisions + (if (np, fold) in r1.folded then 1 else 0),
                 kids := r1.kids[np := r1.kids[np] + [id]])
  }

  lemma RenameSteps(r: Rep, r1: Rep, r2: Rep, r': Rep, id: int, np: int, name: Name, fold: Name)
    requires Moving(r, r1, id, name, fold) && Relinked(r1, r2, id, np, name, fold)
    requires Live(r.nodes, np) && |r.paths| == |r.nodes|
    requires r' == r2.(paths := MovedPaths(r.paths, r.paths[id], r.paths[np] + [name]),
                       at := Renamed(r.at, r.paths[id], r.paths[np] + [name]))
    ensures RenameStep(r, r1, r', id, np, name, fold)
  {
  }

  lemma {:induction false} UnplaceKeeps(r: Rep, r1: Rep, r2: Rep, id: int, name: Name, fold: Name)
    requires Consistent(r) && Live(r.nodes, id) && id != 0 && 0 <= r.nodes[id].parent < |r.kids|
    requires Indexed(r.nodes, r1.exact, id) && r1.exact == r.exact - {KeyOf(r.nodes, id)} && |r1.exact| == |r.exact| - 1
    requires Folds(r.nodes, r.kids[r.nodes[id].parent := Without(r.kids[r.nodes[id].parent], id)], r1.folded)
    requires r1.collisions == |r1.exact| - |r1.folded|
    requires r1 == r.(exact := r1.exact, folded := r1.folded, collisions := r1.collisions)
    requires |r2.nodes| == |r.nodes| && UnlinkStep(r.nodes, r2.nodes, id) && r2 == Unlinked(r1, r2.nodes, id)
    ensures Moving(r, r2.(nodes := r2.nodes[id := r2.nodes[id].(name := Some(name), folded := fold)]), id, name, fold)
  {
    UnlinkKeeps(r.nodes, r2.nodes, r.kids, {}, id);
    UnlinkIdentity(r.nodes, r2.nodes, id);
    assert {} + {id} == {id};
    assert SameIdentity(r.nodes, r2.nodes, id);
    RenameDetached(r2.nodes, r2.kids, id, name, fold);
  }

  lemma RenameIdentity(r: Rep, r1: Rep, r': Rep, id: int, np: int, name: Name, fold: Name)
    requires Moving(r, r1, id, name, fold) && RenameStep(r, r1, r', id, np, name, fold)
    ensures forall i :: 0 <= i < |r.nodes| && i != id ==> SameIdentity(r.nodes, r'.nodes, i)
    ensures forall i :: 0 <= i < |r.nodes| ==> r'.nodes[i].attr == r.nodes[i].attr && Live(r'.nodes, i) == Live(r.nodes, i)
    ensures r'.nodes[id].name == Some(name) && r'.nodes[id].folded == fold && r'.nodes[id].parent == np
  {
    forall i | 0 <= i < |r.nodes| && i != id ensures SameIdentity(r.nodes, r'.nodes, i) && r'.nodes[i].attr == r.nodes[i].attr {
      assert r'.nodes[i] == LinkedNode(r1.nodes, np, id, i);
      assert SameIdentity(r.nodes, r1.nodes, i);
    }
    assert r'.nodes[id] == LinkedNode(r1.nodes, np, id, id);
  }

  lemma RenameShape(r: Rep, r1: Rep, r': Rep, id: int, np: int, name: Name, fold: Name)
    requires Moving(r, r1, id, name, fold) && RenameStep(r, r1, r', id, np, name, fold)
    requires id != np && r.nodes[np].attr.kind.Directory?
    ensures Shape(r'.nodes, r'.kids, {})
    ensures id !in r1.kids[np]
  {
    assert SameIdentity(r.nodes, r1.nodes, np);
    LinkKeeps(r1.nodes, r'.nodes, r1.kids, {id}, np, id);
    assert {id} - {id} == {};
    if id in r1.kids[np] {
      Listed(r1.nodes, r1.kids, {id}, np, id);
    }
  }

  lemma RenameIndexes(r: Rep, r1: Rep, r': Rep, id: int, np: int, name: Name, fold: Name)
    requires Moving(r, r1, id, name, fold) && RenameStep(r, r1, r', id, np, name, fold)
    requires id != 0 && id !in r1.kids[np] && (np, name) !in r1.exact
    ensures Indexed(r'.nodes, r'.exact, NIL) && |r'.exact| == |r1.exact| + 1
    ensures Folds(r'.nodes, r'.kids, r'.folded)
  {
    RenameIdentity(r, r1, r', id, np, name, fold);
    IndexedFrame(r.nodes, r'.nodes, r1.exact, id);
    IndexExact(r'.nodes, r1.exact, id);
    forall p, k | 0 <= p < |r1.kids| && 0 <= k < |r1.kids[p]|
      ensures r1.kids[p][k] != id && Live(r.nodes, r1.kids[p][k]) && SameIdentity(r.nodes, r'.nodes, r1.kids[p][k])
    {
      Listed(r1.nodes, r1.kids, {id}, p, r1.kids[p][k]);
    }
    FoldsFrame(r.nodes, r'.nodes, r1.kids, r1.kids, r1.folded);
    IndexFolds(r'.nodes, r1.kids, r'.kids, r1.folded, id);
  }

  lemma NamesFrame(nodes: seq<Node>, nodes': seq<Node>, free: seq<int>, c: int)
    requires |nodes'| == |nodes| && Named(nodes) && FreeList(nodes, free)
    requires forall i :: 0 <= i < |nodes| && i != c ==> SameIdentity(nodes, nodes', i)
    requires Live(nodes, c) && Live(nodes', c) && NameEntry(nodes', c)
    ensures Named(nodes') && FreeList(nodes', free)
  {
    forall i | Live(nodes', i) && i != 0 ensures NameEntry(nodes', i) {
      if i != c {
        assert SameIdentity(nodes, nodes', i);
        assert NameEntry(nodes, i);
      }
    }
    forall i | 0 <= i < |nodes| ensures Live(nodes', i) <==> Live(nodes, i) {
      assert i != c ==> SameIdentity(nodes, nodes', i);
    }
  }

  lemma RenameNames(r: Rep, r1: Rep, r': Rep, id: int, np: int, name: Name, fold: Name)
    requires Moving(r, r1, id, name, fold) && RenameStep(r, r1, r', id, np, name, fold)
    requires Named(r.nodes) && FreeList(r.nodes, r.free) && NamePair(name, fold)
    ensures Named(r'.nodes) && FreeList(r'.nodes, r'.free)
  {
    RenameIdentity(r, r1, r', id, np, name, fold);
    NamesFrame(r.nodes, r'.nodes, r.free, id);
  }

  lemma RenamePlaces(r: Rep, r1: Rep, r': Rep, id: int, np: int, name: Name, fold: Name)
    requires Moving(r, r1, id, name, fold) && RenameStep(r, r1, r', id, np, name, fold)
    requires Placed(r.nodes, r.paths, r.at, NIL) && id != 0
    requires r.paths[np] + [name] !in r.at && !(r.paths[id] <= r.paths[np])
    ensures Placed(r'.nodes, r'.paths, r'.at, NIL)
  {
    RenameIdentity(r, r1, r', id, np, name, fold);
    PlacedRename(r, r'.nodes, id, np, name);
  }

  /** rename keeps the invariant. */
  lemma RenameKeeps(r: Rep, r1: Rep, r': Rep, id: int, np: int, name: Name, fold: Name)
    requires Consistent(r) && Moving(r, r1, id, name, fold) && RenameStep(r, r1, r', id, np, name, fold)
    requires id != 0 && r.nodes[np].attr.kind.Directory? && NamePair(name, fold)
    requires (np, name) !in r.exact && r.paths[np] + [name] !in r.at && !(r.paths[id] <= r.paths[np])
    ensures Consistent(r')
  {
    RenameShape(r, r1, r', id, np, name, fold);
    RenameIndexes(r, r1, r', id, np, name, fold);
    RenamePlaces(r, r1, r', id, np, name, fold);
    RenameNames(r, r1, r', id, np, name, fold);
  }

  lemma RenamedKeys<V, W>(m: map<Location, V>, n: map<Location, W>, src: Location, dst: Location)
    requires m.Keys == n.Keys
    ensures Renamed(m, src, dst).Keys == Renamed(n, src, dst).Keys
  {
    assert (set x | x in m :: Relocated(x, src, dst)) == (set x | x in n :: Relocated(x, src, dst));
  }

  /** ... and moves the whole subtree, every relative path intact. */
  lemma RenameView(r: Rep, r1: Rep, r': Rep, id: int, np: int, name: Name, fold: Name)
    requires Placed(r.nodes, r.paths, r.at, NIL)
    requires Moving(r, r1, id, name, fold) && RenameStep(r, r1, r', id, np, name, fold)
    ensures View(r') == Renamed(View(r), r.paths[id], r.paths[np] + [name])
  {
    RenameIdentity(r, r1, r', id, np, name, fold);
    var src, dst := r.paths[id], r.paths[np] + [name];
    RenamedKeys(r.at, View(r), src, dst);
    forall q | q in r'.at ensures AttrAt(r', q) == Renamed(View(r), src, dst)[q] {
      assert AtEntry(r.nodes, r.paths, r.at, Origin(q, src, dst));
    }
  }

  // --- looking up -------------------------------------------------------------

  /** The abstract map is a tree: everything present hangs below a directory. */
  lemma ConsistentTree(r: Rep)
    requires Consistent(r)
    ensures TreeClosed(View(r))
  {
    assert PathEntry(r.paths, r.at, 0);
    forall q | q in r.at && q != [] ensures IsDirectory(View(r), Parent(q)) {
      ParentIsDirectory(r, q);
    }
  }

  /** The node above a present path is its directory. */
  lemma ParentIsDirectory(r: Rep, q: Location)
    requires Consistent(r) && q in r.at && q != []
    ensures Live(r.nodes, r.at[q]) && r.at[q] != 0 && Parent(q) in r.at
    ensures r.at[Parent(q)] == r.nodes[r.at[q]].parent
    ensures Live(r.nodes, r.at[Parent(q)]) && r.nodes[r.at[Parent(q)]].attr.kind.Directory?
  {
    assert AtEntry(r.nodes, r.paths, r.at, q);
    var i := r.at[q];
    assert PathStep(r.nodes, r.paths, i, NIL);
    assert PathEntry(r.paths, r.at, r.nodes[i].parent);
    assert AttachedAt(r.nodes, r.kids, i);
    assert SlotOk(r.nodes, r.kids, r.nodes[i].parent);
  }

  /** `c` is the first child of `p` whose name folds like `name`. */
  ghost predicate FirstMatch(r: Rep, p: int, name: Name, c: int)
    requires 0 <= p < |r.kids|
  {
    exists k :: 0 <= k < |r.kids[p]| && r.kids[p][k] == c && MatchAt(r, p, name, k)
                && forall j :: 0 <= j < k ==> !MatchAt(r, p, name, j)
  }

  ghost predicate MatchAt(r: Rep, p: int, name: Name, k: int)
    requires 0 <= p < |r.kids| && 0 <= k < |r.kids[p]|
  {
    Live(r.nodes, r.kids[p][k]) && Fold(r.nodes[r.kids[p][k]].name.value) == Fold(name)
  }

  lemma {:induction false} FirstFoldedIndex(nodes: seq<Node>, ks: seq<int>, f: Name) returns (k: nat)
    requires FirstFolded(nodes, ks, f) != NIL
    ensures k < |ks| && ks[k] == FirstFolded(nodes, ks, f) && HasFolding(nodes, ks[k], f)
    ensures forall j :: 0 <= j < k ==> !HasFolding(nodes, ks[j], f)
  {
    if HasFolding(nodes, ks[0], f) {
      k := 0;
    } else {
      var j := FirstFoldedIndex(nodes, ks[1..], f);
      k := j + 1;
      assert forall x :: 0 < x < k ==> ks[x] == ks[1..][x - 1];
    }
  }

  /** Comparing stored foldings is comparing folded names. */
  lemma {:induction false} FoldingIsMatch(r: Rep, p: int, name: Name, k: int)
    requires Consistent(r) && 0 <= p < |r.kids| && 0 <= k < |r.kids[p]|
    ensures HasFolding(r.nodes, r.kids[p][k], Fold(name)) <==> MatchAt(r, p, name, k)
  {
    Listed(r.nodes, r.kids, {}, p, r.kids[p][k]);
    assert NameEntry(r.nodes, r.kids[p][k]);
  }

  /** The folded index answers with the first child in sibling order that folds like the query. */
  lemma {:induction false} FoldedLookup(r: Rep, p: int, name: Name, f: Name)
    requires Consistent(r) && 0 <= p < |r.kids| && f == Fold(name)
    ensures (p, f) in r.folded ==> FirstMatch(r, p, name, r.folded[(p, f)])
    ensures (p, f) !in r.folded ==> forall k :: 0 <= k < |r.kids[p]| ==> !MatchAt(r, p, name, k)
  {
    assert FoldEntry(r.nodes, r.kids, r.folded, p, f);
    FirstFoldedFacts(r.nodes, r.kids[p], f);
    if (p, f) in r.folded {
      var k := FirstFoldedIndex(r.nodes, r.kids[p], f);
      FoldingIsMatch(r, p, name, k);
      forall j | 0 <= j < k ensures !MatchAt(r, p, name, j) {
        FoldingIsMatch(r, p, name, j);
      }
    } else {
      forall k | 0 <= k < |r.kids[p]| ensures !MatchAt(r, p, name, k) {
        FoldingIsMatch(r, p, name, k);
      }
    }
  }

  /** A matching child's path continues its parent's, up to case. */
  lemma MatchPath(r: Rep, p: int, name: Name, c: int, q: Location)
    requires Consistent(r) && Live(r.nodes, p) && FirstMatch(r, p, name, c) && SameFolding(r.paths[p], q)
    ensures Live(r.nodes, c) && SameFolding(r.paths[c], q + [name])
  {
    var k :| 0 <= k < |r.kids[p]| && r.kids[p][k] == c && MatchAt(r, p, name, k);
    Listed(r.nodes, r.kids, {}, p, r.kids[p][k]);
    assert PathStep(r.nodes, r.paths, c, NIL);
  }

  lemma FirstMatchLive(r: Rep, p: int, name: Name, c: int)
    requires Consistent(r) && Live(r.nodes, p) && FirstMatch(r, p, name, c)
    ensures Live(r.nodes, c) && c != 0
  {
    var k :| 0 <= k < |r.kids[p]| && r.kids[p][k] == c && MatchAt(r, p, name, k);
    Listed(r.nodes, r.kids, {}, p, r.kids[p][k]);
  }

  lemma NoChildPath(r: Rep, p: int, name: Name)
    requires Consistent(r) && Live(r.nodes, p) && r.kids[p] == []
    ensures r.paths[p] + [name] !in r.at
  {
    if r.paths[p] + [name] in r.at {
      ChildPresent(r, p, r.paths[p] + [name]);
    }
  }

  /** Exact resolution of components from `cur`: ".." steps up and stops at the root. */
  ghost function Walk(m: Mirror, cur: Location, cs: seq<Name>): Option<Location>
    decreases |cs|
  {
    if cs == [] then Some(cur)
    else if cs[0] == Path.DOTDOT then Walk(m, if cur == [] then [] else Parent(cur), cs[1..])
    else if cur + [cs[0]] in m then Walk(m, cur + [cs[0]], cs[1..])
    else None
  }

  /** A path read one component on. */
  lemma OneStep(cur: Location, cs: seq<Name>)
    requires cs != []
    ensures cur + cs == (cur + [cs[0]]) + cs[1..] && (cur + cs)[..|cur| + 1] == cur + [cs[0]]
    ensures Path.NoDotDot(cs) ==> cs[0] != Path.DOTDOT && Path.NoDotDot(cs[1..])
  {
    assert cs == [cs[0]] + cs[1..];
  }

  /** Without "..", walking from the root succeeds exactly on the paths that are present. */
  lemma {:induction false} WalkIsMembership(m: Mirror, cur: Location, cs: seq<Name>)
    requires TreeClosed(m) && Path.NoDotDot(cs) && cur in m
    ensures Walk(m, cur, cs) == if cur + cs in m then Some(cur + cs) else None
    decreases |cs|
  {
    if cs == [] {
      assert cur + cs == cur;
    } else {
      OneStep(cur, cs);
      if cur + [cs[0]] in m {
        WalkIsMembership(m, cur + [cs[0]], cs[1..]);
      } else if cur + cs in m {
        PrefixHeld(m, cur + cs, |cur| + 1);
      }
    }
  }

  lemma PrefixIn(m: Mirror, q: Location, x: Location)
    requires TreeClosed(m) && x in m && q <= x
    ensures q in m
  {
    PrefixHeld(m, x, |q|);
    assert x[..|q|] == q;
  }

  /** An absent path has nothing below it to lose. */
  lemma NothingBelow(m: Mirror, q: Location)
    requires TreeClosed(m) && q !in m
    ensures WithoutDescendants(m, q) == m && WithoutSubtree(m, q) == m
  {
    forall x | x in m ensures !(q <= x) {
      if q <= x {
        PrefixIn(m, q, x);
      }
    }
  }

  /** The names on the way to a live node survive a trip through path text. */
  lemma {:induction false} PathPlain(r: Rep, i: int)
    requires Consistent(r) && Live(r.nodes, i)
    ensures Path.AllValid(r.paths[i]) && Path.AllPlain(r.paths[i]) && Path.NoDotDot(r.paths[i])
    decreases |r.paths[i]|
  {
    if i != 0 {
      assert PathStep(r.nodes, r.paths, i, NIL);
      PathPlain(r, r.nodes[i].parent);
      assert NameEntry(r.nodes, i);
    }
  }

  /** No tree ever holds a path with a name in it that is not valid. */
  lemma HeldIsValid(r: Rep, p: Location)
    requires Consistent(r) && p in View(r)
    ensures Path.AllValid(p)
  {
    assert AtEntry(r.nodes, r.paths, r.at, p);
    PathPlain(r, r.at[p]);
  }

  /** One step of a lookup extends the path walked so far, exactly or up to case. */
  lemma LookupStep(r: Rep, p: int, name: Name, c: int, done: Location)
    requires Consistent(r) && Live(r.nodes, p)
    requires var q := r.paths[p] + [name]; if q in r.at then c == r.at[q] else FirstMatch(r, p, name, c)
    ensures Live(r.nodes, c)
    ensures r.paths[p] + [name] in r.at ==> r.paths[c] == r.paths[p] + [name]
    ensures SameFolding(r.paths[p], done) ==> SameFolding(r.paths[c], done + [name])
  {
    var q := r.paths[p] + [name];
    if q in r.at {
      assert AtEntry(r.nodes, r.paths, r.at, q);
    } else {
      FirstMatchLive(r, p, name, c);
      if SameFolding(r.paths[p], done) {
        MatchPath(r, p, name, c, done);
      }
    }
  }

  /** Where a lookup of `cs` stands after the components `done`, with `rest` to go. */
  ghost predicate LookupAt(r: Rep, exact: bool, cs: seq<Name>, done: seq<Name>, rest: seq<Name>, cur: int) {
    && Live(r.nodes, cur) && cur < |r.paths| && cs == done + rest
    && (exact ==> Walk(View(r), [], cs) == Walk(View(r), r.paths[cur], rest))
    && (Path.NoDotDot(cs) ==> SameFolding(r.paths[cur], done))
    && (Path.NoDotDot(cs) && cs in r.at ==> r.paths[cur] == done)
  }

  /** What a lookup may answer. */
  ghost predicate Resolves(r: Rep, exact: bool, cs: seq<Name>, found: Option<int>) {
    && (found.Some? ==> Live(r.nodes, found.value) && found.value < |r.paths|)
    && (exact ==> found == match Walk(View(r), [], cs) case Some(q) => Some(Get(r.at, q)) case None => None)
    && (Path.NoDotDot(cs) && cs in r.at ==> found == Some(r.at[cs]))
    && (Path.NoDotDot(cs) && found.Some? ==> SameFolding(r.paths[found.value], cs))
  }

  lemma LookupBegin(r: Rep, exact: bool, cs: seq<Name>)
    requires Consistent(r)
    ensures LookupAt(r, exact, cs, [], cs, 0)
  {
    assert [] + cs == cs;
  }

  lemma LookupUp(r: Rep, exact: bool, cs: seq<Name>, done: seq<Name>, rest: seq<Name>, cur: int)
    requires Consistent(r) && rest != [] && rest[0] == Path.DOTDOT && LookupAt(r, exact, cs, done, rest, cur)
    ensures LookupAt(r, exact, cs, done + [rest[0]], rest[1..], if r.nodes[cur].parent != NIL then r.nodes[cur].parent else cur)
  {
    assert cs == (done + [rest[0]]) + rest[1..];
    assert cs[|done|] == Path.DOTDOT;
    if cur != 0 {
      assert PathStep(r.nodes, r.paths, cur, NIL);
      assert Parent(r.paths[cur]) == r.paths[r.nodes[cur].parent];
    }
  }

  lemma LookupDown(r: Rep, exact: bool, cs: seq<Name>, done: seq<Name>, rest: seq<Name>, cur: int, next: int)
    requires Consistent(r) && rest != [] && rest[0] != Path.DOTDOT && LookupAt(r, exact, cs, done, rest, cur)
    requires var q := r.paths[cur] + [rest[0]]; if q in r.at then next == r.at[q] else !exact && FirstMatch(r, cur, rest[0], next)
    ensures LookupAt(r, exact, cs, done + [rest[0]], rest[1..], next)
  {
    assert cs == (done + [rest[0]]) + rest[1..];
    LookupStep(r, cur, rest[0], next, done);
    if Path.NoDotDot(cs) && cs in r.at {
      ConsistentTree(r);
      PrefixHeld(View(r), cs, |done| + 1);
      assert cs[..|done| + 1] == done + [rest[0]];
    }
  }

  lemma LookupMiss(r: Rep, exact: bool, cs: seq<Name>, done: seq<Name>, rest: seq<Name>, cur: int)
    requires Consistent(r) && rest != [] && rest[0] != Path.DOTDOT && LookupAt(r, exact, cs, done, rest, cur)
    requires r.paths[cur] + [rest[0]] !in r.at
    ensures Resolves(r, exact, cs, None)
  {
    if Path.NoDotDot(cs) && cs in r.at {
      ConsistentTree(r);
      assert cs[..|done| + 1] == done + [rest[0]];
      PrefixHeld(View(r), cs, |done| + 1);
    }
  }

  lemma LookupEnd(r: Rep, exact: bool, cs: seq<Name>, done: seq<Name>, cur: int)
    requires Consistent(r) && LookupAt(r, exact, cs, done, [], cur)
    ensures Resolves(r, exact, cs, Some(cur))
  {
    assert done == cs;
    assert PathEntry(r.paths, r.at, cur);
  }

  // --- the greedy walk --------------------------------------------------------

  /** The child a lookup goes on with: the one of exactly this name, else the first that folds alike. */
  ghost predicate Finds(r: Rep, exact: bool, cur: int, name: Name, next: Option<int>)
    requires 0 <= cur < |r.paths| && cur < |r.kids|
  {
    var q := r.paths[cur] + [name];
    if q in r.at then next == Some(r.at[q])
    else if exact then next == None
    else if next.Some? then FirstMatch(r, cur, name, next.value)
    else forall k :: 0 <= k < |r.kids[cur]| ==> !MatchAt(r, cur, name, k)
  }

  function Upward(r: Rep, cur: int): int
    requires 0 <= cur < |r.nodes|
  {
    if r.nodes[cur].parent != NIL then r.nodes[cur].parent else cur
  }

  /** Component by component, never going back: where a lookup of `cs` from `cur` ends. */
  ghost predicate Greedy(r: Rep, exact: bool, cur: int, cs: seq<Name>, found: Option<int>)
    decreases |cs|
  {
    && 0 <= cur < |r.nodes| && cur < |r.paths| && cur < |r.kids|
    && if cs == [] then found == Some(cur)
       else if cs[0] == Path.DOTDOT then Greedy(r, exact, Upward(r, cur), cs[1..], found)
       else if Finds(r, exact, cur, cs[0], None) then found == None
       else exists next {:trigger Finds(r, exact, cur, cs[0], Some(next))} ::
              Finds(r, exact, cur, cs[0], Some(next)) && Greedy(r, exact, next, cs[1..], found)
  }

  lemma FindsOne(r: Rep, exact: bool, cur: int, name: Name, a: Option<int>, b: Option<int>)
    requires 0 <= cur < |r.paths| && cur < |r.kids| && Finds(r, exact, cur, name, a) && Finds(r, exact, cur, name, b)
    ensures a == b
  {
    if r.paths[cur] + [name] !in r.at && !exact && a.Some? && b.Some? {
      var j :| 0 <= j < |r.kids[cur]| && r.kids[cur][j] == a.value && MatchAt(r, cur, name, j)
               && forall i :: 0 <= i < j ==> !MatchAt(r, cur, name, i);
      var k :| 0 <= k < |r.kids[cur]| && r.kids[cur][k] == b.value && MatchAt(r, cur, name, k)
               && forall i :: 0 <= i < k ==> !MatchAt(r, cur, name, i);
      assert j == k;
    }
  }

  /** The walk has one outcome. */
  lemma {:induction false} GreedyOne(r: Rep, exact: bool, cur: int, cs: seq<Name>, a: Option<int>, b: Option<int>)
    requires Greedy(r, exact, cur, cs, a) && Greedy(r, exact, cur, cs, b)
    ensures a == b
    decreases |cs|
  {
    if cs != [] {
      if cs[0] == Path.DOTDOT {
        GreedyOne(r, exact, Upward(r, cur), cs[1..], a, b);
      } else if !Finds(r, exact, cur, cs[0], None) {
        var m :| Finds(r, exact, cur, cs[0], Some(m)) && Greedy(r, exact, m, cs[1..], a);
        var n :| Finds(r, exact, cur, cs[0], Some(n)) && Greedy(r, exact, n, cs[1..], b);
        FindsOne(r, exact, cur, cs[0], Some(m), Some(n));
        GreedyOne(r, exact, m, cs[1..], a, b);
      }
    }
  }

  /** A walk that ends nowhere stopped at a component for which the node reached so far has no child. */
  lemma {:induction false} GreedyStops(r: Rep, exact: bool, cur: int, cs: seq<Name>) returns (k: nat, at: int)
    requires Greedy(r, exact, cur, cs, None)
    ensures k < |cs| && cs[k] != Path.DOTDOT && Greedy(r, exact, cur, cs[..k], Some(at))
    ensures 0 <= at < |r.paths| && at < |r.kids| && Finds(r, exact, at, cs[k], None)
    decreases |cs|
  {
    if cs[0] == Path.DOTDOT {
      k, at := GreedyStops(r, exact, Upward(r, cur), cs[1..]);
      assert cs[..k + 1][1..] == cs[1..][..k];
      k := k + 1;
    } else if Finds(r, exact, cur, cs[0], None) {
      k, at := 0, cur;
      assert cs[..0] == [];
    } else {
      var next :| Finds(r, exact, cur, cs[0], Some(next)) && Greedy(r, exact, next, cs[1..], None);
      k, at := GreedyStops(r, exact, next, cs[1..]);
      assert cs[..k + 1][1..] == cs[1..][..k];
      k := k + 1;
    }
  }

  /** Whatever the walk from `cur` along `rest` ends in, the whole walk ends in. */
  ghost predicate GreedyFrom(r: Rep, exact: bool, cs: seq<Name>, rest: seq<Name>, cur: int) {
    forall found {:trigger Greedy(r, exact, 0, cs, found)} :: Greedy(r, exact, cur, rest, found) ==> Greedy(r, exact, 0, cs, found)
  }

  lemma GreedyDown(r: Rep, exact: bool, cs: seq<Name>, rest: seq<Name>, cur: int, next: int)
    requires 0 <= cur < |r.nodes| && cur < |r.paths| && cur < |r.kids| && rest != [] && rest[0] != Path.DOTDOT
    requires GreedyFrom(r, exact, cs, rest, cur) && Finds(r, exact, cur, rest[0], Some(next))
    ensures GreedyFrom(r, exact, cs, rest[1..], next)
  {
    if Finds(r, exact, cur, rest[0], None) {
      FindsOne(r, exact, cur, rest[0], None, Some(next));
    }
    forall found | Greedy(r, exact, next, rest[1..], found) ensures Greedy(r, exact, 0, cs, found) {
      assert Greedy(r, exact, cur, rest, found);
    }
  }

  lemma GreedyUp(r: Rep, exact: bool, cs: seq<Name>, rest: seq<Name>, cur: int)
    requires 0 <= cur < |r.nodes| && cur < |r.paths| && cur < |r.kids| && rest != [] && rest[0] == Path.DOTDOT
    requires GreedyFrom(r, exact, cs, rest, cur)
    ensures GreedyFrom(r, exact, cs, rest[1..], Upward(r, cur))
  {
    forall found | Greedy(r, exact, Upward(r, cur), rest[1..], found) ensures Greedy(r, exact, 0, cs, found) {
      assert Greedy(r, exact, cur, rest, found);
    }
  }

  lemma {:induction false} GreedyMiss(r: Rep, exact: bool, cs: seq<Name>, rest: seq<Name>, cur: int)
    requires 0 <= cur < |r.nodes| && cur < |r.paths| && cur < |r.kids| && rest != [] && rest[0] != Path.DOTDOT
    requires GreedyFrom(r, exact, cs, rest, cur) && Finds(r, exact, cur, rest[0], None)
    ensures Greedy(r, exact, 0, cs, None)
  {
    assert Greedy(r, exact, cur, rest, None);
  }

  /** Where a lookup of `cs` stands before component `k`. */
  ghost predicate Walking(r: Rep, exact: bool, cs: seq<Name>, k: int, cur: int) {
    && 0 <= k <= |cs| && Live(r.nodes, cur) && cur < |r.paths| && cur < |r.kids|
    && LookupAt(r, exact, cs, cs[..k], cs[k..], cur) && GreedyFrom(r, exact, cs, cs[k..], cur)
  }

  lemma NextComponent(cs: seq<Name>, k: nat)
    requires k < |cs|
    ensures cs[k..] != [] && cs[k..][0] == cs[k] && cs[k..][1..] == cs[k + 1..] && cs[..k] + [cs[k..][0]] == cs[..k + 1]
  {
  }

  lemma {:induction false} WalkBegins(r: Rep, exact: bool, cs: seq<Name>)
    requires Consistent(r)
    ensures Walking(r, exact, cs, 0, 0)
  {
    LookupBegin(r, exact, cs);
    assert cs[..0] == [] && cs[0..] == cs;
    ConsistentTree(r);
    assert SlotOk(r.nodes, r.kids, 0);
  }

  lemma {:induction false} WalksUp(r: Rep, exact: bool, cs: seq<Name>, k: nat, cur: int)
    requires Consistent(r) && k < |cs| && cs[k] == Path.DOTDOT && Walking(r, exact, cs, k, cur)
    ensures Walking(r, exact, cs, k + 1, Upward(r, cur))
  {
    NextComponent(cs, k);
    LookupUp(r, exact, cs, cs[..k], cs[k..], cur);
    GreedyUp(r, exact, cs, cs[k..], cur);
  }

  lemma {:induction false} WalksDown(r: Rep, exact: bool, cs: seq<Name>, k: nat, cur: int, next: int)
    requires Consistent(r) && k < |cs| && cs[k] != Path.DOTDOT && Walking(r, exact, cs, k, cur)
    requires Finds(r, exact, cur, cs[k], Some(next))
    ensures Walking(r, exact, cs, k + 1, next)
  {
    NextComponent(cs, k);
    LookupDown(r, exact, cs, cs[..k], cs[k..], cur, next);
    GreedyDown(r, exact, cs, cs[k..], cur, next);
  }

  lemma {:induction false} WalkMisses(r: Rep, exact: bool, cs: seq<Name>, k: nat, cur: int)
    requires Consistent(r) && k < |cs| && cs[k] != Path.DOTDOT && Walking(r, exact, cs, k, cur)
    requires Finds(r, exact, cur, cs[k], None)
    ensures Resolves(r, exact, cs, None) && Greedy(r, exact, 0, cs, None)
  {
    NextComponent(cs, k);
    LookupMiss(r, exact, cs, cs[..k], cs[k..], cur);
    GreedyMiss(r, exact, cs, cs[k..], cur);
  }

  lemma {:induction false} WalkEnds(r: Rep, exact: bool, cs: seq<Name>, cur: int)
    requires Consistent(r) && Walking(r, exact, cs, |cs|, cur)
    ensures Resolves(r, exact, cs, Some(cur)) && Greedy(r, exact, 0, cs, Some(cur))
  {
    assert cs[|cs|..] == [] && cs[..|cs|] == cs;
    assert Greedy(r, exact, cur, [], Some(cur));
    LookupEnd(r, exact, cs, cs[..|cs|], cur);
  }

  // --- creating a path --------------------------------------------------------

  /** Adding one more directory to a chain of them. */
  lemma WithDirectoriesSnoc(m: Mirror, p: Location, c: Name)
    requires TreeClosed(m)
    ensures p + [c] in WithDirectories(m, p) <==> p + [c] in m
    ensures WithDirectories(m, p + [c]) ==
              if p + [c] in m then WithDirectories(m, p) else WithDirectories(m, p)[p + [c] := IMPLICIT_DIRECTORY]
  {
    var x := p + [c];
    assert Ancestors(x) == Ancestors(p) + {x} by {
      forall k | 0 <= k <= |x| ensures x[..k] in Ancestors(p) + {x} {
        assert k <= |p| ==> x[..k] == p[..k];
        assert k == |x| ==> x[..k] == x;
      }
      forall k | 0 <= k <= |p| ensures p[..k] in Ancestors(x) {
        assert x[..k] == p[..k];
      }
      assert x[..|x|] == x;
    }
    assert x !in Ancestors(p);
  }

  /** A chain of directories that is already there changes nothing. */
  lemma WithDirectoriesPresent(m: Mirror, p: Location)
    requires TreeClosed(m) && p in m
    ensures WithDirectories(m, p) == m
  {
    forall k | 0 <= k <= |p| ensures p[..k] in m {
      PrefixHeld(m, p, k);
    }
  }

  lemma ObstructedSnoc(m: Mirror, p: Location, c: Name)
    ensures Obstructed(m, p + [c]) <==> Obstructed(m, p) || (p + [c] in m && !m[p + [c]].kind.Directory?)
    ensures Blocked(m, p + [c]) <==> Obstructed(m, p)
  {
    var x := p + [c];
    assert forall k :: 0 <= k <= |p| ==> x[..k] == p[..k];
    assert x[..|x|] == x;
  }

  /** A longer path meets every obstacle of its prefix. */
  lemma ObstructedPrefix(m: Mirror, p: Location, q: Location)
    requires Obstructed(m, p) && p <= q
    ensures Obstructed(m, q)
  {
    var k :| 0 <= k <= |p| && p[..k] in m && !m[p[..k]].kind.Directory?;
    assert q[..k] == p[..k];
  }

  /** Where ensure_directory_path stands after the components `done`. */
  ghost predicate EnsuredTo(m: Mirror, r: Rep, done: seq<Name>, cur: int) {
    && Live(r.nodes, cur) && cur < |r.paths| && r.paths[cur] == done
    && View(r) == WithDirectories(m, done)
    && (done != [] ==> !Obstructed(m, done))
  }

  /** What the map holds at the node reached so far. */
  lemma EnsuredNode(m: Mirror, r: Rep, done: seq<Name>, cur: int)
    requires Consistent(r) && EnsuredTo(m, r, done, cur)
    ensures done in m ==> m[done] == r.nodes[cur].attr
    ensures done !in m ==> r.nodes[cur].attr == IMPLICIT_DIRECTORY
  {
    assert PathEntry(r.paths, r.at, cur);
    assert View(r)[done] == AttrAt(r, done);
  }

  lemma EnsuredPresent(m: Mirror, r: Rep, done: seq<Name>, c: Name, cur: int)
    requires TreeClosed(m) && Consistent(r) && EnsuredTo(m, r, done, cur) && done + [c] in r.at
    ensures done + [c] in m && m[done + [c]] == AttrAt(r, done + [c])
    ensures WithDirectories(m, done) == m && IsDirectory(m, done)
  {
    WithDirectoriesSnoc(m, done, c);
    assert done + [c] in View(r);
    assert Parent(done + [c]) == done;
    WithDirectoriesPresent(m, done);
    assert View(r)[done + [c]] == AttrAt(r, done + [c]);
  }

  lemma EnsuredExisting(m: Mirror, r: Rep, done: seq<Name>, c: Name, cur: int, next: int)
    requires TreeClosed(m) && Consistent(r) && EnsuredTo(m, r, done, cur)
    requires done + [c] in r.at && next == r.at[done + [c]] && Live(r.nodes, next) && r.nodes[next].attr.kind.Directory?
    ensures EnsuredTo(m, r, done + [c], next)
  {
    EnsuredPresent(m, r, done, c, cur);
    WithDirectoriesPresent(m, done + [c]);
    assert AtEntry(r.nodes, r.paths, r.at, done + [c]);
    ObstructedSnoc(m, done, c);
    RootObstruction(m, done);
  }

  /** At the root, being obstructed is the root not being a directory. */
  lemma RootObstruction(m: Mirror, p: Location)
    requires [] in m
    ensures p == [] ==> (Obstructed(m, p) <==> !m[[]].kind.Directory?)
  {
    if p == [] {
      assert p[..0] == [];
    }
  }

  lemma EnsuredCreated(m: Mirror, r: Rep, r': Rep, done: seq<Name>, c: Name, cur: int, next: int)
    requires TreeClosed(m) && Consistent(r) && Consistent(r') && EnsuredTo(m, r, done, cur)
    requires done + [c] !in r.at && r.nodes[cur].attr.kind.Directory?
    requires View(r') == View(r)[done + [c] := IMPLICIT_DIRECTORY] && r'.at == r.at[done + [c] := next]
    ensures EnsuredTo(m, r', done + [c], next)
  {
    WithDirectoriesSnoc(m, done, c);
    assert done + [c] !in View(r);
    assert AtEntry(r'.nodes, r'.paths, r'.at, done + [c]);
    ObstructedSnoc(m, done, c);
    RootObstruction(m, done);
    EnsuredNode(m, r, done, cur);
  }

  /** An insert can fail on its parent only when the root itself is no directory. */
  lemma EnsuredFailure(m: Mirror, r: Rep, done: seq<Name>, cur: int, cs: seq<Name>)
    requires TreeClosed(m) && Consistent(r) && EnsuredTo(m, r, done, cur) && done <= cs
    ensures !r.nodes[cur].attr.kind.Directory? ==> View(r) == m && Obstructed(m, cs)
  {
    EnsuredNode(m, r, done, cur);
    if !r.nodes[cur].attr.kind.Directory? {
      assert done[..|done|] == done;
      WithDirectoriesPresent(m, done);
      ObstructedPrefix(m, done, cs);
    }
  }

  lemma EnsureBegin(r: Rep)
    requires Consistent(r)
    ensures TreeClosed(View(r)) && EnsuredTo(View(r), r, [], 0)
  {
    ConsistentTree(r);
    WithDirectoriesPresent(View(r), []);
  }

  /** Refreshing or adding the leaf under the ensured directory is the whole upsert. */
  lemma UpsertedPath(m: Mirror, r: Rep, front: seq<Name>, leaf: Name, dir: int, attr: Attributes)
    requires TreeClosed(m) && Consistent(r) && EnsuredTo(m, r, front, dir)
    ensures var q := front + [leaf];
            && (q in View(r) ==> !Blocked(m, q) && Upserted(m, q, attr) == WithAttributes(View(r), q, attr))
            && (q !in View(r) && r.nodes[dir].attr.kind.Directory? ==>
                  !Blocked(m, q) && Upserted(m, q, attr) == View(r)[q := attr])
            && (!r.nodes[dir].attr.kind.Directory? ==> Blocked(m, q) && View(r) == m && q !in View(r))
  {
    var q := front + [leaf];
    assert Parent(q) == front;
    if q in View(r) {
      UpsertedPresent(m, r, front, leaf, dir, attr);
    } else {
      UpsertedAbsent(m, r, front, leaf, dir, attr);
    }
    UpsertedBlocked(m, r, front, leaf, dir);
  }

  lemma UpsertedPresent(m: Mirror, r: Rep, front: seq<Name>, leaf: Name, dir: int, attr: Attributes)
    requires TreeClosed(m) && Consistent(r) && EnsuredTo(m, r, front, dir) && front + [leaf] in View(r)
    ensures !Blocked(m, front + [leaf]) && Upserted(m, front + [leaf], attr) == WithAttributes(View(r), front + [leaf], attr)
  {
    assert Parent(front + [leaf]) == front;
    ObstructedSnoc(m, front, leaf);
    WithDirectoriesSnoc(m, front, leaf);
    RootObstruction(m, front);
    EnsuredNode(m, r, front, dir);
    EnsuredFailure(m, r, front, dir, front);
    EnsuredPresent(m, r, front, leaf, dir);
  }

  /** Below a directory that was ensured nothing blocks a leaf. */
  lemma EnsuredOpen(m: Mirror, r: Rep, front: seq<Name>, leaf: Name, dir: int)
    requires TreeClosed(m) && Consistent(r) && EnsuredTo(m, r, front, dir) && r.nodes[dir].attr.kind.Directory?
    ensures !Blocked(m, front + [leaf])
  {
    ObstructedSnoc(m, front, leaf);
    RootObstruction(m, front);
    EnsuredNode(m, r, front, dir);
  }

  lemma UpsertedAbsent(m: Mirror, r: Rep, front: seq<Name>, leaf: Name, dir: int, attr: Attributes)
    requires TreeClosed(m) && Consistent(r) && EnsuredTo(m, r, front, dir) && front + [leaf] !in View(r)
    ensures r.nodes[dir].attr.kind.Directory? ==>
              !Blocked(m, front + [leaf]) && Upserted(m, front + [leaf], attr) == View(r)[front + [leaf] := attr]
  {
    assert Parent(front + [leaf]) == front;
    if r.nodes[dir].attr.kind.Directory? {
      EnsuredOpen(m, r, front, leaf, dir);
    }
    ConsistentTree(r);
    NothingBelow(View(r), front + [leaf]);
  }

  lemma UpsertedBlocked(m: Mirror, r: Rep, front: seq<Name>, leaf: Name, dir: int)
    requires TreeClosed(m) && Consistent(r) && EnsuredTo(m, r, front, dir)
    ensures !r.nodes[dir].attr.kind.Directory? ==> Blocked(m, front + [leaf]) && View(r) == m && front + [leaf] !in View(r)
  {
    assert Parent(front + [leaf]) == front;
    ObstructedSnoc(m, front, leaf);
    WithDirectoriesSnoc(m, front, leaf);
    RootObstruction(m, front);
    EnsuredNode(m, r, front, dir);
    EnsuredFailure(m, r, front, dir, front);
    if front + [leaf] in View(r) {
      EnsuredPresent(m, r, front, leaf, dir);
    }
  }

  /** Exact lookup without "..": present paths resolve to their node, absent ones to nothing. */
  lemma ResolvesExactly(r: Rep, cs: seq<Name>, found: Option<int>)
    requires Consistent(r) && Path.NoDotDot(cs) && Resolves(r, true, cs, found)
    ensures found == if cs in r.at then Some(r.at[cs]) else None
    ensures cs in r.at ==> Live(r.nodes, r.at[cs]) && r.paths[r.at[cs]] == cs && (r.at[cs] == 0 <==> cs == [])
    ensures cs !in r.at ==> cs != [] && WithoutSubtree(View(r), cs) == View(r)
  {
    ConsistentTree(r);
    assert PathEntry(r.paths, r.at, 0);
    WalkIsMembership(View(r), [], cs);
    assert [] + cs == cs;
    if cs in r.at {
      assert AtEntry(r.nodes, r.paths, r.at, cs);
    } else {
      NothingBelow(View(r), cs);
    }
  }

  /** What removing the node an exact lookup found does to the map. */
  lemma RemovesExactly(r: Rep, cs: seq<Name>, found: Option<int>)
    requires Consistent(r) && Path.NoDotDot(cs) && Resolves(r, true, cs, found)
    ensures found.None? || found == Some(0) ==> Removed(View(r), cs) == View(r)
    ensures found.Some? && found.value != 0 ==>
              found.value < |r.paths| && Removed(View(r), cs) == WithoutSubtree(View(r), r.paths[found.value])
  {
    ResolvesExactly(r, cs, found);
  }

  // --- the path of a node -----------------------------------------------------

  /** The names of a chain of nodes read from its end to its start. */
  ghost function ChainNames(r: Rep, chain: seq<int>): Location {
    if chain == [] then []
    else (if Live(r.nodes, chain[|chain| - 1]) then [r.nodes[chain[|chain| - 1]].name.value] else [[]])
         + ChainNames(r, chain[..|chain| - 1])
  }

  /** The nodes collected on the way up from `id` to just below `cur`. */
  ghost predicate ChainTo(r: Rep, chain: seq<int>, cur: int, id: int) {
    && 0 <= cur < |r.paths| && 0 <= id < |r.paths|
    && (forall k :: 0 <= k < |chain| ==> Live(r.nodes, chain[k]) && chain[k] != 0)
    && r.paths[id] == r.paths[cur] + ChainNames(r, chain)
  }

  lemma ChainUp(r: Rep, chain: seq<int>, cur: int, id: int)
    requires Consistent(r) && Live(r.nodes, cur) && cur != 0 && ChainTo(r, chain, cur, id)
    ensures ChainTo(r, chain + [cur], r.nodes[cur].parent, id)
  {
    assert PathStep(r.nodes, r.paths, cur, NIL);
    assert (chain + [cur])[..|chain|] == chain;
  }

  lemma {:induction false} ChainDone(r: Rep, chain: seq<int>, id: int)
    requires Consistent(r) && ChainTo(r, chain, 0, id)
    ensures [] + ChainNames(r, chain[..|chain|]) == r.paths[id]
  {
    assert chain[..|chain|] == chain;
  }

  lemma {:induction false} NameOnChain(r: Rep, chain: seq<int>, k: nat, shown: Location)
    requires Consistent(r) && k < |chain| && Live(r.nodes, chain[k]) && chain[k] != 0
    ensures Path.Plain(r.nodes[chain[k]].name.value)
    ensures shown + ChainNames(r, chain[..k + 1]) == (shown + [r.nodes[chain[k]].name.value]) + ChainNames(r, chain[..k])
  {
    assert NameEntry(r.nodes, chain[k]);
    assert chain[..k + 1][..k] == chain[..k];
  }

  // --- case collisions ----------------------------------------------------------

  /** The children of one directory that share one folding. */
  ghost function FoldClass(r: Rep, key: Key): set<int> {
    set i | 0 <= i < |r.nodes| && Live(r.nodes, i) && i != 0 && (r.nodes[i].parent, r.nodes[i].folded) == key
  }

  ghost function InClasses(r: Rep, keys: set<Key>): set<int> {
    set i | 0 <= i < |r.nodes| && Live(r.nodes, i) && i != 0 && (r.nodes[i].parent, r.nodes[i].folded) in keys
  }

  /** The sum over fold classes of size - 1. */
  ghost function Surplus(r: Rep, keys: set<Key>): int
    decreases |keys|
  {
    if keys == {} then 0 else
      var key :| key in keys;
      |FoldClass(r, key)| - 1 + Surplus(r, keys - {key})
  }

  lemma {:induction false} SurplusIsExcess(r: Rep, keys: set<Key>)
    ensures Surplus(r, keys) == |InClasses(r, keys)| - |keys|
    decreases |keys|
  {
    if keys == {} {
      assert InClasses(r, keys) == {};
    } else {
      var key :| key in keys && Surplus(r, keys) == |FoldClass(r, key)| - 1 + Surplus(r, keys - {key});
      SurplusIsExcess(r, keys - {key});
      assert InClasses(r, keys) == FoldClass(r, key) + InClasses(r, keys - {key});
      assert FoldClass(r, key) !! InClasses(r, keys - {key});
    }
  }

  /** The collision counter is the sum over fold classes of size - 1. */
  lemma {:induction false} CollisionsAreSurplus(r: Rep)
    requires Consistent(r)
    ensures r.collisions == Surplus(r, r.folded.Keys)
  {
    SurplusIsExcess(r, r.folded.Keys);
    var members := InClasses(r, r.folded.Keys);
    var g := map i | i in members :: KeyOf(r.nodes, i);
    forall i | i in g ensures g[i] in r.exact && r.exact[g[i]] == i {
      assert ExactEntry(r.nodes, r.exact, i);
    }
    forall key | key in r.exact ensures r.exact[key] in g && g[r.exact[key]] == key {
      assert KeyEntry(r.nodes, r.exact, key, NIL);
      var i := r.exact[key];
      assert AttachedAt(r.nodes, r.kids, i);
      OwnerExists(r.nodes, r.kids, r.folded, r.nodes[i].parent, i);
    }
    InjectionFits(r.exact, members);
    InjectionFits(g, r.exact.Keys);
    assert g.Keys == members;
  }
}
