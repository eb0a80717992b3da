/** Exporting a tree breadth first, and that loading the export rebuilds it. */
module TreeExport {
  import opened Types
  import opened PathMap
  import opened TreeModel
  import opened TreeIndex
  import opened TreeOps
  import opened TreeSnapshot

  /** The children of the nodes `qs`, list after list. */
  ghost function Flatten(kids: seq<seq<int>>, qs: seq<int>): seq<int> {
    if qs == [] then []
    else Flatten(kids, qs[..|qs| - 1]) + (if 0 <= qs[|qs| - 1] < |kids| then kids[qs[|qs| - 1]] else [])
  }

  predicate IsDir(nodes: seq<Node>, i: int) {
    0 <= i < |nodes| && nodes[i].attr.kind.Directory?
  }

  /** The directories among `out`, in order. */
  function Dirs(nodes: seq<Node>, out: seq<int>): seq<int> {
    if out == [] then []
    else Dirs(nodes, out[..|out| - 1]) + (if IsDir(nodes, out[|out| - 1]) then [out[|out| - 1]] else [])
  }

  /** The nodes of `out` whose parent is `p`, in order. */
  ghost function ChildrenIn(nodes: seq<Node>, out: seq<int>, p: int): seq<int> {
    if out == [] then []
    else
      var c := out[|out| - 1];
      ChildrenIn(nodes, out[..|out| - 1], p) + (if 0 <= c < |nodes| && nodes[c].parent == p then [c] else [])
  }

  /** Entry `k` describes node `out[k]` and points at its parent's entry. */
  ghost predicate EntryFor(nodes: seq<Node>, es: seq<SnapshotEntry>, out: seq<int>, k: int)
    requires 0 <= k < |es| == |out|
  {
    && Live(nodes, out[k]) && out[k] != 0
    && es[k].name == nodes[out[k]].name.value && es[k].attr == nodes[out[k]].attr
    && es[k].parent <= k
    && nodes[out[k]].parent == (if es[k].parent == 0 then 0 else out[es[k].parent - 1])
  }

  ghost predicate Entries(nodes: seq<Node>, es: seq<SnapshotEntry>, out: seq<int>) {
    && |es| == |out| && Distinct(out)
    && forall k {:trigger EntryFor(nodes, es, out, k)} :: 0 <= k < |es| ==> EntryFor(nodes, es, out, k)
  }

  /** A complete export: every node but the root, once, siblings in sibling order. */
  ghost predicate Exports(r: Rep, es: seq<SnapshotEntry>, out: seq<int>) {
    && Entries(r.nodes, es, out)
    && (forall i :: Live(r.nodes, i) && i != 0 ==> i in out)
    && |r.kids| == |r.nodes|
    && (forall p :: Live(r.nodes, p) ==> ChildrenIn(r.nodes, out, p) == r.kids[p])
  }

  // --- the breadth-first walk ---------------------------------------------------

  lemma {:induction false} DirsFacts(nodes: seq<Node>, out: seq<int>)
    ensures forall x :: x in Dirs(nodes, out) <==> x in out && IsDir(nodes, x)
    ensures Distinct(out) ==> Distinct(Dirs(nodes, out))
  {
    if out != [] {
      var n := |out| - 1;
      DirsFacts(nodes, out[..n]);
      assert out == out[..n] + [out[n]];
      if Distinct(out) {
        assert out[n] !in out[..n];
        assert out[n] !in Dirs(nodes, out[..n]);
      }
    }
  }

  lemma {:induction false} FlattenParents(r: Rep, qs: seq<int>, c: int)
    requires Consistent(r) && c in Flatten(r.kids, qs)
    ensures Live(r.nodes, c) && c != 0 && r.nodes[c].parent in qs
  {
    var n := |qs| - 1;
    if c in Flatten(r.kids, qs[..n]) {
      FlattenParents(r, qs[..n], c);
    } else {
      Listed(r.nodes, r.kids, {}, qs[n], c);
    }
  }

  lemma {:induction false} FlattenCovers(kids: seq<seq<int>>, qs: seq<int>, p: int, c: int)
    requires p in qs && 0 <= p < |kids| && c in kids[p]
    ensures c in Flatten(kids, qs)
  {
    var n := |qs| - 1;
    if qs[n] != p {
      assert p in qs[..n];
      FlattenCovers(kids, qs[..n], p, c);
    }
  }

  lemma {:induction false} ChildrenInConcat(nodes: seq<Node>, a: seq<int>, b: seq<int>, p: int)
    ensures ChildrenIn(nodes, a + b, p) == ChildrenIn(nodes, a, p) + ChildrenIn(nodes, b, p)
  {
    if b == [] {
      assert a + b == a;
    } else {
      var n := |b| - 1;
      assert (a + b)[..|a + b| - 1] == a + b[..n];
      ChildrenInConcat(nodes, a, b[..n], p);
    }
  }

  lemma {:induction false} ChildrenInList(nodes: seq<Node>, ks: seq<int>, q: int, p: int)
    requires forall k :: 0 <= k < |ks| ==> Live(nodes, ks[k]) && nodes[ks[k]].parent == q
    ensures ChildrenIn(nodes, ks, p) == if p == q then ks else []
  {
    if ks != [] {
      var n := |ks| - 1;
      ChildrenInList(nodes, ks[..n], q, p);
      assert ks == ks[..n] + [ks[n]];
    }
  }

  /** Everything listed under `q` is a live child of `q`. */
  ghost predicate OwnKids(nodes: seq<Node>, kids: seq<seq<int>>, q: int) {
    0 <= q < |kids| && forall k :: 0 <= k < |kids[q]| ==> Live(nodes, kids[q][k]) && nodes[kids[q][k]].parent == q
  }

  lemma LastApart(qs: seq<int>, p: int)
    requires Distinct(qs) && qs != []
    ensures var n := |qs| - 1;
            Distinct(qs[..n]) && qs[n] !in qs[..n] && (p in qs <==> p in qs[..n] || p == qs[n])
  {
    assert qs == qs[..|qs| - 1] + [qs[|qs| - 1]];
  }

  lemma {:induction false} FlattenGroups(nodes: seq<Node>, kids: seq<seq<int>>, qs: seq<int>, p: int)
    requires Distinct(qs) && 0 <= p < |kids| && forall k {:trigger qs[k]} :: 0 <= k < |qs| ==> OwnKids(nodes, kids, qs[k])
    ensures ChildrenIn(nodes, Flatten(kids, qs), p) == if p in qs then kids[p] else []
  {
    if qs != [] {
      var n := |qs| - 1;
      var front, q := qs[..n], qs[n];
      FlattenGroups(nodes, kids, front, p);
      LastApart(qs, p);
      ChildrenInConcat(nodes, Flatten(kids, front), kids[q], p);
      ChildrenInList(nodes, kids[q], q, p);
      assert [] + kids[q] == kids[q] && (p in front ==> kids[p] + [] == kids[p]);
    }
  }

  /** Each list of children comes out whole and in order. */
  lemma {:induction false} FlattenOrder(r: Rep, qs: seq<int>, p: int)
    requires Consistent(r) && Distinct(qs) && Live(r.nodes, p)
    requires forall k :: 0 <= k < |qs| ==> Live(r.nodes, qs[k])
    ensures ChildrenIn(r.nodes, Flatten(r.kids, qs), p) == if p in qs then r.kids[p] else []
  {
    forall k | 0 <= k < |qs| ensures OwnKids(r.nodes, r.kids, qs[k]) {
      OwnChildren(r, qs[k]);
    }
    FlattenGroups(r.nodes, r.kids, qs, p);
  }

  lemma OwnChildren(r: Rep, q: int)
    requires Consistent(r) && Live(r.nodes, q)
    ensures OwnKids(r.nodes, r.kids, q)
  {
    forall k | 0 <= k < |r.kids[q]| ensures Live(r.nodes, r.kids[q][k]) && r.nodes[r.kids[q][k]].parent == q {
      Listed(r.nodes, r.kids, {}, q, r.kids[q][k]);
    }
  }

  /** The queue of the walk: the root and every directory listed so far. */
  lemma {:induction false} QueueFacts(r: Rep, out: seq<int>)
    requires Consistent(r) && Distinct(out) && forall k :: 0 <= k < |out| ==> Live(r.nodes, out[k]) && out[k] != 0
    ensures Distinct([0] + Dirs(r.nodes, out))
    ensures forall k :: 0 <= k < |[0] + Dirs(r.nodes, out)| ==> Live(r.nodes, ([0] + Dirs(r.nodes, out))[k])
    ensures |[0] + Dirs(r.nodes, out)| <= |r.nodes|
  {
    var qs := [0] + Dirs(r.nodes, out);
    DirsFacts(r.nodes, out);
    forall k | 0 <= k < |qs| ensures Live(r.nodes, qs[k]) {
      assert k > 0 ==> qs[k] in Dirs(r.nodes, out);
    }
    assert 0 !in Dirs(r.nodes, out);
    Pigeonhole(qs, |r.nodes|);
  }

  /** Listing the next directory's children lists nothing twice. */
  lemma NextList(r: Rep, qs: seq<int>, qi: nat, out: seq<int>)
    requires Consistent(r) && qi < |qs| && Distinct(qs) && Live(r.nodes, qs[qi])
    requires out == Flatten(r.kids, qs[..qi]) && Distinct(out)
    ensures Distinct(out + r.kids[qs[qi]])
    ensures out + r.kids[qs[qi]] == Flatten(r.kids, qs[..qi + 1])
  {
    var q := qs[qi];
    assert qs[..qi + 1][..qi] == qs[..qi];
    assert SlotOk(r.nodes, r.kids, q);
    forall k | 0 <= k < |r.kids[q]| ensures r.kids[q][k] !in out {
      Listed(r.nodes, r.kids, {}, q, r.kids[q][k]);
      if r.kids[q][k] in out {
        FlattenParents(r, qs[..qi], r.kids[q][k]);
      }
    }
  }

  /** When the queue is exhausted, every node has been listed. */
  lemma {:induction false} WalkComplete(r: Rep, out: seq<int>, i: int)
    requires Consistent(r) && Live(r.nodes, i) && i != 0
    requires out == Flatten(r.kids, [0] + Dirs(r.nodes, out))
    ensures i in out
    decreases |r.paths[i]|
  {
    assert PathStep(r.nodes, r.paths, i, NIL);
    assert AttachedAt(r.nodes, r.kids, i);
    var p := r.nodes[i].parent;
    var qs := [0] + Dirs(r.nodes, out);
    if p != 0 {
      WalkComplete(r, out, p);
      assert SlotOk(r.nodes, r.kids, p);
      DirsFacts(r.nodes, out);
      assert p in Dirs(r.nodes, out);
    }
    assert p in qs by {
      assert p == 0 ==> qs[0] == p;
    }
    FlattenCovers(r.kids, qs, p, i);
  }

  lemma {:induction false} WalkExports(r: Rep, es: seq<SnapshotEntry>, out: seq<int>)
    requires Consistent(r) && Entries(r.nodes, es, out)
    requires out == Flatten(r.kids, [0] + Dirs(r.nodes, out))
    ensures Exports(r, es, out)
  {
    forall k | 0 <= k < |out| ensures Live(r.nodes, out[k]) && out[k] != 0 {
      assert EntryFor(r.nodes, es, out, k);
    }
    QueueFacts(r, out);
    forall i | Live(r.nodes, i) && i != 0 ensures i in out {
      WalkComplete(r, out, i);
    }
    var qs := [0] + Dirs(r.nodes, out);
    forall p | Live(r.nodes, p) ensures ChildrenIn(r.nodes, out, p) == r.kids[p] {
      FlattenOrder(r, qs, p);
      if p !in qs {
        DirsFacts(r.nodes, out);
        assert SlotOk(r.nodes, r.kids, p);
        assert p != 0 by { assert qs[0] == 0; }
        WalkComplete(r, out, p);
        assert forall x :: x in Dirs(r.nodes, out) ==> x in qs;
      }
    }
  }

  /** Queue slot `j`: a node and the index of its own entry. */
  ghost predicate QueuedAt(queue: seq<(int, nat)>, ids: seq<int>, out: seq<int>, j: int)
    requires 0 <= j < |queue| == |ids|
  {
    && queue[j].0 == ids[j] && EntryIndex(out, ids[j], queue[j].1)
  }

  ghost predicate EntryIndex(out: seq<int>, id: int, idx: nat) {
    if idx == 0 then id == 0 else idx <= |out| && out[idx - 1] == id
  }

  ghost predicate Queued(queue: seq<(int, nat)>, ids: seq<int>, out: seq<int>) {
    && |queue| == |ids|
    && forall j {:trigger QueuedAt(queue, ids, out, j)} :: 0 <= j < |queue| ==> QueuedAt(queue, ids, out, j)
  }

  lemma ListedLive(nodes: seq<Node>, es: seq<SnapshotEntry>, out: seq<int>)
    requires Entries(nodes, es, out)
    ensures forall k :: 0 <= k < |out| ==> Live(nodes, out[k]) && out[k] != 0
  {
    forall k | 0 <= k < |out| ensures Live(nodes, out[k]) && out[k] != 0 {
      assert EntryFor(nodes, es, out, k);
    }
  }

  /** Emitting one more child keeps the entries right. */
  lemma EmitEntry(nodes: seq<Node>, es: seq<SnapshotEntry>, out: seq<int>, c: int, idx: nat)
    requires Entries(nodes, es, out) && Live(nodes, c) && c != 0 && c !in out && EntryIndex(out, nodes[c].parent, idx)
    ensures Entries(nodes, es + [SnapshotEntry(idx, nodes[c].name.value, nodes[c].attr)], out + [c])
  {
    var es', out' := es + [SnapshotEntry(idx, nodes[c].name.value, nodes[c].attr)], out + [c];
    forall k | 0 <= k < |es'| ensures EntryFor(nodes, es', out', k) {
      if k < |es| {
        assert EntryFor(nodes, es, out, k);
      }
    }
  }

  /** Emitting a child leaves every queued index meaning what it meant. */
  lemma EmitQueued(queue: seq<(int, nat)>, ids: seq<int>, out: seq<int>, c: int)
    requires Queued(queue, ids, out)
    ensures Queued(queue, ids, out + [c])
    ensures Queued(queue + [(c, |out| + 1)], ids + [c], out + [c])
  {
    var queue', ids', out' := queue + [(c, |out| + 1)], ids + [c], out + [c];
    forall j | 0 <= j < |queue| ensures QueuedAt(queue, ids, out', j) && QueuedAt(queue', ids', out', j) {
      assert QueuedAt(queue, ids, out, j);
    }
    forall j | 0 <= j < |queue'| ensures QueuedAt(queue', ids', out', j) {
    }
  }

  /** What one turn of the walk may rely on about the next queued directory. */
  lemma {:induction false} ExportTurn(r: Rep, es: seq<SnapshotEntry>, out: seq<int>, queue: seq<(int, nat)>, ids: seq<int>, qi: nat)
    requires Consistent(r) && Entries(r.nodes, es, out) && Queued(queue, ids, out) && qi < |queue|
    requires ids == [0] + Dirs(r.nodes, out) && out == Flatten(r.kids, ids[..qi])
    ensures var id, idx := queue[qi].0, queue[qi].1;
            && Live(r.nodes, id) && Distinct(out + r.kids[id])
            && out + r.kids[id] == Flatten(r.kids, ids[..qi + 1])
            && forall k :: 0 <= k < |r.kids[id]| ==>
                 var c := r.kids[id][k]; Live(r.nodes, c) && c != 0 && EntryIndex(out, r.nodes[c].parent, idx)
    ensures |ids| <= |r.nodes|
  {
    ListedLive(r.nodes, es, out);
    QueueFacts(r, out);
    assert QueuedAt(queue, ids, out, qi);
    var id := queue[qi].0;
    NextList(r, ids, qi, out);
    forall k | 0 <= k < |r.kids[id]|
      ensures var c := r.kids[id][k]; Live(r.nodes, c) && c != 0 && r.nodes[c].parent == id
    {
      Listed(r.nodes, r.kids, {}, id, r.kids[id][k]);
    }
  }

  lemma {:induction false} DirsSnoc(nodes: seq<Node>, out: seq<int>, c: int)
    ensures Dirs(nodes, out + [c]) == Dirs(nodes, out) + (if IsDir(nodes, c) then [c] else [])
  {
    assert (out + [c])[..|out|] == out;
  }

  // --- the round trip -----------------------------------------------------------

  /** The nodes loaded after `k` entries: the root and the first `k` listed. */
  predicate Loadable(out: seq<int>, k: nat, i: int)
    requires k <= |out|
  {
    i == 0 || i in out[..k]
  }

  ghost predicate PlacedEntry(r: Rep, out: seq<int>, l: Loaded, j: int)
    requires 0 <= j < |l.places| && j <= |out|
  {
    var i := if j == 0 then 0 else out[j - 1];
    0 <= i < |r.paths| && l.places[j] == Some(r.paths[i])
  }

  ghost predicate ViewEntry(r: Rep, out: seq<int>, k: nat, l: Loaded, q: Location)
    requires k <= |out|
  {
    && (q in l.view <==> q in r.at && Loadable(out, k, r.at[q]))
    && (q in l.order <==> q in l.view)
    && (q in l.view ==> l.view[q] == if q == [] then IMPLICIT_DIRECTORY else AttrAt(r, q))
    && (q in l.view ==> l.order[q] == NamesOf(r.nodes, ChildrenIn(r.nodes, out[..k], r.at[q])))
  }

  /** What loading the first `k` entries of an export has built. */
  ghost predicate LoadedTo(r: Rep, out: seq<int>, k: nat, l: Loaded)
    requires k <= |out|
  {
    && |l.places| == k + 1
    && (forall j {:trigger PlacedEntry(r, out, l, j)} :: 0 <= j <= k ==> PlacedEntry(r, out, l, j))
    && (forall q {:trigger ViewEntry(r, out, k, l, q)} :: ViewEntry(r, out, k, l, q))
  }

  /** The next entry of an export finds its parent loaded. */
  lemma NextParent(r: Rep, es: seq<SnapshotEntry>, out: seq<int>, k: nat, l: Loaded)
    requires Consistent(r) && Entries(r.nodes, es, out) && k < |out| && LoadedTo(r, out, k, l)
    ensures es[k].parent <= k && Live(r.nodes, out[k]) && out[k] != 0
    ensures var p := r.nodes[out[k]].parent;
            Live(r.nodes, p) && l.places[es[k].parent] == Some(r.paths[p]) && Loadable(out, k, p)
  {
    var c := out[k];
    assert EntryFor(r.nodes, es, out, k);
    assert PathStep(r.nodes, r.paths, c, NIL);
    var p := r.nodes[c].parent;
    assert PlacedEntry(r, out, l, es[k].parent);
    assert es[k].parent > 0 ==> out[..k][es[k].parent - 1] == p;
  }

  /** ... and is always accepted. */
  lemma NextAccepted(r: Rep, es: seq<SnapshotEntry>, out: seq<int>, k: nat, l: Loaded)
    requires Consistent(r) && Entries(r.nodes, es, out) && k < |out| && LoadedTo(r, out, k, l)
    ensures es[k].parent <= k && Live(r.nodes, out[k]) && out[k] != 0
    ensures PlaceOf(l, es[k]) == Some(r.paths[out[k]])
    ensures var p := r.nodes[out[k]].parent;
            Live(r.nodes, p) && l.places[es[k].parent] == Some(r.paths[p]) && Loadable(out, k, p)
  {
    NextParent(r, es, out, k, l);
    var c := out[k];
    var p := r.nodes[c].parent;
    assert EntryFor(r.nodes, es, out, k);
    assert PathStep(r.nodes, r.paths, c, NIL);
    assert AttachedAt(r.nodes, r.kids, c) && SlotOk(r.nodes, r.kids, p);
    assert PathEntry(r.paths, r.at, p) && PathEntry(r.paths, r.at, c);
    assert ViewEntry(r, out, k, l, r.paths[p]);
    assert ViewEntry(r, out, k, l, r.paths[c]);
    assert NameEntry(r.nodes, c);
    assert c !in out[..k];
  }

  /** A node is listed before its children. */
  lemma {:induction false} NoChildrenYet(nodes: seq<Node>, es: seq<SnapshotEntry>, out: seq<int>, k: nat, n: nat)
    requires Entries(nodes, es, out) && k < |out| && n <= k + 1 && Live(nodes, out[k]) && out[k] != 0
    ensures ChildrenIn(nodes, out[..n], out[k]) == []
    decreases n
  {
    if n > 0 {
      NoChildrenYet(nodes, es, out, k, n - 1);
      assert out[..n][..n - 1] == out[..n - 1] && out[..n][n - 1] == out[n - 1];
      assert EntryFor(nodes, es, out, n - 1);
      assert es[n - 1].parent <= n - 1 <= k;
    }
  }

  lemma {:induction false} ListedNext(nodes: seq<Node>, out: seq<int>, k: nat, p: int)
    requires k < |out| && Live(nodes, out[k])
    ensures ChildrenIn(nodes, out[..k + 1], p)
            == if nodes[out[k]].parent == p then ChildrenIn(nodes, out[..k], p) + [out[k]] else ChildrenIn(nodes, out[..k], p)
  {
    assert out[..k + 1][..k] == out[..k] && out[..k + 1][k] == out[k];
  }

  lemma {:induction false} NamesSnoc(nodes: seq<Node>, ks: seq<int>, c: int)
    requires Live(nodes, c)
    ensures NamesOf(nodes, ks + [c]) == NamesOf(nodes, ks) + [nodes[c].name.value]
  {
    assert (ks + [c])[..|ks|] == ks;
  }

  /** What an accepted entry does to the lists of names. */
  lemma LoadNextOrder(r: Rep, es: seq<SnapshotEntry>, out: seq<int>, k: nat, l: Loaded, q: Location)
    requires Consistent(r) && Entries(r.nodes, es, out) && k < |out| && Live(r.nodes, out[k]) && out[k] != 0
    requires q in r.at && ViewEntry(r, out, k, l, q) && r.nodes[out[k]].name == Some(es[k].name)
    ensures var before, c := ChildrenIn(r.nodes, out[..k], r.at[q]), out[k];
            var now := NamesOf(r.nodes, ChildrenIn(r.nodes, out[..k + 1], r.at[q]));
            && (r.nodes[c].parent == r.at[q] ==> now == NamesOf(r.nodes, before) + [es[k].name])
            && (r.nodes[c].parent != r.at[q] ==> now == NamesOf(r.nodes, before))
            && (r.at[q] == c ==> now == [])
  {
    ListedNext(r.nodes, out, k, r.at[q]);
    NamesSnoc(r.nodes, ChildrenIn(r.nodes, out[..k], r.at[q]), out[k]);
    if r.at[q] == out[k] {
      NoChildrenYet(r.nodes, es, out, k, k + 1);
    }
  }

  /** What an accepted entry does to the tree under construction. */
  lemma LoadedOne(l: Loaded, e: SnapshotEntry, above: Location, q: Location)
    requires e.parent < |l.places| && l.places[e.parent] == Some(above) && PlaceOf(l, e).Some? && above in l.order
    ensures var at, l' := above + [e.name], LoadOne(l, e);
            && (q in l'.view <==> q in l.view || q == at)
            && (q in l'.order <==> q in l.order || q == at)
            && (q in l'.view ==> l'.view[q] == if q == at then e.attr else l.view[q])
            && (q in l'.order ==> l'.order[q] == if q == at then [] else if q == above then l.order[q] + [e.name] else l.order[q])
  {
  }

  lemma NextNode(r: Rep, es: seq<SnapshotEntry>, out: seq<int>, k: nat, q: Location)
    requires Consistent(r) && Entries(r.nodes, es, out) && k < |out| && Live(r.nodes, out[k]) && out[k] != 0
    ensures var c := out[k];
            var p := r.nodes[c].parent;
            && Live(r.nodes, p) && r.paths[p] in r.at && r.paths[c] == r.paths[p] + [es[k].name]
            && r.nodes[c].name == Some(es[k].name) && r.nodes[c].attr == es[k].attr
            && (q in r.at ==> (r.at[q] == c <==> q == r.paths[c]) && (r.at[q] == p <==> q == r.paths[p]))
            && r.paths[c] in r.at && r.at[r.paths[c]] == c && AttrAt(r, r.paths[c]) == es[k].attr
  {
    var c := out[k];
    var p := r.nodes[c].parent;
    assert EntryFor(r.nodes, es, out, k);
    assert PathStep(r.nodes, r.paths, c, NIL);
    assert PathEntry(r.paths, r.at, c) && PathEntry(r.paths, r.at, p);
    if q in r.at {
      assert AtEntry(r.nodes, r.paths, r.at, q);
    }
  }

  lemma LoadNextEntry(r: Rep, es: seq<SnapshotEntry>, out: seq<int>, k: nat, l: Loaded, q: Location)
    requires Consistent(r) && Entries(r.nodes, es, out) && k < |out| && LoadedTo(r, out, k, l) && es[k].parent < |l.places|
    ensures ViewEntry(r, out, k + 1, LoadOne(l, es[k]), q)
  {
    NextAccepted(r, es, out, k, l);
    NextNode(r, es, out, k, q);
    var above := r.paths[r.nodes[out[k]].parent];
    assert ViewEntry(r, out, k, l, q) && ViewEntry(r, out, k, l, above);
    LoadedOne(l, es[k], above, q);
    assert out[..k + 1] == out[..k] + [out[k]];
    if q in r.at {
      LoadNextOrder(r, es, out, k, l, q);
    }
  }

  lemma LoadNext(r: Rep, es: seq<SnapshotEntry>, out: seq<int>, k: nat, l: Loaded)
    requires Consistent(r) && Entries(r.nodes, es, out) && k < |out| && LoadedTo(r, out, k, l)
    ensures es[k].parent < |l.places| && LoadedTo(r, out, k + 1, LoadOne(l, es[k]))
    ensures PlaceOf(l, es[k]).Some?
  {
    NextAccepted(r, es, out, k, l);
    var l' := LoadOne(l, es[k]);
    forall j | 0 <= j <= k + 1 ensures PlacedEntry(r, out, l', j) {
      if j <= k {
        assert PlacedEntry(r, out, l, j);
      }
    }
    var k' := k + 1;
    forall q ensures ViewEntry(r, out, k', l', q) {
      LoadNextEntry(r, es, out, k, l, q);
    }
  }

  lemma {:induction false} LoadPrefix(r: Rep, es: seq<SnapshotEntry>, out: seq<int>, k: nat)
    requires Consistent(r) && Entries(r.nodes, es, out) && k <= |out|
    ensures ParentsPrecede(es[..k]) && LoadedTo(r, out, k, Load(es[..k])) && Missing(Load(es[..k]).places) == 0
    decreases k
  {
    if k == 0 {
      assert es[..0] == [];
      MissingEmpty();
      assert PathEntry(r.paths, r.at, 0);
      forall q ensures ViewEntry(r, out, 0, EMPTY_TREE, q) {
        if q in r.at {
          assert AtEntry(r.nodes, r.paths, r.at, q);
        }
        assert out[..0] == [];
      }
      assert PlacedEntry(r, out, EMPTY_TREE, 0);
    } else {
      LoadPrefix(r, es, out, k - 1);
      var l := Load(es[..k - 1]);
      LoadNext(r, es, out, k - 1, l);
      PrecedeSnoc(es, k - 1);
      LocatedSnoc(l.places, PlaceOf(l, es[k - 1]));
    }
  }

  /** Once everything is loaded, path by path. */
  lemma LoadedAt(r: Rep, es: seq<SnapshotEntry>, out: seq<int>, l: Loaded, q: Location)
    requires Consistent(r) && Exports(r, es, out) && ViewEntry(r, out, |out|, l, q)
    ensures q in l.view <==> q in r.at
    ensures q in l.order <==> q in r.at
    ensures q in r.at ==> l.order[q] == OrderAt(r, q)
    ensures q in r.at ==> l.view[q] == if q == [] then IMPLICIT_DIRECTORY else AttrAt(r, q)
  {
    assert out[..|out|] == out;
    if q in r.at {
      assert AtEntry(r.nodes, r.paths, r.at, q);
    }
  }

  /**
   * Loading the export of a tree rebuilds every path, attribute and child order
   * below the root, and drops nothing.
   */
  lemma {:induction false} SnapshotRoundTrip(r: Rep, es: seq<SnapshotEntry>, out: seq<int>)
    requires Consistent(r) && Exports(r, es, out)
    ensures ParentsPrecede(es)
    ensures Load(es).view == View(r)[[] := IMPLICIT_DIRECTORY]
    ensures Load(es).order == Order(r)
    ensures Missing(Load(es).places) == 0
  {
    var n := |out|;
    LoadPrefix(r, es, out, n);
    assert es[..n] == es;
    ViewRebuilt(r, es, out, Load(es));
    OrderRebuilt(r, es, out, Load(es));
  }

  lemma ViewRebuilt(r: Rep, es: seq<SnapshotEntry>, out: seq<int>, l: Loaded)
    requires Consistent(r) && Exports(r, es, out) && LoadedTo(r, out, |out|, l)
    ensures l.view == View(r)[[] := IMPLICIT_DIRECTORY]
  {
    var want := View(r)[[] := IMPLICIT_DIRECTORY];
    assert PathEntry(r.paths, r.at, 0);
    forall q ensures (q in l.view <==> q in want) && (q in want ==> l.view[q] == want[q]) {
      assert ViewEntry(r, out, |out|, l, q);
      LoadedAt(r, es, out, l, q);
    }
  }

  lemma OrderRebuilt(r: Rep, es: seq<SnapshotEntry>, out: seq<int>, l: Loaded)
    requires Consistent(r) && Exports(r, es, out) && LoadedTo(r, out, |out|, l)
    ensures l.order == Order(r)
  {
    forall q ensures (q in l.order <==> q in Order(r)) && (q in Order(r) ==> l.order[q] == Order(r)[q]) {
      assert ViewEntry(r, out, |out|, l, q);
      LoadedAt(r, es, out, l, q);
    }
  }
}
