/** Snapshots: what loading an entry list builds, and what an export of a tree lists. */
module TreeSnapshot {
  import opened Types
  import opened PathMap
  import opened TreeModel
  import opened TreeIndex
  import opened TreeOps
  import Path

  /** `parent` is 0 for the root and k for the k-th entry of the same list. */
  datatype SnapshotEntry = SnapshotEntry(parent: nat, name: Name, attr: Attributes)

  /** A tree as values: attributes and child order by path, plus where each entry went. */
  datatype Loaded = Loaded(view: Mirror, order: map<Location, seq<Name>>, places: seq<Option<Location>>)

  const EMPTY_TREE := Loaded(map[[] := IMPLICIT_DIRECTORY], map[[] := []], [Some([])])

  /** Every entry's parent precedes it. */
  predicate ParentsPrecede(es: seq<SnapshotEntry>) {
    forall k :: 0 <= k < |es| ==> es[k].parent <= k
  }

  /** The path an entry takes, or None when it or an ancestor cannot be represented. */
  function PlaceOf(l: Loaded, e: SnapshotEntry): Option<Location>
    requires e.parent < |l.places|
  {
    if l.places[e.parent].None? then None
    else
      var p := l.places[e.parent].value;
      if IsDirectory(l.view, p) && Path.ValidName(e.name) && p + [e.name] !in l.view then Some(p + [e.name]) else None
  }

  function LoadOne(l: Loaded, e: SnapshotEntry): Loaded
    requires e.parent < |l.places|
  {
    var place := PlaceOf(l, e);
    if place.None? then l.(places := l.places + [None])
    else
      var p := l.places[e.parent].value;
      Loaded(l.view[place.value := e.attr],
             l.order[p := (if p in l.order then l.order[p] else []) + [e.name]][place.value := []],
             l.places + [place])
  }

  /** Entry by entry, each one appended below its parent or dropped. */
  function Load(es: seq<SnapshotEntry>): (l: Loaded)
    requires ParentsPrecede(es)
    ensures |l.places| == |es| + 1
  {
    if es == [] then EMPTY_TREE
    else LoadOne(Load(es[..|es| - 1]), es[|es| - 1])
  }

  /** `l` is what the first `k` entries load. */
  ghost predicate LoadedFirst(es: seq<SnapshotEntry>, k: nat, l: Loaded) {
    k <= |es| && ParentsPrecede(es[..k]) && l == Load(es[..k])
  }

  lemma LoadedNext(es: seq<SnapshotEntry>, k: nat, l: Loaded)
    requires LoadedFirst(es, k, l) && k < |es| && es[k].parent <= k
    ensures es[k].parent < |l.places| && LoadedFirst(es, k + 1, LoadOne(l, es[k]))
  {
    PrecedeSnoc(es, k);
  }

  function Missing(places: seq<Option<Location>>): nat {
    if places == [] then 0
    else Missing(places[..|places| - 1]) + if places[|places| - 1].None? then 1 else 0
  }

  function Located(places: seq<Option<Location>>): set<Location> {
    set k | 0 <= k < |places| && places[k].Some? :: places[k].value
  }

  lemma {:induction false} LocatedSnoc(places: seq<Option<Location>>, x: Option<Location>)
    ensures Located(places + [x]) == Located(places) + (if x.Some? then {x.value} else {})
    ensures Missing(places + [x]) == Missing(places) + (if x.None? then 1 else 0)
  {
    var all := places + [x];
    assert all[..|places|] == places;
    assert all[|places|] == x && forall k :: 0 <= k < |places| ==> all[k] == places[k];
  }

  lemma LoadOnePaths(l: Loaded, e: SnapshotEntry)
    requires e.parent < |l.places| && l.view.Keys == l.order.Keys == Located(l.places)
    ensures var l' := LoadOne(l, e);
            && l'.view.Keys == l'.order.Keys == Located(l'.places)
            && |l'.view| + Missing(l'.places) == |l.view| + Missing(l.places) + 1
  {
    var place := PlaceOf(l, e);
    LocatedSnoc(l.places, place);
    if place.Some? {
      var p := l.places[e.parent].value;
      assert p in Located(l.places);
    }
  }

  /** The loaded paths are exactly the places given out, and every other entry was dropped. */
  lemma {:induction false} LoadedPaths(es: seq<SnapshotEntry>)
    requires ParentsPrecede(es)
    ensures Load(es).view.Keys == Load(es).order.Keys == Located(Load(es).places)
    ensures |Load(es).view| + Missing(Load(es).places) == |es| + 1
  {
    if es == [] {
      LocatedSnoc([], Some([]));
      assert [] + [Some([])] == EMPTY_TREE.places;
    } else {
      var n := |es| - 1;
      LoadedPaths(es[..n]);
      LoadOnePaths(Load(es[..n]), es[n]);
    }
  }

  // --- the tree as ordered values ---------------------------------------------

  ghost function NamesOf(nodes: seq<Node>, ks: seq<int>): seq<Name> {
    if ks == [] then []
    else NamesOf(nodes, ks[..|ks| - 1]) + [if Live(nodes, ks[|ks| - 1]) then nodes[ks[|ks| - 1]].name.value else []]
  }

  /** Child names in sibling order, by path. */
  ghost function Order(r: Rep): map<Location, seq<Name>> {
    map q | q in r.at :: OrderAt(r, q)
  }

  ghost function OrderAt(r: Rep, q: Location): seq<Name>
    requires q in r.at
  {
    if 0 <= r.at[q] < |r.kids| then NamesOf(r.nodes, r.kids[r.at[q]]) else []
  }

  lemma {:induction false} NamesFrom(nodes: seq<Node>, nodes': seq<Node>, ks: seq<int>)
    requires forall k :: 0 <= k < |ks| ==> Live(nodes, ks[k]) && Live(nodes', ks[k]) && nodes'[ks[k]].name == nodes[ks[k]].name
    ensures NamesOf(nodes', ks) == NamesOf(nodes, ks)
  {
    if ks != [] {
      NamesFrom(nodes, nodes', ks[..|ks| - 1]);
    }
  }

  lemma InsertOrderAt(r: Rep, r': Rep, p: int, id: int, name: Name, x: Location)
    requires Consistent(r) && Live(r.nodes, p) && 0 <= id <= |r.kids| && !Live(r.nodes, id)
    requires r'.at == r.at[r.paths[p] + [name] := id] && r.paths[p] + [name] !in r.at
    requires r'.kids == Append(r.kids, id, [])[p := r.kids[p] + [id]]
    requires forall i :: Live(r.nodes, i) ==> Kept(r.nodes, r'.nodes, r.paths, r'.paths, i)
    requires Live(r'.nodes, id) && r'.nodes[id].name == Some(name) && x in r.at
    ensures OrderAt(r', x) == if x == r.paths[p] then OrderAt(r, x) + [name] else OrderAt(r, x)
  {
    assert AtEntry(r.nodes, r.paths, r.at, x) && PathEntry(r.paths, r.at, p);
    var i := r.at[x];
    var ks := r.kids[i];
    forall k | 0 <= k < |ks| ensures Live(r.nodes, ks[k]) && Kept(r.nodes, r'.nodes, r.paths, r'.paths, ks[k]) {
      Listed(r.nodes, r.kids, {}, i, ks[k]);
    }
    NamesFrom(r.nodes, r'.nodes, ks);
    assert (ks + [id])[..|ks|] == ks;
  }

  lemma OrderAfter(o: map<Location, seq<Name>>, o': map<Location, seq<Name>>, p: Location, q: Location, name: Name)
    requires p in o && q !in o && o'.Keys == o.Keys + {q} && o'[q] == []
    requires forall x :: x in o ==> o'[x] == if x == p then o[x] + [name] else o[x]
    ensures o' == o[p := o[p] + [name]][q := []]
  {
  }

  /** A node's name is the last component of its path. */
  lemma LastName(r: Rep, q: Location)
    requires Consistent(r) && q in r.at && q != []
    ensures Live(r.nodes, r.at[q]) && r.nodes[r.at[q]].name == Some(q[|q| - 1])
  {
    assert AtEntry(r.nodes, r.paths, r.at, q);
    assert PathStep(r.nodes, r.paths, r.at[q], NIL);
  }

  /** insert appends the new name to its parent's order and changes no other. */
  lemma InsertOrder(r: Rep, r': Rep, p: int, id: int, name: Name)
    requires Consistent(r) && Consistent(r') && Live(r.nodes, p) && 0 <= id <= |r.kids| && !Live(r.nodes, id)
    requires r'.at == r.at[r.paths[p] + [name] := id] && r.paths[p] + [name] !in r.at
    requires r'.kids == Append(r.kids, id, [])[p := r.kids[p] + [id]]
    requires forall i :: Live(r.nodes, i) ==> Kept(r.nodes, r'.nodes, r.paths, r'.paths, i)
    ensures r.paths[p] in r.at
    ensures Order(r') == Order(r)[r.paths[p] := Order(r)[r.paths[p]] + [name]][r.paths[p] + [name] := []]
  {
    var q := r.paths[p] + [name];
    assert PathEntry(r.paths, r.at, p);
    LastName(r', q);
    var o, o' := Order(r), Order(r');
    forall x | x in o ensures o'[x] == if x == r.paths[p] then o[x] + [name] else o[x] {
      InsertOrderAt(r, r', p, id, name, x);
    }
    assert o'[q] == [];
    assert o'.Keys == o.Keys + {q};
    OrderAfter(o, o', r.paths[p], q, name);
  }

  // --- loading ----------------------------------------------------------------

  ghost predicate IdAt(r: Rep, ids: seq<int>, l: Loaded, k: int)
    requires 0 <= k < |ids| == |l.places|
  {
    match l.places[k]
    case None => ids[k] == NIL
    case Some(q) => Live(r.nodes, ids[k]) && ids[k] < |r.paths| && r.paths[ids[k]] == q
  }

  /** The tree holds what `l` describes and `ids` names the node of every entry kept. */
  ghost predicate Holds(r: Rep, ids: seq<int>, l: Loaded) {
    && View(r) == l.view && Order(r) == l.order && |ids| == |l.places|
    && forall k {:trigger IdAt(r, ids, l, k)} :: 0 <= k < |ids| ==> IdAt(r, ids, l, k)
  }

  lemma HoldsSkip(r: Rep, ids: seq<int>, l: Loaded)
    requires Holds(r, ids, l)
    ensures Holds(r, ids + [NIL], l.(places := l.places + [None]))
  {
    var ids', l' := ids + [NIL], l.(places := l.places + [None]);
    forall k | 0 <= k < |ids'| ensures IdAt(r, ids', l', k) {
      assert k < |ids| ==> IdAt(r, ids, l, k);
    }
  }

  /** An entry is kept exactly when insert accepts it. */
  lemma PlaceMatches(r: Rep, ids: seq<int>, l: Loaded, e: SnapshotEntry)
    requires Consistent(r) && Holds(r, ids, l) && e.parent < |ids|
    ensures ids[e.parent] == NIL ==> PlaceOf(l, e).None?
    ensures ids[e.parent] != NIL ==>
              && Live(r.nodes, ids[e.parent])
              && PlaceOf(l, e) == if r.nodes[ids[e.parent]].attr.kind.Directory? && Path.ValidName(e.name)
                                     && r.paths[ids[e.parent]] + [e.name] !in View(r)
                                  then Some(r.paths[ids[e.parent]] + [e.name]) else None
  {
    assert IdAt(r, ids, l, e.parent);
    if ids[e.parent] != NIL {
      assert PathEntry(r.paths, r.at, ids[e.parent]);
      assert View(r)[r.paths[ids[e.parent]]] == AttrAt(r, r.paths[ids[e.parent]]);
    }
  }

  lemma HoldsInsert(r: Rep, r': Rep, ids: seq<int>, l: Loaded, e: SnapshotEntry, id: int)
    requires Consistent(r) && Consistent(r') && Holds(r, ids, l) && e.parent < |ids|
    requires Live(r.nodes, ids[e.parent]) && PlaceOf(l, e).Some?
    requires var p := ids[e.parent];
             && 0 <= id <= |r.kids| && !Live(r.nodes, id)
             && View(r') == View(r)[r.paths[p] + [e.name] := e.attr]
             && r'.at == r.at[r.paths[p] + [e.name] := id]
             && r'.kids == Append(r.kids, id, [])[p := r.kids[p] + [id]]
    requires forall i :: Live(r.nodes, i) ==> Kept(r.nodes, r'.nodes, r.paths, r'.paths, i)
    ensures Holds(r', ids + [id], LoadOne(l, e))
  {
    var p, l', ids' := ids[e.parent], LoadOne(l, e), ids + [id];
    PlaceMatches(r, ids, l, e);
    assert IdAt(r, ids, l, e.parent);
    InsertOrder(r, r', p, id, e.name);
    assert AtEntry(r'.nodes, r'.paths, r'.at, r.paths[p] + [e.name]);
    forall k | 0 <= k < |ids'| ensures IdAt(r', ids', l', k) {
      if k < |ids| {
        assert IdAt(r, ids, l, k);
        assert ids[k] != NIL ==> Kept(r.nodes, r'.nodes, r.paths, r'.paths, ids[k]);
      }
    }
  }

  lemma MissingEmpty()
    ensures Missing(EMPTY_TREE.places) == 0
  {
    assert EMPTY_TREE.places[..0] == [];
  }

  lemma EmptyHolds(r: Rep)
    requires r.nodes == [BLANK.(name := Some([]), attr := IMPLICIT_DIRECTORY)] && r.kids == [[]] && r.paths == [[]]
    requires r.at == map[[] := 0] && r.exact == map[] && r.folded == map[] && r.free == []
    requires r.live == 1 && r.collisions == 0
    ensures Consistent(r) && Holds(r, [0], EMPTY_TREE)
  {
    assert SlotOk(r.nodes, r.kids, 0);
    assert AttrAt(r, []) == IMPLICIT_DIRECTORY && OrderAt(r, []) == [];
  }

  lemma PrecedeSnoc(es: seq<SnapshotEntry>, k: nat)
    requires k < |es| && ParentsPrecede(es[..k]) && es[k].parent <= k
    ensures ParentsPrecede(es[..k + 1]) && Load(es[..k + 1]) == LoadOne(Load(es[..k]), es[k])
  {
    var t := es[..k + 1];
    assert t[..k] == es[..k] && t[k] == es[k];
    forall j | 0 <= j < |t| ensures t[j].parent <= j {
      assert j < k ==> t[j] == es[..k][j];
    }
  }
}
