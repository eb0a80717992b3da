/** The in-memory directory tree: an index-linked node vector with two child indexes. */
module MetadataTree {
  import opened Types
  import opened PathMap
  import opened TreeModel
  import opened TreeIndex
  import opened CaseFold
  import opened TreeOps
  import opened TreeSnapshot
  import opened TreeExport
  import Path

  datatype Error = NotFound | NotADirectory | InvalidPath | AlreadyExists | InvalidArgument | Corrupt

  datatype Result<+T> = Ok(value: T) | Err(error: Error)

  /**
   * Creating `cs` failed at component `k`: the directories before it are there now, it is the first that
   * is not a legal name or meets something that is no directory, and in the latter case nothing was made.
   */
  ghost predicate Halted(m: Mirror, m': Mirror, cs: seq<Name>, k: int, e: Error) {
    && 0 <= k < |cs| && m' == WithDirectories(m, cs[..k]) && Path.AllValid(cs[..k]) && (k > 0 ==> !Obstructed(m, cs[..k]))
    && ((e == InvalidPath && !Path.ValidName(cs[k])) || (e == NotADirectory && m' == m && Obstructed(m, cs[..k + 1])))
  }

  lemma HaltedSnoc(m: Mirror, m': Mirror, cs: seq<Name>, k: int, e: Error, c: Name)
    requires Halted(m, m', cs, k, e)
    ensures Halted(m, m', cs + [c], k, e)
  {
    assert (cs + [c])[..k] == cs[..k] && (cs + [c])[..k + 1] == cs[..k + 1];
  }

  lemma HaltedAt(m: Mirror, m': Mirror, cs: seq<Name>, k: nat, e: Error)
    requires k < |cs| && Halted(m, m', cs[..k + 1], k, e)
    ensures Halted(m, m', cs, k, e)
  {
    assert cs[..k + 1][..k] == cs[..k] && cs[..k + 1][..k + 1] == cs[..k + 1];
  }

  /** With legal names only, what stops the creation is an obstacle, and then nothing was made. */
  lemma HaltedBlocks(m: Mirror, m': Mirror, cs: seq<Name>, k: int, e: Error)
    requires Halted(m, m', cs, k, e) && Path.AllValid(cs)
    ensures m' == m && Obstructed(m, cs)
  {
    assert Path.ValidName(cs[k]);
    ObstructedPrefix(m, cs[..k + 1], cs);
  }

  /** A path that failed above its leaf, and what that means for legal names. */
  lemma HaltedAbove(m: Mirror, m': Mirror, front: seq<Name>, leaf: Name, k: int, e: Error, attr: Attributes)
    requires Halted(m, m', front, k, e)
    ensures Halted(m, m', front + [leaf], k, e)
    ensures Path.AllValid(front + [leaf]) ==> Blocked(m, front + [leaf]) && m' == Upserted(m, front + [leaf], attr)
  {
    HaltedSnoc(m, m', front, k, e, leaf);
    LastValid(front, leaf);
    ObstructedSnoc(m, front, leaf);
    if Path.AllValid(front) {
      HaltedBlocks(m, m', front, k, e);
    }
  }

  lemma LastValid(front: seq<Name>, leaf: Name)
    ensures Path.AllValid(front + [leaf]) <==> Path.AllValid(front) && Path.ValidName(leaf)
  {
    var cs := front + [leaf];
    assert cs[|front|] == leaf;
    assert forall k :: 0 <= k < |front| ==> cs[k] == front[k];
  }

  /** What has been ensured so far consists of legal names. */
  lemma EnsuredValid(m: Mirror, r: Rep, done: seq<Name>, cur: int)
    requires Consistent(r) && EnsuredTo(m, r, done, cur)
    ensures Path.AllValid(done)
  {
    PathPlain(r, cur);
  }

  /** The leaf is refused for its own name, or because the root is no directory. */
  lemma LeafHalted(m: Mirror, r: Rep, front: seq<Name>, leaf: Name, dir: int, e: Error)
    requires TreeClosed(m) && Consistent(r) && EnsuredTo(m, r, front, dir)
    requires if r.nodes[dir].attr.kind.Directory? then e == InvalidPath && !Path.ValidName(leaf) else e == NotADirectory
    ensures Halted(m, View(r), front + [leaf], |front|, e)
  {
    var cs := front + [leaf];
    assert cs[..|front|] == front && cs[..|front| + 1] == cs;
    EnsuredValid(m, r, front, dir);
    EnsuredFailure(m, r, front, dir, cs);
  }

  lemma TakeSnoc(cs: seq<Name>, k: nat)
    requires k < |cs|
    ensures cs[..k] + [cs[k]] == cs[..k + 1]
  {
  }

  class Tree {
    var nodes: seq<Node>
    var free: seq<int>
    var exact: map<Key, int>
    var folded: map<Key, int>
    var live: int
    var collisions: int
    var dropped: int

    /** The children of every slot in sibling order. */
    ghost var kids: seq<seq<int>>
    /** The path of every live slot, and its inverse. */
    ghost var paths: seq<Location>
    ghost var at: map<Location, int>

    ghost function Fields(): Rep
      reads this
    {
      Rep(nodes, free, exact, folded, live, collisions, kids, paths, at)
    }

    ghost predicate Valid()
      reads this
    {
      Consistent(Fields())
    }

    /** The abstract map this tree stands for. */
    ghost function Contents(): Mirror
      reads this
    {
      View(Fields())
    }

    constructor ()
      ensures Valid() && Contents() == map[[] := IMPLICIT_DIRECTORY] && kids == [[]] && dropped == 0
    {
      nodes := [BLANK.(name := Some([]), attr := IMPLICIT_DIRECTORY)];
      free, exact, folded, live, collisions, dropped := [], map[], map[], 1, 0, 0;
      kids, paths, at := [[]], [[]], map[[] := 0];
      new;
      assert SlotOk(nodes, kids, 0);
    }

    method LinkChild(parent: int, child: int)
      requires 0 <= parent < |nodes| && 0 <= child < |nodes| && parent != child
      requires nodes[parent].last == NIL || (0 <= nodes[parent].last < |nodes| && nodes[parent].last != child)
      modifies this`nodes
      ensures |nodes| == |old(nodes)|
      ensures LinkStep(old(nodes), nodes, parent, child)
    {
      var tail := nodes[parent].last;
      nodes := nodes[child := nodes[child].(parent := parent, next := NIL, prev := tail)];
      if tail != NIL {
        nodes := nodes[tail := nodes[tail].(next := child)];
      } else {
        nodes := nodes[parent := nodes[parent].(first := child)];
      }
      nodes := nodes[parent := nodes[parent].(last := child, count := nodes[parent].count + 1)];
    }

    method UnlinkChild(child: int)
      requires 0 <= child < |nodes|
      requires var n := nodes[child];
               && 0 <= n.parent < |nodes| && n.parent != child
               && (n.prev == NIL || (0 <= n.prev < |nodes| && n.prev != child))
               && (n.next == NIL || (0 <= n.next < |nodes| && n.next != child))
      requires |kids| == |nodes|
      modifies this`nodes, this`kids
      ensures |nodes| == |old(nodes)| && UnlinkStep(old(nodes), nodes, child)
      ensures Fields() == Unlinked(old(Fields()), nodes, child)
    {
      var c := nodes[child];
      if c.prev != NIL {
        nodes := nodes[c.prev := nodes[c.prev].(next := c.next)];
      } else {
        nodes := nodes[c.parent := nodes[c.parent].(first := c.next)];
      }
      if c.next != NIL {
        nodes := nodes[c.next := nodes[c.next].(prev := c.prev)];
      } else {
        nodes := nodes[c.parent := nodes[c.parent].(last := c.prev)];
      }
      nodes := nodes[c.parent := nodes[c.parent].(count := nodes[c.parent].count - 1)];
      nodes := nodes[child := nodes[child].(prev := NIL, next := NIL)];
      kids := kids[c.parent := Without(kids[c.parent], child)];
    }

    /** Enters a linked node into both indexes. */
    method IndexNode(id: int)
      requires Live(nodes, id)
      modifies this`exact, this`folded, this`collisions
      ensures exact == old(exact)[KeyOf(nodes, id) := id]
      ensures var fk := (nodes[id].parent, nodes[id].folded);
              && folded == (if fk in old(folded) then old(folded) else old(folded)[fk := id])
              && collisions == old(collisions) + (if fk in old(folded) then 1 else 0)
    {
      var n := nodes[id];
      exact := exact[(n.parent, n.name.value) := id];
      var fk := (n.parent, n.folded);
      if fk in folded {
        collisions := collisions + 1;
      } else {
        folded := folded[fk := id];
      }
    }

    /** The handover scan of unindex_node: the first other sibling with that folding. */
    method FindHeir(id: int, ghost det: set<int>) returns (heir: int)
      requires Shape(nodes, kids, det) && Live(nodes, id) && Live(nodes, nodes[id].parent)
      ensures heir == FirstFolded(nodes, Without(kids[nodes[id].parent], id), nodes[id].folded)
    {
      var p, f := nodes[id].parent, nodes[id].folded;
      ghost var ks := kids[p];
      assert SlotOk(nodes, kids, p);
      assert ks != [] ==> SiblingAt(nodes, p, ks, 0);
      assert ks[0..] == ks;
      var s := nodes[p].first;
      ghost var k := 0;
      while s != NIL
        invariant 0 <= k <= |ks| && (k == |ks| <==> s == NIL) && (k < |ks| ==> s == ks[k])
        invariant FirstFolded(nodes, Without(ks, id), f) == FirstFolded(nodes, Without(ks[k..], id), f)
        decreases |ks| - k
      {
        assert SiblingAt(nodes, p, ks, k);
        assert ks[k..][1..] == ks[k + 1..];
        assert k + 1 < |ks| ==> SiblingAt(nodes, p, ks, k + 1);
        if s != id && nodes[s].folded == f {
          return s;
        }
        if s == id {
          assert id !in ks[k + 1..];
          WithoutAbsent(ks[k + 1..], id);
        }
        s := nodes[s].next;
        k := k + 1;
      }
      return NIL;
    }

    /** Takes a node out of both indexes, handing its folded slot on if it owned it. */
    method UnindexNode(id: int, ghost det: set<int>, ghost order: seq<seq<int>>) returns (ghost order': seq<seq<int>>)
      requires Shape(nodes, kids, det) && Live(nodes, id) && id != 0 && Live(nodes, nodes[id].parent)
      requires Indexed(nodes, exact, NIL) && Folds(nodes, order, folded)
      requires id in order[nodes[id].parent] && Distinct(order[nodes[id].parent])
      requires Without(order[nodes[id].parent], id) == Without(kids[nodes[id].parent], id)
      requires collisions == |exact| - |folded|
      modifies this`exact, this`folded, this`collisions
      ensures exact == old(exact) - {KeyOf(nodes, id)} && Indexed(nodes, exact, id)
      ensures |exact| == |old(exact)| - 1
      ensures order' == order[nodes[id].parent := Without(order[nodes[id].parent], id)]
      ensures Folds(nodes, order', folded)
      ensures collisions == |exact| - |folded|
      ensures Fields() == old(Fields()).(exact := exact, folded := folded, collisions := collisions)
    {
      var n := nodes[id];
      ghost var p := n.parent;
      order' := order[p := Without(order[p], id)];
      ghost var heir := FirstFolded(nodes, order'[p], n.folded);
      UnindexSummary(nodes, order, order', exact, folded, id, heir);
      var fk := (n.parent, n.folded);
      if fk !in folded {
        assert false;
      }
      if folded[fk] != id {
        exact, collisions := exact - {(n.parent, n.name.value)}, collisions - 1;
        return;
      }
      if collisions == 0 {
        exact, folded := exact - {(n.parent, n.name.value)}, folded - {fk};
        return;
      }
      var s := FindHeir(id, det);
      if s == NIL {
        exact, folded := exact - {(n.parent, n.name.value)}, folded - {fk};
      } else {
        exact, folded, collisions := exact - {(n.parent, n.name.value)}, folded[fk := s], collisions - 1;
      }
    }

    /** Takes a slot off the free list, or appends one. */
    method AllocNode() returns (id: int)
      requires forall k :: 0 <= k < |free| ==> 0 <= free[k] < |nodes|
      modifies this`nodes, this`free
      ensures Taken(old(nodes), old(free), free, id)
      ensures 0 <= id <= |old(nodes)| && nodes == Append(old(nodes), id, BLANK)
    {
      if |free| > 0 {
        id := free[|free| - 1];
        free := free[..|free| - 1];
        nodes := nodes[id := BLANK];
      } else {
        nodes := nodes + [BLANK];
        id := |nodes| - 1;
      }
    }

    /** The part of insert that runs once every check has passed. */
    method AddNode(parent: int, name: Name, fold: Name, attr: Attributes) returns (id: int, ghost mid: seq<Node>)
      requires |kids| == |paths| == |nodes| && Live(nodes, parent) && nodes[parent].attr.kind.Directory?
      requires nodes[parent].last != NIL ==> Live(nodes, nodes[parent].last)
      requires FreeList(nodes, free)
      requires (parent, name) !in exact && paths[parent] + [name] !in at
      modifies this`nodes, this`free, this`exact, this`folded, this`live, this`collisions,
               this`kids, this`paths, this`at
      ensures InsertStep(old(Fields()), Fields(), mid, parent, id, name, fold, attr)
      ensures old(|free|) == 0 ==> id == |old(nodes)|
    {
      ghost var nodes0 := nodes;
      id := AllocNode();
      TakenSlot(nodes0, nodes, old(free), free, id);
      nodes := nodes[id := nodes[id].(name := Some(name), folded := fold, attr := attr)];
      mid := nodes;
      LinkChild(parent, id);
      assert nodes[id] == LinkedNode(mid, parent, id, id);
      IndexNode(id);
      live, kids, paths, at := live + 1, Append(kids, id, [])[parent := kids[parent] + [id]],
        Append(paths, id, paths[parent] + [name]), at[paths[parent] + [name] := id];
    }

    /** The folding a name is indexed under; lower-case ASCII needs no work. */
    method FoldName(name: Name) returns (fold: Name)
      ensures fold == Fold(name)
    {
      fold := name;
      if !IsAscii(name) || HasUpper(name) {
        fold := CasefoldAppend(name, []);
      } else {
        FoldOfLowerAscii(name);
      }
    }

    /** insert, once every check has passed. */
    method InsertNew(parent: int, name: Name, attr: Attributes) returns (id: int)
      requires Valid() && Live(nodes, parent) && nodes[parent].attr.kind.Directory? && Path.ValidName(name)
      requires (parent, name) !in exact && paths[parent] + [name] !in at
      modifies this`nodes, this`free, this`exact, this`folded, this`live, this`collisions,
               this`kids, this`paths, this`at
      ensures Valid()
      ensures Contents() == old(Contents())[old(paths)[parent] + [name] := attr]
      ensures at == old(at)[old(paths)[parent] + [name] := id]
      ensures 0 <= id <= |old(nodes)| && !Live(old(nodes), id)
      ensures old(|free|) == 0 ==> id == |old(nodes)|
      ensures id <= |old(kids)| && kids == Append(old(kids), id, [])[parent := old(kids)[parent] + [id]]
      ensures forall i :: Live(old(nodes), i) ==> Kept(old(nodes), nodes, old(paths), paths, i)
    {
      var fold := FoldName(name);
      ghost var r0 := Fields();
      assert SlotOk(nodes, kids, parent);
      if kids[parent] != [] {
        Listed(nodes, kids, {}, parent, kids[parent][|kids[parent]| - 1]);
      }
      ghost var mid;
      id, mid := AddNode(parent, name, fold, attr);
      InsertKeeps(r0, Fields(), mid, parent, id, name, fold, attr);
      InsertView(r0, Fields(), mid, parent, id, name, fold, attr);
    }

    /** Adds a child to a directory. */
    method Insert(parent: int, name: Name, attr: Attributes) returns (r: Result<int>)
      requires Valid()
      modifies this`nodes, this`free, this`exact, this`folded, this`live, this`collisions,
               this`kids, this`paths, this`at
      ensures Valid()
      ensures !Live(old(nodes), parent) ==> r == Err(NotFound)
      ensures Live(old(nodes), parent) ==>
                var q := old(paths)[parent] + [name];
                r == if !old(nodes)[parent].attr.kind.Directory? then Err(NotADirectory)
                     else if !Path.ValidName(name) then Err(InvalidPath)
                     else if q in old(Contents()) then Err(AlreadyExists)
                     else Ok(Get(at, q))
      ensures r.Err? ==> unchanged(this)
      ensures r.Ok? ==>
                && Contents() == old(Contents())[old(paths)[parent] + [name] := attr]
                && at == old(at)[old(paths)[parent] + [name] := r.value]
                && 0 <= r.value <= |old(nodes)| && !Live(old(nodes), r.value)
                && (old(|free|) == 0 ==> r.value == |old(nodes)|)
                && r.value <= |old(kids)| && kids == Append(old(kids), r.value, [])[parent := old(kids)[parent] + [r.value]]
                && forall i :: Live(old(nodes), i) ==> Kept(old(nodes), nodes, old(paths), paths, i)
    {
      if !Live(nodes, parent) {
        return Err(NotFound);
      }
      if !nodes[parent].attr.kind.Directory? {
        return Err(NotADirectory);
      }
      if !Path.ValidName(name) {
        return Err(InvalidPath);
      }
      ChildPath(nodes, paths, at, exact, parent, name);
      if (parent, name) in exact {
        return Err(AlreadyExists);
      }
      var id := InsertNew(parent, name, attr);
      return Ok(id);
    }

    /** for_each_child: the children of `dir` in insertion order. */
    method Children(dir: int, ghost det: set<int>) returns (ks: seq<int>)
      requires Shape(nodes, kids, det) && Live(nodes, dir)
      ensures ks == kids[dir]
    {
      ks := [];
      assert SlotOk(nodes, kids, dir);
      assert kids[dir] != [] ==> SiblingAt(nodes, dir, kids[dir], 0);
      var c := nodes[dir].first;
      while c != NIL
        invariant ks <= kids[dir]
        invariant |ks| == |kids[dir]| <==> c == NIL
        invariant |ks| < |kids[dir]| ==> c == kids[dir][|ks|]
        decreases |kids[dir]| - |ks|
      {
        assert SiblingAt(nodes, dir, kids[dir], |ks|);
        assert |ks| + 1 < |kids[dir]| ==> SiblingAt(nodes, dir, kids[dir], |ks| + 1);
        ks := ks + [c];
        c := nodes[c].next;
      }
    }

    /** Hands a released slot back: no name, on the free list. */
    method FreeNode(id: int)
      requires 0 <= id < |nodes| && id < |paths|
      modifies this`nodes, this`free, this`live, this`at
      ensures Fields() == Freed(old(Fields()), id)
    {
      nodes := nodes[id := nodes[id].(name := None)];
      free, live, at := free + [id], live - 1, at - {paths[id]};
    }

    /** Unlinks, unindexes and frees one childless descendant of `id`. */
    method ReleaseLeaf(cur: int, id: int, ghost order: seq<seq<int>>) returns (ghost order': seq<seq<int>>)
      requires Releasing(Fields(), id, order) && Live(nodes, cur) && cur != id && cur != 0
      requires kids[cur] == [] && Below(Fields(), id, cur)
      modifies this`nodes, this`free, this`exact, this`folded, this`live, this`collisions, this`kids, this`at
      ensures Releasing(Fields(), id, order')
      ensures !Live(nodes, cur) && live == old(live) - 1
      ensures forall i :: Live(old(nodes), i) && i != cur ==> Kept(old(nodes), nodes, paths, paths, i)
      ensures forall i :: Live(nodes, i) ==> Live(old(nodes), i)
    {
      ghost var r0 := Fields();
      LinkedUp(nodes, kids, {id}, cur);
      PathStepsApart(nodes, paths, at, id, cur);
      UnlinkChild(cur);
      UnlinkDescendant(r0, Fields(), id, order, cur);
      order' := UnindexNode(cur, {id, cur}, order);
      ghost var mid := Fields();
      FreeNode(cur);
      ReleaseLeafKeeps(r0, mid, Fields(), id, order, order', cur);
    }

    /** Unindexes and frees the root of a released subtree, once nothing is left below it. */
    method ReleaseRoot(id: int, ghost order: seq<seq<int>>)
      requires Releasing(Fields(), id, order) && kids[id] == []
      modifies this`nodes, this`free, this`exact, this`folded, this`live, this`collisions, this`at
      ensures Valid()
      ensures !Live(nodes, id) && live == old(live) - 1
      ensures forall i :: Live(old(nodes), i) && i != id ==> Kept(old(nodes), nodes, paths, paths, i)
      ensures forall i :: Live(nodes, i) ==> Live(old(nodes), i)
    {
      ghost var r0 := Fields();
      PendingUnindex(nodes, kids, id, order);
      assert PathStep(nodes, paths, id, NIL);
      ghost var order' := UnindexNode(id, {id}, order);
      assert order' == kids;
      ghost var mid := Fields();
      FreeNode(id);
      EndRelease(mid, Fields(), id);
    }

    /** Iterative post-order release of everything at and below `id`. */
    method ReleaseSubtree(id: int, ghost order0: seq<seq<int>>)
      requires Releasing(Fields(), id, order0)
      modifies this`nodes, this`free, this`exact, this`folded, this`live, this`collisions, this`kids, this`at
      ensures Valid()
      ensures !Live(nodes, id) && live < old(live)
      ensures Dropped(old(Fields()), Fields(), id)
    {
      ghost var r0 := Fields();
      ghost var order := order0;
      var stack := [id];
      while stack != []
        invariant Dropped(r0, Fields(), id)
        invariant stack != [] ==> Releasing(Fields(), id, order) && Stacked(nodes, paths, stack, id)
        invariant stack == [] ==> Valid() && !Live(nodes, id) && live < r0.live
        invariant live <= r0.live
        decreases live, |nodes| - |stack|
      {
        var cur := stack[|stack| - 1];
        assert Waiting(nodes, paths, stack[|stack| - 1], id);
        Childless(nodes, kids, {id}, cur);
        if nodes[cur].first != NIL {
          var ks := Children(cur, {id});
          StackedPush(Fields(), stack, id);
          stack := stack + ks;
          continue;
        }
        ghost var r1 := Fields();
        if cur != id {
          order := ReleaseLeaf(cur, id, order);
          StackedPop(r1, Fields(), stack, id);
        } else {
          ReleaseRoot(id, order);
        }
        DroppedOne(r0, r1, Fields(), id, cur);
        stack := stack[..|stack| - 1];
      }
    }

    /** Unlinks a node and releases everything at or below it. */
    method Detach(id: int)
      requires Valid() && Live(nodes, id) && id != 0
      modifies this`nodes, this`free, this`exact, this`folded, this`live, this`collisions, this`kids, this`at
      ensures Valid() && !Live(nodes, id) && live < old(live)
      ensures Dropped(old(Fields()), Fields(), id)
    {
      ghost var r0 := Fields();
      LinkedUp(nodes, kids, {}, id);
      assert PathStep(nodes, paths, id, NIL);
      UnlinkChild(id);
      ghost var r1 := Fields();
      BeginRelease(r0, r1, id);
      ReleaseSubtree(id, r0.kids);
      DroppedFromLinked(r0, r1, Fields(), id);
    }

    /** Removes a node with its whole subtree; the root cannot be removed. */
    method Remove(id: int) returns (r: Result<()>)
      requires Valid()
      modifies this`nodes, this`free, this`exact, this`folded, this`live, this`collisions, this`kids, this`at
      ensures Valid()
      ensures r == if !Live(old(nodes), id) then Err(NotFound) else if id == 0 then Err(InvalidArgument) else Ok(())
      ensures r.Err? ==> unchanged(this)
      ensures r.Ok? ==> Contents() == WithoutSubtree(old(Contents()), paths[id])
      ensures r.Ok? ==> Dropped(old(Fields()), Fields(), id)
    {
      if !Live(nodes, id) {
        return Err(NotFound);
      }
      if id == 0 {
        return Err(InvalidArgument);
      }
      ghost var r0 := Fields();
      Detach(id);
      DroppedView(r0, Fields(), id);
      return Ok(());
    }

    /** Releases every child of a directory, first child first. */
    method ReleaseChildren(id: int)
      requires Valid() && Live(nodes, id)
      modifies this`nodes, this`free, this`exact, this`folded, this`live, this`collisions, this`kids, this`at
      ensures Valid() && Live(nodes, id) && kids[id] == []
      ensures Emptied(old(Fields()), Fields(), id)
    {
      ghost var r0 := Fields();
      EmptiedSelf(r0, id);
      while nodes[id].first != NIL
        invariant Valid() && Live(nodes, id) && Emptied(r0, Fields(), id)
        decreases live
      {
        ghost var r1 := Fields();
        var c := nodes[id].first;
        FirstChild(r1, id);
        Detach(c);
        assert !Below(r1, c, id);
        EmptiedMore(r0, r1, Fields(), id, c);
      }
      Childless(nodes, kids, {}, id);
    }

    /** Replaces attributes; a directory that stops being one loses its children first. */
    method SetAttributes(id: int, attr: Attributes) returns (r: Result<()>)
      requires Valid()
      modifies this`nodes, this`free, this`exact, this`folded, this`live, this`collisions, this`kids, this`at
      ensures Valid()
      ensures r == if Live(old(nodes), id) then Ok(()) else Err(NotFound)
      ensures r.Err? ==> unchanged(this)
      ensures r.Ok? ==> Live(nodes, id) && Contents() == WithAttributes(old(Contents()), paths[id], attr)
    {
      if !Live(nodes, id) {
        return Err(NotFound);
      }
      ghost var r0 := Fields();
      assert SlotOk(nodes, kids, id);
      EmptiedSelf(r0, id);
      if nodes[id].attr.kind.Directory? && !attr.kind.Directory? && nodes[id].count != 0 {
        ReleaseChildren(id);
      }
      ghost var r1 := Fields();
      if !attr.kind.Directory? {
        EmptiedView(r0, r1, id);
      }
      nodes := nodes[id := nodes[id].(attr := attr)];
      AttributesKeep(r1, Fields(), id, attr);
      return Ok(());
    }

    /** Walks the parent chain from `start`: is `id` on it? */
    method OnChain(id: int, start: int) returns (found: bool)
      requires Valid() && Live(nodes, id) && Live(nodes, start)
      ensures found <==> paths[id] <= paths[start]
    {
      var a := start;
      assert PathEntry(paths, at, id) && PathEntry(paths, at, start);
      while a != NIL
        invariant a != NIL ==> Live(nodes, a) && paths[a] <= paths[start] && PathEntry(paths, at, a)
        invariant paths[id] <= paths[start] ==> a != NIL && paths[id] <= paths[a]
        decreases if a == NIL then 0 else |paths[a]| + 1
      {
        if a == id {
          return true;
        }
        assert paths[id] != paths[a];
        if a != 0 {
          assert PathStep(nodes, paths, a, NIL);
          assert PathEntry(paths, at, nodes[a].parent);
          assert paths[a][..|paths[a]| - 1] == paths[nodes[a].parent];
        }
        a := nodes[a].parent;
      }
      return false;
    }

    method SetName(id: int, name: Name, fold: Name)
      requires 0 <= id < |nodes|
      modifies this`nodes
      ensures Fields() == old(Fields()).(nodes := old(nodes)[id := old(nodes)[id].(name := Some(name), folded := fold)])
    {
      nodes := nodes[id := nodes[id].(name := Some(name), folded := fold)];
    }

    /** The unindex, unlink and renaming part of rename. */
    method Unplace(id: int, name: Name, fold: Name)
      requires Valid() && Live(nodes, id) && id != 0
      modifies this`nodes, this`exact, this`folded, this`collisions, this`kids
      ensures Moving(old(Fields()), Fields(), id, name, fold)
    {
      ghost var r0 := Fields();
      LinkedUp(nodes, kids, {}, id);
      assert SlotOk(nodes, kids, nodes[id].parent);
      assert PathStep(nodes, paths, id, NIL);
      ghost var order := UnindexNode(id, {}, kids);
      ghost var r1 := Fields();
      UnlinkChild(id);
      UnplaceKeeps(r0, r1, Fields(), id, name, fold);
      SetName(id, name, fold);
    }

    /** The link and index part of rename. */
    method Replace(id: int, np: int, name: Name, fold: Name)
      requires 0 <= id < |nodes| && 0 <= np < |nodes| && id != np && |kids| == |nodes|
      requires nodes[id].name == Some(name) && nodes[id].folded == fold
      requires nodes[np].last == NIL || (0 <= nodes[np].last < |nodes| && nodes[np].last != id)
      modifies this`nodes, this`exact, this`folded, this`collisions, this`kids
      ensures Relinked(old(Fields()), Fields(), id, np, name, fold)
    {
      ghost var mid := nodes;
      LinkChild(np, id);
      assert nodes[id] == LinkedNode(mid, np, id, id);
      IndexNode(id);
      kids := kids[np := kids[np] + [id]];
    }

    ghost method MovePaths(src: Location, dst: Location)
      modifies this`paths, this`at
      ensures Fields() == old(Fields()).(paths := MovedPaths(old(paths), src, dst), at := Renamed(old(at), src, dst))
    {
      paths, at := MovedPaths(paths, src, dst), Renamed(at, src, dst);
    }

    /** Moves a node, with everything below it, to another directory or name. */
    method Rename(id: int, newParent: int, newName: Name) returns (r: Result<()>)
      requires Valid()
      modifies this`nodes, this`exact, this`folded, this`collisions, this`kids, this`paths, this`at
      ensures Valid()
      ensures !Live(old(nodes), id) || !Live(old(nodes), newParent) ==> r == Err(NotFound)
      ensures Live(old(nodes), id) && Live(old(nodes), newParent) ==>
                var src, dst := old(paths)[id], old(paths)[newParent] + [newName];
                && r == (if id == 0 then Err(InvalidArgument)
                         else if !old(nodes)[newParent].attr.kind.Directory? then Err(NotADirectory)
                         else if !Path.ValidName(newName) then Err(InvalidPath)
                         else if src <= old(paths)[newParent] then Err(InvalidArgument)
                         else if dst in old(Contents()) && dst != src then Err(AlreadyExists)
                         else Ok(()))
                && (r.Ok? && dst == src ==> unchanged(this))
                && (r.Ok? && dst != src ==> Contents() == Renamed(old(Contents()), src, dst))
      ensures r.Err? ==> unchanged(this)
    {
      if !Live(nodes, id) || !Live(nodes, newParent) {
        return Err(NotFound);
      }
      if id == 0 {
        return Err(InvalidArgument);
      }
      if !nodes[newParent].attr.kind.Directory? {
        return Err(NotADirectory);
      }
      if !Path.ValidName(newName) {
        return Err(InvalidPath);
      }
      var inside := OnChain(id, newParent);
      if inside {
        return Err(InvalidArgument);
      }
      ChildPath(nodes, paths, at, exact, newParent, newName);
      assert PathEntry(paths, at, id);
      if (newParent, newName) in exact {
        ghost var dst := paths[newParent] + [newName];
        assert AtEntry(nodes, paths, at, dst);
        if exact[(newParent, newName)] == id {
          return Ok(());
        }
        return Err(AlreadyExists);
      }
      var fold := newName;
      if !IsAscii(newName) || HasUpper(newName) {
        fold := CasefoldAppend(newName, []);
      } else {
        FoldOfLowerAscii(newName);
      }
      Move(id, newParent, newName, fold);
      return Ok(());
    }

    /** rename once every check has passed. */
    method Move(id: int, np: int, name: Name, fold: Name)
      requires Valid() && Live(nodes, id) && id != 0 && Live(nodes, np) && nodes[np].attr.kind.Directory?
      requires NamePair(name, fold) && (np, name) !in exact
      requires paths[np] + [name] !in at && !(paths[id] <= paths[np])
      modifies this`nodes, this`exact, this`folded, this`collisions, this`kids, this`paths, this`at
      ensures Valid()
      ensures Contents() == Renamed(old(Contents()), old(paths)[id], old(paths)[np] + [name])
    {
      ghost var r0 := Fields();
      Unplace(id, name, fold);
      ghost var r1 := Fields();
      assert SameIdentity(r0.nodes, r1.nodes, np);
      LastChild(r1.nodes, r1.kids, {id}, np);
      Replace(id, np, name, fold);
      ghost var r2 := Fields();
      MovePaths(paths[id], paths[np] + [name]);
      RenameSteps(r0, r1, r2, Fields(), id, np, name, fold);
      RenameKeeps(r0, r1, Fields(), id, np, name, fold);
      RenameView(r0, r1, Fields(), id, np, name, fold);
    }

    /** Finds a child: the exact spelling if there is one, else the first that folds alike. */
    method FindChild(parent: int, name: Name, mode: LookupMode) returns (r: Option<int>)
      requires Valid()
      ensures r.Some? ==> Live(nodes, r.value) && Live(nodes, parent) && r.value != 0
      ensures Live(nodes, parent) && paths[parent] + [name] in at ==> r == Some(at[paths[parent] + [name]])
      ensures mode.Exact? && Live(nodes, parent) && paths[parent] + [name] !in at ==> r == None
      ensures mode.CaseInsensitive? && Live(nodes, parent) && paths[parent] + [name] !in at ==>
                && (r.Some? ==> FirstMatch(Fields(), parent, name, r.value))
                && (r.None? ==> forall k :: 0 <= k < |kids[parent]| ==> !MatchAt(Fields(), parent, name, k))
    {
      if !Live(nodes, parent) || !nodes[parent].attr.kind.Directory? {
        if Live(nodes, parent) {
          assert SlotOk(nodes, kids, parent);
          NoChildPath(Fields(), parent, name);
        }
        return None;
      }
      ChildPath(nodes, paths, at, exact, parent, name);
      if (parent, name) in exact {
        assert KeyEntry(nodes, exact, (parent, name), NIL);
        return Some(exact[(parent, name)]);
      }
      if mode.Exact? {
        return None;
      }
      var f := CasefoldAppend(name, []);
      FoldedLookup(Fields(), parent, name, f);
      if (parent, f) in folded {
        FirstMatchLive(Fields(), parent, name, folded[(parent, f)]);
        return Some(folded[(parent, f)]);
      }
      return None;
    }

    /** The child a walk goes on with. */
    method FindNext(cur: int, name: Name, mode: LookupMode) returns (r: Option<int>)
      requires Valid() && Live(nodes, cur) && cur < |paths| && cur < |kids|
      ensures Finds(Fields(), mode.Exact?, cur, name, r)
    {
      r := FindChild(cur, name, mode);
    }

    /** Resolves a path; ".." steps up, "." and empty components are skipped. */
    method Lookup(path: seq<byte>, mode: LookupMode) returns (r: Option<int>)
      requires Valid()
      ensures Resolves(Fields(), mode.Exact?, Path.Components(path), r)
      ensures Greedy(Fields(), mode.Exact?, 0, Path.Components(path), r)
    {
      var cs := Path.Split(path);
      ghost var me := Fields();
      var cur, k := 0, 0;
      WalkBegins(me, mode.Exact?, cs);
      while k < |cs|
        invariant 0 <= k <= |cs| && Walking(me, mode.Exact?, cs, k, cur)
      {
        if cs[k] == Path.DOTDOT {
          WalksUp(me, mode.Exact?, cs, k, cur);
          if nodes[cur].parent != NIL {
            cur := nodes[cur].parent;
          }
        } else {
          var next := FindNext(cur, cs[k], mode);
          if next.None? {
            WalkMisses(me, mode.Exact?, cs, k, cur);
            return None;
          }
          WalksDown(me, mode.Exact?, cs, k, cur, next.value);
          cur := next.value;
        }
        k := k + 1;
      }
      WalkEnds(me, mode.Exact?, cs, cur);
      return Some(cur);
    }

    /** Adds a child, or refreshes the one that has exactly this name. */
    method Upsert(parent: int, name: Name, attr: Attributes) returns (r: Result<int>)
      requires Valid()
      modifies this`nodes, this`free, this`exact, this`folded, this`live, this`collisions,
               this`kids, this`paths, this`at
      ensures Valid()
      ensures !Live(old(nodes), parent) ==> r == Err(NotFound)
      ensures Live(old(nodes), parent) ==>
                var q := old(paths)[parent] + [name];
                && (r.Ok? <==> q in old(Contents()) || (old(nodes)[parent].attr.kind.Directory? && Path.ValidName(name)))
                && (q in old(Contents()) ==> Contents() == WithAttributes(old(Contents()), q, attr))
                && (q !in old(Contents()) && r.Ok? ==> Contents() == old(Contents())[q := attr])
                && (r.Ok? ==> q in at && r.value == at[q])
                && (r.Err? ==> r.error == if old(nodes)[parent].attr.kind.Directory? then InvalidPath else NotADirectory)
      ensures r.Err? ==> unchanged(this)
    {
      if !Live(nodes, parent) {
        return Err(NotFound);
      }
      ghost var q := paths[parent] + [name];
      var existing := FindChild(parent, name, Exact);
      if existing.Some? {
        assert AtEntry(nodes, paths, at, q);
        var r' := SetAttributes(existing.value, attr);
        assert PathEntry(paths, at, existing.value);
        return Ok(existing.value);
      }
      r := Insert(parent, name, attr);
    }

    /** One component of ensure_directory_path: the child directory, created if missing. */
    method EnsureComponent(cur: int, comp: Name, ghost m: Mirror, ghost done: seq<Name>) returns (r: Result<int>)
      requires Valid() && TreeClosed(m) && EnsuredTo(m, Fields(), done, cur)
      modifies this`nodes, this`free, this`exact, this`folded, this`live, this`collisions,
               this`kids, this`paths, this`at
      ensures Valid()
      ensures r.Ok? ==> EnsuredTo(m, Fields(), done + [comp], r.value)
      ensures r.Err? ==> Halted(m, Contents(), done + [comp], |done|, r.error)
    {
      ghost var r0 := Fields();
      EnsuredValid(m, r0, done, cur);
      assert (done + [comp])[..|done|] == done && (done + [comp])[..|done| + 1] == done + [comp];
      var next := FindChild(cur, comp, Exact);
      if next.Some? {
        if !nodes[next.value].attr.kind.Directory? {
          EnsuredPresent(m, r0, done, comp, cur);
          ObstructedSnoc(m, done, comp);
          return Err(NotADirectory);
        }
        EnsuredExisting(m, r0, done, comp, cur, next.value);
        return Ok(next.value);
      }
      r := Insert(cur, comp, IMPLICIT_DIRECTORY);
      if r.Err? {
        EnsuredFailure(m, r0, done, cur, done + [comp]);
      } else {
        EnsuredCreated(m, r0, Fields(), done, comp, cur, r.value);
      }
    }

    /** Creates the missing directories of a path; an ancestor that is not a directory stops it. */
    method EnsureDirectoryPath(path: seq<byte>) returns (r: Result<int>)
      requires Valid()
      modifies this`nodes, this`free, this`exact, this`folded, this`live, this`collisions,
               this`kids, this`paths, this`at
      ensures Valid()
      ensures r.Ok? ==> EnsuredTo(old(Contents()), Fields(), Path.Components(path), r.value)
      ensures r.Err? ==> exists k :: Halted(old(Contents()), Contents(), Path.Components(path), k, r.error)
    {
      var cs := Path.Split(path);
      ghost var m := Contents();
      EnsureBegin(Fields());
      var cur, k := 0, 0;
      while k < |cs|
        invariant 0 <= k <= |cs| && Valid()
        invariant EnsuredTo(m, Fields(), cs[..k], cur)
      {
        TakeSnoc(cs, k);
        if cs[k] == Path.DOTDOT {
          EnsuredValid(m, Fields(), cs[..k], cur);
          assert Halted(m, Contents(), cs, k, InvalidPath);
          return Err(InvalidPath);
        }
        r := EnsureComponent(cur, cs[k], m, cs[..k]);
        if r.Err? {
          HaltedAt(m, Contents(), cs, k, r.error);
          return;
        }
        cur := r.value;
        k := k + 1;
      }
      assert cs[..k] == cs;
      return Ok(cur);
    }

    /** The last component of upsert_path, below the directory ensured for it. */
    method UpsertLeaf(dir: int, leaf: Name, attr: Attributes, ghost m: Mirror, ghost front: seq<Name>) returns (r: Result<int>)
      requires Valid() && TreeClosed(m) && EnsuredTo(m, Fields(), front, dir)
      modifies this`nodes, this`free, this`exact, this`folded, this`live, this`collisions,
               this`kids, this`paths, this`at
      ensures Valid()
      ensures r.Err? ==> Halted(m, Contents(), front + [leaf], |front|, r.error)
      ensures Path.ValidName(leaf) ==>
                && Contents() == Upserted(m, front + [leaf], attr)
                && (r.Ok? <==> !Blocked(m, front + [leaf]))
      ensures r.Ok? ==> front + [leaf] in at && r.value == at[front + [leaf]]
    {
      ghost var r1 := Fields();
      UpsertedPath(m, r1, front, leaf, dir, attr);
      r := Upsert(dir, leaf, attr);
      if r.Err? {
        LeafHalted(m, r1, front, leaf, dir, r.error);
      }
    }

    /** Creates or refreshes the node at a path, with any directories missing on the way. */
    method UpsertPath(path: seq<byte>, attr: Attributes) returns (r: Result<int>)
      requires Valid()
      modifies this`nodes, this`free, this`exact, this`folded, this`live, this`collisions,
               this`kids, this`paths, this`at
      ensures Valid()
      ensures Path.Components(path) == [] ==> r == Err(InvalidPath) && Contents() == old(Contents())
      ensures Path.Components(path) != [] && r.Err? ==>
                exists k :: Halted(old(Contents()), Contents(), Path.Components(path), k, r.error)
      ensures Path.AllValid(Path.Components(path)) ==>
                var cs := Path.Components(path);
                && Contents() == Upserted(old(Contents()), cs, attr)
                && (r.Ok? <==> cs != [] && !Blocked(old(Contents()), cs))
                && (r.Ok? ==> cs in at && r.value == at[cs])
    {
      ghost var m, cs := Contents(), Path.Components(path);
      ConsistentTree(Fields());
      var ok, parent, leaf := Path.ParentAndLeaf(path);
      if !ok {
        return Err(InvalidPath);
      }
      ghost var front := Path.Components(parent);
      assert cs == front + [leaf];
      var dir := EnsureDirectoryPath(parent);
      if dir.Err? {
        ghost var k :| Halted(m, Contents(), front, k, dir.error);
        HaltedAbove(m, Contents(), front, leaf, k, dir.error, attr);
        return dir;
      }
      LastValid(front, leaf);
      r := UpsertLeaf(dir.value, leaf, attr, m, front);
      if r.Err? {
        assert Halted(m, Contents(), cs, |front|, r.error);
      }
    }

    /** Removes what a path resolves to, with everything below it. */
    method RemovePath(path: seq<byte>, mode: LookupMode) returns (r: Result<()>, ghost found: Option<int>)
      requires Valid()
      modifies this`nodes, this`free, this`exact, this`folded, this`live, this`collisions, this`kids, this`at
      ensures Valid()
      ensures Resolves(old(Fields()), mode.Exact?, Path.Components(path), found)
      ensures Greedy(old(Fields()), mode.Exact?, 0, Path.Components(path), found)
      ensures r == match found
                   case None => Err(NotFound)
                   case Some(id) => if id == 0 then Err(InvalidArgument) else Ok(())
      ensures r.Err? ==> Contents() == old(Contents())
      ensures r.Ok? ==> Contents() == WithoutSubtree(old(Contents()), paths[found.value])
      ensures mode.Exact? && Path.NoDotDot(Path.Components(path)) ==>
                Contents() == Removed(old(Contents()), Path.Components(path))
    {
      ghost var r0, cs := Fields(), Path.Components(path);
      var id := Lookup(path, mode);
      found := id;
      if mode.Exact? && Path.NoDotDot(cs) {
        RemovesExactly(r0, cs, found);
      }
      if id.None? {
        return Err(NotFound), found;
      }
      r := Remove(id.value);
    }

    /** The path of a node, built by walking up to the root. */
    method PathOf(id: int) returns (out: seq<byte>)
      requires Valid()
      ensures !Live(nodes, id) ==> out == []
      ensures Live(nodes, id) ==> out == Path.Join(paths[id])
    {
      if !Live(nodes, id) || id == 0 {
        return [];
      }
      var chain := [];
      var cur := id;
      while cur != 0
        invariant Live(nodes, cur) && ChainTo(Fields(), chain, cur, id)
        decreases |paths[cur]|
      {
        assert PathStep(nodes, paths, cur, NIL);
        ChainUp(Fields(), chain, cur, id);
        chain := chain + [cur];
        cur := nodes[cur].parent;
      }
      out := [];
      ghost var shown: Location := [];
      var k := |chain|;
      ChainDone(Fields(), chain, id);
      while k > 0
        invariant 0 <= k <= |chain|
        invariant shown + ChainNames(Fields(), chain[..k]) == paths[id]
        invariant out == Path.Join(shown) && Path.AllPlain(shown)
      {
        k := k - 1;
        var part := nodes[chain[k]].name.value;
        NameOnChain(Fields(), chain, k, shown);
        Path.JoinSnoc(shown, part);
        Path.JoinEmpty(shown);
        if out != [] {
          out := out + [Path.SLASH];
        }
        out := out + part;
        shown := shown + [part];
      }
      assert shown + ChainNames(Fields(), chain[..0]) == shown;
    }

    /** Looking up the path of a live node finds that node, in both modes. */
    method LookupOwnPath(id: int, mode: LookupMode) returns (r: Option<int>)
      requires Valid() && Live(nodes, id)
      ensures r == Some(id)
    {
      var path := PathOf(id);
      PathPlain(Fields(), id);
      Path.ComponentsOfJoin(paths[id]);
      assert PathEntry(paths, at, id);
      r := Lookup(path, mode);
    }

    /** Back to an empty root. */
    method Clear()
      modifies this
      ensures Valid() && Holds(Fields(), [0], EMPTY_TREE) && dropped == 0 && free == []
    {
      nodes := [BLANK.(name := Some([]), attr := IMPLICIT_DIRECTORY)];
      free, exact, folded, live, collisions, dropped := [], map[], map[], 1, 0, 0;
      kids, paths, at := [[]], [[]], map[[] := 0];
      EmptyHolds(Fields());
    }

    /** Replaces the whole tree; entries it cannot represent are dropped with everything below them. */
    method LoadSnapshot(entries: seq<SnapshotEntry>) returns (r: Result<()>)
      modifies this
      ensures Valid()
      ensures r == if ParentsPrecede(entries) then Ok(()) else Err(Corrupt)
      ensures ParentsPrecede(entries) ==>
                var l := Load(entries);
                Contents() == l.view && Order(Fields()) == l.order && dropped == Missing(l.places)
    {
      var ids := StartLoad();
      var k := 0;
      ghost var l := EMPTY_TREE;
      assert entries[..0] == [];
      while k < |entries|
        invariant 0 <= k <= |entries| && Valid() && |ids| == k + 1
        invariant LoadedFirst(entries, k, l)
        invariant Holds(Fields(), ids, l) && dropped == Missing(l.places)
      {
        var e := entries[k];
        if e.parent > k {
          return Err(Corrupt);
        }
        LoadedNext(entries, k, l);
        var id := LoadEntry(ids, e, l);
        l := LoadOne(l, e);
        ids := ids + [id];
        k := k + 1;
      }
      assert entries[..k] == entries;
      return Ok(());
    }

    /** The empty tree a load starts from; the root is where entries with parent 0 go. */
    method StartLoad() returns (ids: seq<int>)
      modifies this
      ensures Valid() && ids == [0] && Holds(Fields(), ids, EMPTY_TREE) && dropped == Missing(EMPTY_TREE.places)
    {
      Clear();
      ids := [0];
      MissingEmpty();
    }

    /** One entry of load_snapshot: the id it contributes, kInvalidNode if it was dropped. */
    method LoadEntry(ids: seq<int>, e: SnapshotEntry, ghost l: Loaded) returns (id: int)
      requires Valid() && Holds(Fields(), ids, l) && e.parent < |ids| && dropped == Missing(l.places)
      modifies this
      ensures Valid() && Holds(Fields(), ids + [id], LoadOne(l, e))
      ensures dropped == Missing(LoadOne(l, e).places)
    {
      var parent := ids[e.parent];
      ghost var r0 := Fields();
      PlaceMatches(r0, ids, l, e);
      LocatedSnoc(l.places, PlaceOf(l, e));
      if parent == NIL {
        HoldsSkip(r0, ids, l);
        dropped := dropped + 1;
        return NIL;
      }
      var r := Insert(parent, e.name, e.attr);
      if r.Err? {
        HoldsSkip(r0, ids, l);
        dropped := dropped + 1;
        return NIL;
      }
      HoldsInsert(r0, Fields(), ids, l, e, r.value);
      return r.value;
    }

    /** The inner loop of export_snapshot: one directory's children. */
    method ExportChildren(ks: seq<int>, idx: nat, entries: seq<SnapshotEntry>, queue: seq<(int, nat)>, next: nat,
                          ghost ids: seq<int>, ghost out: seq<int>)
      returns (entries': seq<SnapshotEntry>, queue': seq<(int, nat)>, next': nat, ghost ids': seq<int>)
      requires Entries(nodes, entries, out) && Queued(queue, ids, out) && Distinct(out + ks) && next == |out| + 1
      requires forall k :: 0 <= k < |ks| ==> Live(nodes, ks[k]) && ks[k] != 0 && EntryIndex(out, nodes[ks[k]].parent, idx)
      requires ids == [0] + Dirs(nodes, out)
      ensures Entries(nodes, entries', out + ks) && Queued(queue', ids', out + ks) && next' == |out + ks| + 1
      ensures ids' == [0] + Dirs(nodes, out + ks) && ids <= ids'
    {
      entries', queue', next', ids' := entries, queue, next, ids;
      var k := 0;
      assert out + ks[..0] == out;
      while k < |ks|
        invariant 0 <= k <= |ks| && next' == |out| + k + 1
        invariant Entries(nodes, entries', out + ks[..k]) && Queued(queue', ids', out + ks[..k])
        invariant ids' == [0] + Dirs(nodes, out + ks[..k]) && ids <= ids'
      {
        var c := ks[k];
        ghost var now := out + ks[..k];
        assert now + [c] == out + ks[..k + 1];
        assert c == (out + ks)[|out| + k] && now == (out + ks)[..|out| + k];
        EmitEntry(nodes, entries', now, c, idx);
        EmitQueued(queue', ids', now, c);
        DirsSnoc(nodes, now, c);
        entries' := entries' + [SnapshotEntry(idx, nodes[c].name.value, nodes[c].attr)];
        if nodes[c].attr.kind.Directory? {
          queue', ids' := queue' + [(c, next')], ids' + [c];
        }
        next', k := next' + 1, k + 1;
      }
      assert ks[..k] == ks;
    }

    /** Emits the tree breadth first; only directories are queued for their children. */
    method ExportSnapshot() returns (entries: seq<SnapshotEntry>, ghost out: seq<int>)
      requires Valid()
      ensures Exports(Fields(), entries, out)
    {
      ghost var me := Fields();
      entries, out := [], [];
      var queue: seq<(int, nat)> := [(0, 0)];
      ghost var ids := [0];
      var next, qi := 1, 0;
      while qi < |queue|
        invariant 0 <= qi <= |queue| && Entries(nodes, entries, out) && next == |out| + 1
        invariant ids == [0] + Dirs(nodes, out) && Queued(queue, ids, out)
        invariant out == Flatten(kids, ids[..qi])
        decreases |nodes| - qi
      {
        ExportTurn(me, entries, out, queue, ids, qi);
        var (id, idx) := queue[qi];
        var ks := Children(id, {});
        ghost var ids0 := ids;
        entries, queue, next, ids := ExportChildren(ks, idx, entries, queue, next, ids, out);
        out := out + ks;
        assert ids[..qi + 1] == ids0[..qi + 1];
        qi := qi + 1;
      }
      assert ids[..qi] == ids;
      WalkExports(me, entries, out);
    }

    /** Exporting and loading into another tree gives the same paths, attributes and order. */
    method CopyTo(other: Tree)
      requires Valid() && other != this
      modifies other
      ensures other.Valid() && other.dropped == 0
      ensures other.Contents() == Contents()[[] := IMPLICIT_DIRECTORY]
      ensures Order(other.Fields()) == Order(Fields())
    {
      var entries, out := ExportSnapshot();
      SnapshotRoundTrip(Fields(), entries, out);
      var r := other.LoadSnapshot(entries);
    }
  }
}
