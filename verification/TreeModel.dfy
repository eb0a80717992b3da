/**
 * The representation of the metadata tree as plain values: a vector of nodes
 * linked by indices, and what it means for that vector, the two child indexes
 * and the ghost views of them to agree.
 */
module TreeModel {
  import opened Types
  import opened PathMap

  /** kInvalidNode. */
  const NIL: int := -1

  /** One slot of the node vector; a slot without a name is free. */
  datatype Node = Node(
    name: Option<Name>, folded: Name, parent: int,
    first: int, last: int, next: int, prev: int, count: int,
    attr: Attributes)

  const BLANK := Node(None, [], NIL, NIL, NIL, NIL, NIL, 0, Attributes(0, 0, 0, File))

  type Key = (int, Name)

  predicate Live(nodes: seq<Node>, i: int) {
    0 <= i < |nodes| && nodes[i].name.Some?
  }

  predicate Distinct(ks: seq<int>) {
    forall j, k :: 0 <= j < k < |ks| ==> ks[j] != ks[k]
  }

  /** `ks` without its first occurrence of `c`. */
  function Without(ks: seq<int>, c: int): seq<int> {
    if ks == [] then [] else if ks[0] == c then ks[1..] else [ks[0]] + Without(ks[1..], c)
  }

  lemma {:induction false} WithoutAbsent(ks: seq<int>, c: int)
    requires c !in ks
    ensures Without(ks, c) == ks
  {
    if ks != [] {
      WithoutAbsent(ks[1..], c);
      assert ks == [ks[0]] + ks[1..];
    }
  }

  lemma {:induction false} WithoutAt(ks: seq<int>, k: nat)
    requires k < |ks| && Distinct(ks)
    ensures Without(ks, ks[k]) == ks[..k] + ks[k + 1..]
  {
    if k == 0 {
      assert ks[..0] + ks[1..] == ks[1..];
    } else {
      assert ks[1..][k - 1] == ks[k];
      WithoutAt(ks[1..], k - 1);
      assert ks[1..][..k - 1] == ks[1..k] && ks[1..][k..] == ks[k + 1..];
      assert ks[..k] == [ks[0]] + ks[1..k];
    }
  }

  lemma {:induction false} WithoutFacts(ks: seq<int>, c: int)
    requires Distinct(ks)
    ensures Distinct(Without(ks, c))
    ensures c !in Without(ks, c)
    ensures forall x :: x in Without(ks, c) <==> x in ks && x != c
  {
    if c in ks {
      var k :| 0 <= k < |ks| && ks[k] == c;
      WithoutAt(ks, k);
      var w := ks[..k] + ks[k + 1..];
      assert forall x :: x in w <==> x in ks[..k] || x in ks[k + 1..];
    } else {
      WithoutAbsent(ks, c);
    }
  }

  /** The children of `p`, as its pointers and theirs record them, are exactly `ks` in order. */
  ghost predicate Siblings(nodes: seq<Node>, p: int, ks: seq<int>)
    requires 0 <= p < |nodes|
  {
    && nodes[p].first == (if ks == [] then NIL else ks[0])
    && nodes[p].last == (if ks == [] then NIL else ks[|ks| - 1])
    && nodes[p].count == |ks|
    && Distinct(ks)
    && forall k :: 0 <= k < |ks| ==> SiblingAt(nodes, p, ks, k)
  }

  ghost predicate SiblingAt(nodes: seq<Node>, p: int, ks: seq<int>, k: int)
    requires 0 <= k < |ks|
  {
    && Live(nodes, ks[k])
    && nodes[ks[k]].parent == p
    && nodes[ks[k]].prev == (if k == 0 then NIL else ks[k - 1])
    && nodes[ks[k]].next == (if k == |ks| - 1 then NIL else ks[k + 1])
  }

  /** Slot `p` and its children agree; only a directory has any. */
  ghost predicate SlotOk(nodes: seq<Node>, kids: seq<seq<int>>, p: int)
    requires 0 <= p < |nodes| == |kids|
  {
    if Live(nodes, p)
    then Siblings(nodes, p, kids[p]) && (kids[p] != [] ==> nodes[p].attr.kind.Directory?)
    else kids[p] == []
  }

  ghost predicate AttachedAt(nodes: seq<Node>, kids: seq<seq<int>>, i: int)
    requires Live(nodes, i) && |kids| == |nodes|
  {
    Live(nodes, nodes[i].parent) && i in kids[nodes[i].parent]
  }

  /** Sibling lists, parent links and liveness agree; nodes in `det` are in no list. */
  ghost predicate Shape(nodes: seq<Node>, kids: seq<seq<int>>, det: set<int>) {
    && |kids| == |nodes|
    && Live(nodes, 0) && nodes[0].parent == NIL && 0 !in det
    && (forall p {:trigger SlotOk(nodes, kids, p)} :: 0 <= p < |nodes| ==> SlotOk(nodes, kids, p))
    && (forall i {:trigger AttachedAt(nodes, kids, i)} :: Live(nodes, i) && i != 0 && i !in det ==> AttachedAt(nodes, kids, i))
    && (forall c :: c in det && Live(nodes, c) && 0 <= nodes[c].parent < |nodes| ==> c !in kids[nodes[c].parent])
  }

  /** A listed child is live, has that parent, and is not detached. */
  lemma Listed(nodes: seq<Node>, kids: seq<seq<int>>, det: set<int>, p: int, c: int)
    requires Shape(nodes, kids, det) && 0 <= p < |nodes| && c in kids[p]
    ensures Live(nodes, p) && Live(nodes, c) && nodes[c].parent == p && c !in det && c != 0
  {
    assert SlotOk(nodes, kids, p);
    var k :| 0 <= k < |kids[p]| && kids[p][k] == c;
    assert SiblingAt(nodes, p, kids[p], k);
  }

  /** What `unlink_child(c)` leaves in slot `i`. */
  function UnlinkedNode(nodes: seq<Node>, c: int, i: int): Node
    requires 0 <= c < |nodes| && 0 <= i < |nodes|
  {
    var n, x := nodes[c], nodes[i];
    x.(next := if i == c then NIL else if i == n.prev then n.next else x.next,
       prev := if i == c then NIL else if i == n.next then n.prev else x.prev,
       first := if i == n.parent && n.prev == NIL then n.next else x.first,
       last := if i == n.parent && n.next == NIL then n.prev else x.last,
       count := if i == n.parent then x.count - 1 else x.count)
  }

  /** What `link_child(p, c)` leaves in slot `i`. */
  function LinkedNode(nodes: seq<Node>, p: int, c: int, i: int): Node
    requires 0 <= p < |nodes| && 0 <= c < |nodes| && 0 <= i < |nodes|
  {
    var n, x := nodes[p], nodes[i];
    x.(parent := if i == c then p else x.parent,
       next := if i == c then NIL else if i == n.last then c else x.next,
       prev := if i == c then n.last else x.prev,
       first := if i == p && n.last == NIL then c else x.first,
       last := if i == p then c else x.last,
       count := if i == p then x.count + 1 else x.count)
  }

  /** The vector after `unlink_child(c)`. */
  ghost predicate UnlinkStep(nodes: seq<Node>, nodes': seq<Node>, c: int)
    requires 0 <= c < |nodes| == |nodes'|
  {
    forall i {:trigger nodes'[i]} :: 0 <= i < |nodes| ==> nodes'[i] == UnlinkedNode(nodes, c, i)
  }

  /** The vector after `link_child(p, c)`. */
  ghost predicate LinkStep(nodes: seq<Node>, nodes': seq<Node>, p: int, c: int)
    requires 0 <= p < |nodes| == |nodes'| && 0 <= c < |nodes|
  {
    forall i {:trigger nodes'[i]} :: 0 <= i < |nodes| ==> nodes'[i] == LinkedNode(nodes, p, c, i)
  }

  /** The list of the parent loses exactly `ks[k]`. */
  lemma UnlinkList(nodes: seq<Node>, nodes': seq<Node>, p: int, ks: seq<int>, k: nat)
    requires 0 <= p < |nodes| == |nodes'| && k < |ks| && Siblings(nodes, p, ks)
    requires 0 <= ks[k] < |nodes|
    requires UnlinkStep(nodes, nodes', ks[k])
    ensures Siblings(nodes', p, ks[..k] + ks[k + 1..])
  {
    var w := ks[..k] + ks[k + 1..];
    assert SiblingAt(nodes, p, ks, k);
    assert k > 0 ==> SiblingAt(nodes, p, ks, k - 1);
    assert k < |ks| - 1 ==> SiblingAt(nodes, p, ks, k + 1);
    forall j | 0 <= j < |w| ensures SiblingAt(nodes', p, w, j) {
      var o := if j < k then j else j + 1;
      assert w[j] == ks[o];
      assert SiblingAt(nodes, p, ks, o);
    }
  }

  /** Any other list is untouched by an unlink. */
  lemma UnlinkFrame(nodes: seq<Node>, nodes': seq<Node>, c: int, p: int, ks: seq<int>)
    requires 0 <= p < |nodes| == |nodes'| && 0 <= c < |nodes| && Siblings(nodes, p, ks)
    requires p != nodes[c].parent
    requires nodes[c].prev != NIL ==> Live(nodes, nodes[c].prev) && nodes[nodes[c].prev].parent == nodes[c].parent
    requires nodes[c].next != NIL ==> Live(nodes, nodes[c].next) && nodes[nodes[c].next].parent == nodes[c].parent
    requires UnlinkStep(nodes, nodes', c)
    ensures Siblings(nodes', p, ks)
  {
    forall j | 0 <= j < |ks| ensures SiblingAt(nodes', p, ks, j) {
      assert SiblingAt(nodes, p, ks, j);
    }
  }

  lemma Neighbours(nodes: seq<Node>, p: int, ks: seq<int>, k: nat)
    requires 0 <= p < |nodes| && Siblings(nodes, p, ks) && k < |ks|
    ensures Live(nodes, ks[k]) && nodes[ks[k]].parent == p
    ensures var n := nodes[ks[k]];
            && (n.prev != NIL ==> Live(nodes, n.prev) && nodes[n.prev].parent == p && n.prev != ks[k])
            && (n.next != NIL ==> Live(nodes, n.next) && nodes[n.next].parent == p && n.next != ks[k])
  {
    assert SiblingAt(nodes, p, ks, k);
    assert k > 0 ==> SiblingAt(nodes, p, ks, k - 1);
    assert k < |ks| - 1 ==> SiblingAt(nodes, p, ks, k + 1);
  }

  lemma UnlinkSlots(nodes: seq<Node>, nodes': seq<Node>, kids: seq<seq<int>>, kids': seq<seq<int>>,
                    det: set<int>, p: int, k: nat)
    requires Shape(nodes, kids, det) && Live(nodes, p) && k < |kids[p]|
    requires 0 <= kids[p][k] < |nodes| == |nodes'|
    requires UnlinkStep(nodes, nodes', kids[p][k])
    requires kids' == kids[p := kids[p][..k] + kids[p][k + 1..]]
    ensures forall q :: 0 <= q < |nodes'| ==> SlotOk(nodes', kids', q)
  {
    var ks := kids[p];
    assert SlotOk(nodes, kids, p);
    UnlinkList(nodes, nodes', p, ks, k);
    Neighbours(nodes, p, ks, k);
    forall q | 0 <= q < |nodes'| ensures SlotOk(nodes', kids', q) {
      assert SlotOk(nodes, kids, q);
      if Live(nodes, q) && q != p {
        UnlinkFrame(nodes, nodes', ks[k], q, kids[q]);
      }
    }
  }

  /** unlink_child takes one attached node out of its parent's list. */
  lemma {:induction false} UnlinkKeeps(nodes: seq<Node>, nodes': seq<Node>, kids: seq<seq<int>>, det: set<int>, c: int)
    requires Shape(nodes, kids, det) && Live(nodes, c) && c != 0 && c !in det
    requires |nodes'| == |nodes|
    requires UnlinkStep(nodes, nodes', c)
    ensures Live(nodes, nodes[c].parent) && c in kids[nodes[c].parent]
    ensures Shape(nodes', kids[nodes[c].parent := Without(kids[nodes[c].parent], c)], det + {c})
  {
    var p := nodes[c].parent;
    assert AttachedAt(nodes, kids, c);
    assert SlotOk(nodes, kids, p);
    var k :| 0 <= k < |kids[p]| && kids[p][k] == c;
    WithoutAt(kids[p], k);
    WithoutFacts(kids[p], c);
    var kids' := kids[p := Without(kids[p], c)];
    UnlinkSlots(nodes, nodes', kids, kids', det, p, k);
    forall i | Live(nodes', i) && i != 0 && i !in det + {c} ensures AttachedAt(nodes', kids', i) {
      assert AttachedAt(nodes, kids, i);
    }
  }

  lemma LinkList(nodes: seq<Node>, nodes': seq<Node>, p: int, c: int, ks: seq<int>)
    requires 0 <= p < |nodes| == |nodes'| && Siblings(nodes, p, ks) && Live(nodes, c) && c !in ks
    requires LinkStep(nodes, nodes', p, c)
    ensures Siblings(nodes', p, ks + [c])
  {
    var w := ks + [c];
    assert ks != [] ==> SiblingAt(nodes, p, ks, |ks| - 1);
    forall j | 0 <= j < |w| ensures SiblingAt(nodes', p, w, j) {
      if j < |ks| {
        assert SiblingAt(nodes, p, ks, j);
      }
    }
  }

  lemma LinkFrame(nodes: seq<Node>, nodes': seq<Node>, p: int, c: int, q: int, ks: seq<int>)
    requires 0 <= p < |nodes| == |nodes'| && 0 <= q < |nodes| && 0 <= c < |nodes|
    requires Siblings(nodes, q, ks) && q != p && c !in ks
    requires nodes[p].last != NIL ==> Live(nodes, nodes[p].last) && nodes[nodes[p].last].parent == p
    requires LinkStep(nodes, nodes', p, c)
    ensures Siblings(nodes', q, ks)
  {
    forall j | 0 <= j < |ks| ensures SiblingAt(nodes', q, ks, j) {
      assert SiblingAt(nodes, q, ks, j);
    }
  }

  /** link_child appends one detached node to a directory's list. */
  lemma LinkKeeps(nodes: seq<Node>, nodes': seq<Node>, kids: seq<seq<int>>, det: set<int>, p: int, c: int)
    requires Shape(nodes, kids, det) && c in det && Live(nodes, c) && Live(nodes, p) && p != c
    requires nodes[p].attr.kind.Directory?
    requires |nodes'| == |nodes|
    requires LinkStep(nodes, nodes', p, c)
    ensures Shape(nodes', kids[p := kids[p] + [c]], det - {c})
  {
    var ks := kids[p];
    assert SlotOk(nodes, kids, p);
    assert ks != [] ==> SiblingAt(nodes, p, ks, |ks| - 1);
    forall q | 0 <= q < |nodes| ensures c !in kids[q] {
      if c in kids[q] {
        Listed(nodes, kids, det, q, c);
      }
    }
    LinkList(nodes, nodes', p, c, ks);
    var kids' := kids[p := ks + [c]];
    forall q | 0 <= q < |nodes'| ensures SlotOk(nodes', kids', q) {
      assert SlotOk(nodes, kids, q);
      if Live(nodes, q) && q != p {
        LinkFrame(nodes, nodes', p, c, q, kids[q]);
      }
    }
    forall i | Live(nodes', i) && i != 0 && i !in det - {c} ensures AttachedAt(nodes', kids', i) {
      if i != c {
        assert AttachedAt(nodes, kids, i);
      }
    }
  }

  /** Giving up a detached, childless slot. */
  lemma FreeKeeps(nodes: seq<Node>, kids: seq<seq<int>>, det: set<int>, c: int)
    requires Shape(nodes, kids, det) && c in det && Live(nodes, c) && kids[c] == []
    ensures Shape(nodes[c := nodes[c].(name := None)], kids, det - {c})
  {
    var nodes' := nodes[c := nodes[c].(name := None)];
    forall q | 0 <= q < |nodes'| ensures SlotOk(nodes', kids, q) {
      assert SlotOk(nodes, kids, q);
      if Live(nodes', q) {
        forall k | 0 <= k < |kids[q]| ensures SiblingAt(nodes', q, kids[q], k) {
          assert SiblingAt(nodes, q, kids[q], k);
          Listed(nodes, kids, det, q, kids[q][k]);
        }
      }
    }
    forall i | Live(nodes', i) && i != 0 && i !in det - {c} ensures AttachedAt(nodes', kids, i) {
      assert AttachedAt(nodes, kids, i);
    }
  }

  /** A fresh slot that has been named but not linked yet. */
  lemma FreshKeeps(nodes: seq<Node>, nodes': seq<Node>, kids: seq<seq<int>>, kids': seq<seq<int>>, c: int)
    requires Shape(nodes, kids, {})
    requires 0 <= c < |nodes'| && !Live(nodes, c) && |nodes| <= |nodes'| == |kids'| && |nodes'| <= |nodes| + 1
    requires |nodes'| > |nodes| ==> c == |nodes|
    requires forall i :: 0 <= i < |nodes| && i != c ==> nodes'[i] == nodes[i] && kids'[i] == kids[i]
    requires kids'[c] == [] && nodes'[c].name.Some?
    requires nodes'[c].first == nodes'[c].last == nodes'[c].parent == NIL && nodes'[c].count == 0
    ensures Shape(nodes', kids', {c})
  {
    forall q | 0 <= q < |nodes'| ensures SlotOk(nodes', kids', q) {
      if q != c {
        assert SlotOk(nodes, kids, q);
        forall k | Live(nodes', q) && 0 <= k < |kids'[q]| ensures SiblingAt(nodes', q, kids'[q], k) {
          assert SiblingAt(nodes, q, kids[q], k);
        }
      }
    }
    forall i | Live(nodes', i) && i != 0 && i !in {c} ensures AttachedAt(nodes', kids', i) {
      assert AttachedAt(nodes, kids, i);
      Listed(nodes, kids, {}, nodes[i].parent, i);
    }
  }

  /** An attached node's pointers are in range, as unlink_child relies on. */
  lemma LinkedUp(nodes: seq<Node>, kids: seq<seq<int>>, det: set<int>, c: int)
    requires Shape(nodes, kids, det) && Live(nodes, c) && c != 0 && c !in det
    ensures Live(nodes, nodes[c].parent) && c in kids[nodes[c].parent]
    ensures var n := nodes[c];
            && (n.prev == NIL || (0 <= n.prev < |nodes| && n.prev != c))
            && (n.next == NIL || (0 <= n.next < |nodes| && n.next != c))
  {
    assert AttachedAt(nodes, kids, c);
    var p := nodes[c].parent;
    assert SlotOk(nodes, kids, p);
    var k :| 0 <= k < |kids[p]| && kids[p][k] == c;
    Neighbours(nodes, p, kids[p], k);
  }

  lemma Childless(nodes: seq<Node>, kids: seq<seq<int>>, det: set<int>, p: int)
    requires Shape(nodes, kids, det) && Live(nodes, p)
    ensures nodes[p].first == NIL <==> kids[p] == []
  {
    assert SlotOk(nodes, kids, p);
    assert kids[p] != [] ==> SiblingAt(nodes, p, kids[p], 0);
  }

  /** The last child, as link_child relies on it. */
  lemma LastChild(nodes: seq<Node>, kids: seq<seq<int>>, det: set<int>, p: int)
    requires Shape(nodes, kids, det) && Live(nodes, p)
    ensures nodes[p].last == NIL || (Live(nodes, nodes[p].last) && nodes[p].last !in det)
  {
    assert SlotOk(nodes, kids, p);
    if kids[p] != [] {
      Listed(nodes, kids, det, p, kids[p][|kids[p]| - 1]);
    }
  }
}
