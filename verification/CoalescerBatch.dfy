/** Turning the pending entries into a batch: pruning below removed directories, and repairing moves. */
module CoalescerBatch {
  import opened Types
  import opened Path
  import opened CoalescerEvents

  // --- byte order -------------------------------------------------------------------------

  predicate Less(a: Name, b: Name) {
    b != [] && (a == [] || a[0] < b[0] || (a[0] == b[0] && Less(a[1..], b[1..])))
  }

  lemma {:induction false} LessTotal(a: Name, b: Name)
    ensures Less(a, b) || a == b || Less(b, a)
    ensures !(Less(a, b) && Less(b, a)) && !Less(a, a)
  {
    if a != [] && b != [] {
      LessTotal(a[1..], b[1..]);
      if a[0] == b[0] && a[1..] == b[1..] {
        assert a == [a[0]] + a[1..] && b == [b[0]] + b[1..];
      }
    }
    if a != [] {
      LessTotal(a[1..], a[1..]);
    }
  }

  lemma {:induction false} LessTrans(a: Name, b: Name, c: Name)
    requires Less(a, b) && Less(b, c)
    ensures Less(a, c)
  {
    if a != [] && a[0] == b[0] && b[0] == c[0] {
      LessTrans(a[1..], b[1..], c[1..]);
    }
  }

  /** Whatever sorts between a name and one that extends it extends it too. */
  lemma {:induction false} Between(a: Name, y: Name, x: Name)
    requires a <= x && Less(a, y) && Less(y, x)
    ensures a < y && (|a| < |x| ==> y[|a|] <= x[|a|])
  {
    if a != [] {
      assert x[0] == a[0];
      assert y[0] == a[0];
      assert a[1..] <= x[1..];
      Between(a[1..], y[1..], x[1..]);
      assert y[1..][|a| - 1] == y[|a|];
      assert |a| < |x| ==> x[1..][|a| - 1] == x[|a|];
    }
  }

  lemma UnderTrans(a: Name, b: Name, c: Name)
    requires IsUnder(a, b) && IsUnder(b, c)
    ensures IsUnder(a, c)
  {
  }

  // --- sorting ----------------------------------------------------------------------------

  predicate ByPath(items: seq<Item>) {
    forall i, j :: 0 <= i < j < |items| ==> Less(items[i].path, items[j].path)
  }

  predicate ByOrder(items: seq<Item>) {
    forall i, j :: 0 <= i < j < |items| ==> items[i].entry.order < items[j].entry.order
  }

  /** The items are exactly the entries of `pending`. */
  predicate Lists(items: seq<Item>, pending: map<Name, Entry>) {
    && (forall k :: 0 <= k < |items| ==> items[k].path in pending && pending[items[k].path] == items[k].entry)
    && (forall p :: p in pending ==> Item(p, pending[p]) in items)
  }

  /** Entries carry distinct order numbers. */
  predicate Numbered(pending: map<Name, Entry>) {
    forall p, q :: p in pending && q in pending && p != q ==> pending[p].order != pending[q].order
  }

  // --- pruning ----------------------------------------------------------------------------

  predicate IsRemove(it: Item) {
    it.entry.kind.Remove?
  }

  /** Everything from just after `a` up to `b` lies below `a`, which is removed. */
  predicate Sweeps(items: seq<Item>, a: int, b: int) {
    && 0 <= a <= b < |items| && IsRemove(items[a])
    && forall k :: a < k <= b ==> IsUnder(items[k].path, items[a].path)
  }

  /** No earlier removal sweeps `a`. */
  predicate Outermost(items: seq<Item>, a: int) {
    forall c :: 0 <= c < a ==> !Sweeps(items, c, a)
  }

  /** `b` is swept by an outermost removal that came after it. */
  predicate Dropped(items: seq<Item>, b: int) {
    exists a {:trigger Sweeps(items, a, b)} :: 0 <= a < b < |items| && Outermost(items, a) && Sweeps(items, a, b)
                                               && items[b].entry.order <= items[a].entry.order
  }

  ghost function Kept(items: seq<Item>, n: nat): seq<Item>
    requires n <= |items|
  {
    if n == 0 then [] else Kept(items, n - 1) + if Dropped(items, n - 1) then [] else [items[n - 1]]
  }

  /** Only one outermost removal sweeps any given place. */
  lemma OneSweep(items: seq<Item>, a: int, c: int, b: int)
    requires Outermost(items, a) && Outermost(items, c) && Sweeps(items, a, b) && Sweeps(items, c, b) && a < b && c < b
    ensures a == c
  {
    if a < c {
      assert Sweeps(items, a, c);
    } else if c < a {
      assert Sweeps(items, c, a);
    }
  }

  /** Walks over everything below a removal, keeping what came after it. */
  method Sweep(items: seq<Item>, i: nat, before: seq<Item>) returns (j: nat, kept: seq<Item>)
    requires i < |items| && IsRemove(items[i]) && Outermost(items, i) && before == Kept(items, i + 1)
    ensures i < j <= |items| && Sweeps(items, i, j - 1) && (j < |items| ==> !IsUnder(items[j].path, items[i].path))
    ensures kept == Kept(items, j)
  {
    j, kept := i + 1, before;
    while j < |items| && IsUnder(items[j].path, items[i].path)
      invariant i < j <= |items|
      invariant Sweeps(items, i, j - 1)
      invariant kept == Kept(items, j)
    {
      SweptDropped(items, i, j);
      if items[j].entry.order > items[i].entry.order {
        kept := kept + [items[j]];
      }
      j := j + 1;
    }
  }

  /** The pruning pass of take. */
  method Prune(items: seq<Item>) returns (kept: seq<Item>)
    ensures kept == Kept(items, |items|)
  {
    kept := [];
    var i := 0;
    while i < |items|
      invariant 0 <= i <= |items|
      invariant kept == Kept(items, i)
      invariant i < |items| ==> Outermost(items, i)
    {
      NotDropped(items, i);
      kept := kept + [items[i]];
      if !IsRemove(items[i]) {
        NextOutermost(items, i, i + 1);
        i := i + 1;
      } else {
        var j, more := Sweep(items, i, kept);
        NextOutermost(items, i, j);
        i, kept := j, more;
      }
    }
  }

  lemma NotDropped(items: seq<Item>, b: int)
    requires 0 <= b < |items| && Outermost(items, b)
    ensures !Dropped(items, b)
  {
  }

  lemma SweptDropped(items: seq<Item>, a: int, b: int)
    requires 0 <= a < b < |items| && Outermost(items, a) && Sweeps(items, a, b - 1) && IsUnder(items[b].path, items[a].path)
    ensures Sweeps(items, a, b)
    ensures Dropped(items, b) <==> items[b].entry.order <= items[a].entry.order
  {
    assert Sweeps(items, a, b);
    if Dropped(items, b) {
      var c :| 0 <= c < b < |items| && Outermost(items, c) && Sweeps(items, c, b)
               && items[b].entry.order <= items[c].entry.order;
      OneSweep(items, a, c, b);
    }
  }

  /** Where a sweep from an outermost place stops, the next outermost place begins. */
  lemma NextOutermost(items: seq<Item>, a: int, b: int)
    requires 0 <= a < b <= |items| && Outermost(items, a)
    requires if IsRemove(items[a]) then Sweeps(items, a, b - 1) && (b < |items| ==> !IsUnder(items[b].path, items[a].path))
             else b == a + 1
    ensures b < |items| ==> Outermost(items, b)
  {
    if b < |items| {
      forall c | 0 <= c < b ensures !Sweeps(items, c, b) {
        if Sweeps(items, c, b) {
          if c < a {
            assert Sweeps(items, c, a);
          } else if c > a {
            UnderTrans(items[b].path, items[c].path, items[a].path);
          }
        }
      }
    }
  }

  lemma {:induction false} KeptHas(items: seq<Item>, n: nat, k: nat)
    requires k < n <= |items| && !Dropped(items, k)
    ensures items[k] in Kept(items, n)
    decreases n
  {
    if k < n - 1 {
      KeptHas(items, n - 1, k);
    }
  }

  lemma {:induction false} KeptFrom(items: seq<Item>, n: nat, it: Item) returns (k: nat)
    requires n <= |items| && it in Kept(items, n)
    ensures k < n && items[k] == it && !Dropped(items, k)
  {
    if it in Kept(items, n - 1) {
      k := KeptFrom(items, n - 1, it);
    } else {
      k := n - 1;
    }
  }

  /** Pruning keeps what it keeps in order, and only drops. */
  lemma {:induction false} KeptByPath(items: seq<Item>, n: nat)
    requires n <= |items| && ByPath(items)
    ensures ByPath(Kept(items, n))
    ensures forall k :: 0 <= k < |Kept(items, n)| ==> exists i :: 0 <= i < n && items[i] == Kept(items, n)[k]
  {
    if n > 0 {
      KeptByPath(items, n - 1);
    }
  }

  /** Whatever is dropped lies below a removal that is kept and came later. */
  lemma DroppedCovered(items: seq<Item>, b: int) returns (a: int)
    requires Dropped(items, b)
    ensures 0 <= a < b < |items| && IsRemove(items[a]) && !Dropped(items, a)
    ensures IsUnder(items[b].path, items[a].path) && items[b].entry.order <= items[a].entry.order
  {
    a :| 0 <= a < b < |items| && Outermost(items, a) && Sweeps(items, a, b)
         && items[b].entry.order <= items[a].entry.order;
    NotDropped(items, a);
  }

  /** A name that sorts between a directory and what is below it. */
  predicate Intrudes(items: seq<Item>, a: int)
    requires 0 <= a < |items|
  {
    && items[a].path != []
    && exists k :: 0 <= k < |items| && items[a].path < items[k].path && items[k].path[|items[a].path|] < SLASH
  }

  lemma PrefixOrEqual(a: Name, x: Name)
    requires a <= x
    ensures x == a || |a| < |x|
  {
  }

  lemma {:induction false} ExtensionsDiffer(a: Name, x: Name, y: Name)
    requires a < x && a < y && x[|a|] < y[|a|]
    ensures Less(a, x) && Less(x, y)
  {
    if a != [] {
      ExtensionsDiffer(a[1..], x[1..], y[1..]);
    }
  }

  lemma SortedPosition(items: seq<Item>, i: int, j: int)
    requires ByPath(items) && 0 <= i < |items| && 0 <= j < |items| && Less(items[i].path, items[j].path)
    ensures i < j
  {
    LessTotal(items[i].path, items[j].path);
  }

  /** Without intruders a removal sweeps everything below it. */
  lemma SweepsAllBelow(items: seq<Item>, a: int, b: int)
    requires ByPath(items) && 0 <= a < b < |items| && IsRemove(items[a])
    requires IsUnder(items[b].path, items[a].path) && !Intrudes(items, a)
    ensures Sweeps(items, a, b)
  {
    var dir := items[a].path;
    forall k | a < k <= b ensures IsUnder(items[k].path, dir) {
      if k < b && dir != [] {
        LessTotal(dir, dir);
        assert Less(dir, items[b].path);
        PrefixOrEqual(dir, items[b].path);
        Between(dir, items[k].path, items[b].path);
        assert dir < items[k].path && items[k].path[|dir|] >= SLASH;
      }
    }
  }

  /** An intruder sits between the removal and everything below it. */
  lemma IntruderBetween(items: seq<Item>, a: int, b: int) returns (k: int)
    requires ByPath(items) && 0 <= a < b < |items| && IsUnder(items[b].path, items[a].path) && Intrudes(items, a)
    ensures a < k < b && !IsUnder(items[k].path, items[a].path)
  {
    var dir := items[a].path;
    k :| 0 <= k < |items| && dir < items[k].path && items[k].path[|dir|] < SLASH;
    LessTotal(dir, dir);
    assert Less(dir, items[b].path);
    PrefixOrEqual(dir, items[b].path);
    ExtensionsDiffer(dir, items[k].path, items[b].path);
    SortedPosition(items, a, k);
    SortedPosition(items, k, b);
  }

  /** A removal sweeps what is below it exactly when no name intrudes. */
  lemma SweepsIff(items: seq<Item>, a: int, b: int)
    requires ByPath(items) && 0 <= a < b < |items| && IsRemove(items[a]) && IsUnder(items[b].path, items[a].path)
    ensures Sweeps(items, a, b) <==> !Intrudes(items, a)
  {
    if Intrudes(items, a) {
      var k := IntruderBetween(items, a, b);
      assert a < k <= b;
    } else {
      SweepsAllBelow(items, a, b);
    }
  }

  /** An outermost removal above `b`, newer than `b`, next to whose path no name intrudes. */
  predicate Prunes(items: seq<Item>, a: int, b: int) {
    && 0 <= a < b < |items| && IsRemove(items[a]) && Outermost(items, a) && !Intrudes(items, a)
    && IsUnder(items[b].path, items[a].path) && items[b].entry.order <= items[a].entry.order
  }

  /** An older event below a removed directory is dropped exactly when some removal above it has no intruder. */
  lemma PrunedBelow(items: seq<Item>, b: int)
    requires ByPath(items)
    ensures Dropped(items, b) <==> exists a :: Prunes(items, a, b)
  {
    if Dropped(items, b) {
      var a :| 0 <= a < b < |items| && Outermost(items, a) && Sweeps(items, a, b) && items[b].entry.order <= items[a].entry.order;
      SweepsIff(items, a, b);
      assert Prunes(items, a, b);
    }
    if a :| Prunes(items, a, b) {
      SweepsIff(items, a, b);
    }
  }

  /** `d-x` sorts between `d` and `d/a`, and then the older event on `d/a` stays in the batch. */
  lemma IntruderStopsPruning() returns (items: seq<Item>)
    ensures ByPath(items) && |items| == 3 && IsRemove(items[0]) && Outermost(items, 0)
    ensures IsUnder(items[2].path, items[0].path) && items[2].entry.order < items[0].entry.order
    ensures !Dropped(items, 2)
  {
    var d, dx, da := [100], [100, 45, 120], [100, 47, 97];
    items := [Item(d, Entry(Remove, 3, false, WasRemoved, 0)),
              Item(dx, Entry(Upsert, 2, true, WasCreated, 0)),
              Item(da, Entry(Upsert, 1, false, WasModified, 0))];
    assert Less(d[1..], dx[1..]) && Less(d[1..], da[1..]) && Less(dx[1..], da[1..]);
    assert !Sweeps(items, 0, 2) by {
      assert !IsUnder(items[1].path, items[0].path);
    }
    assert !Sweeps(items, 1, 2);
  }

  // --- effect -----------------------------------------------------------------------------

  /** A mirror keyed by whole paths; `value` is what a stat of each path finds. */
  type Flat = map<Name, Attributes>

  function Without(m: Flat, p: Name): Flat {
    map q | q in m && !IsUnder(q, p) :: m[q]
  }

  function Act(m: Flat, kind: OpKind, p: Name, value: Name -> Attributes): Flat {
    match kind
    case Upsert => m[p := value(p)]
    case Remove => Without(m, p)
    case Rescan => m
  }

  function Replay(m: Flat, items: seq<Item>, value: Name -> Attributes): Flat
    decreases |items|
  {
    if items == [] then m else Replay(Act(m, items[0].entry.kind, items[0].path, value), items[1..], value)
  }

  /** A removal still to come that will wipe `q`. */
  predicate Wiped(items: seq<Item>, q: Name) {
    exists k :: 0 <= k < |items| && IsRemove(items[k]) && IsUnder(q, items[k].path)
  }

  ghost predicate Alike(m: Flat, n: Flat, items: seq<Item>) {
    forall q {:trigger Wiped(items, q)} :: Wiped(items, q) || ((q in m <==> q in n) && (q in m ==> m[q] == n[q]))
  }

  /** Each item left out lies below a removal among `kept` that is younger. */
  ghost predicate Covers(kept: seq<Item>, all: seq<Item>) {
    forall k {:trigger all[k]} :: 0 <= k < |all| && all[k] !in kept ==>
      exists j :: 0 <= j < |kept| && IsRemove(kept[j]) && IsUnder(all[k].path, kept[j].path)
                  && all[k].entry.order < kept[j].entry.order
  }

  predicate Within(kept: seq<Item>, all: seq<Item>) {
    forall k :: 0 <= k < |kept| ==> kept[k] in all
  }

  lemma AlikeDropped(m: Flat, n: Flat, it: Item, kept: seq<Item>, value: Name -> Attributes)
    requires Alike(m, n, kept) && it.entry.kind != Rescan
    requires exists j :: 0 <= j < |kept| && IsRemove(kept[j]) && IsUnder(it.path, kept[j].path)
    ensures Alike(Act(m, it.entry.kind, it.path, value), n, kept)
  {
    var j :| 0 <= j < |kept| && IsRemove(kept[j]) && IsUnder(it.path, kept[j].path);
    var m' := Act(m, it.entry.kind, it.path, value);
    forall q ensures Wiped(kept, q) || ((q in m' <==> q in n) && (q in m' ==> m'[q] == n[q])) {
      assert Wiped(kept, q) || ((q in m <==> q in n) && (q in m ==> m[q] == n[q]));
      if IsUnder(q, it.path) {
        UnderTrans(q, it.path, kept[j].path);
      }
    }
  }

  lemma AlikeKept(m: Flat, n: Flat, kept: seq<Item>, value: Name -> Attributes)
    requires kept != [] && Alike(m, n, kept) && kept[0].entry.kind != Rescan
    ensures Alike(Act(m, kept[0].entry.kind, kept[0].path, value), Act(n, kept[0].entry.kind, kept[0].path, value), kept[1..])
  {
    var rest := kept[1..];
    forall q ensures Wiped(kept, q) ==> Wiped(rest, q) || (IsRemove(kept[0]) && IsUnder(q, kept[0].path)) {
      if Wiped(kept, q) {
        var k :| 0 <= k < |kept| && IsRemove(kept[k]) && IsUnder(q, kept[k].path);
        assert k > 0 ==> rest[k - 1] == kept[k];
      }
    }
  }

  predicate NoRescan(all: seq<Item>) {
    forall k :: 0 <= k < |all| ==> all[k].entry.kind != Rescan
  }

  lemma TailOrdered(all: seq<Item>)
    requires all != [] && ByOrder(all)
    ensures ByOrder(all[1..]) && (NoRescan(all) ==> NoRescan(all[1..]))
  {
    assert forall k :: 0 <= k < |all| - 1 ==> all[1..][k] == all[k + 1];
  }

  lemma HeadKept(all: seq<Item>, kept: seq<Item>)
    requires all != [] && ByOrder(all) && ByOrder(kept) && Within(kept, all) && all[0] in kept
    ensures kept != [] && kept[0] == all[0]
    ensures Within(kept[1..], all[1..])
  {
    var j :| 0 <= j < |kept| && kept[j] == all[0];
    var i :| 0 <= i < |all| && all[i] == kept[0];
    assert all[0].entry.order <= all[i].entry.order;
    assert kept[0].entry.order <= kept[j].entry.order;
    forall k | 0 <= k < |kept[1..]| ensures kept[1..][k] in all[1..] {
      var x :| 0 <= x < |all| && all[x] == kept[k + 1];
      assert kept[0].entry.order < kept[k + 1].entry.order;
      assert all[1..][x - 1] == all[x];
    }
  }

  lemma CoversTail(kept: seq<Item>, all: seq<Item>)
    requires all != [] && kept != [] && kept[0] == all[0] && ByOrder(all) && Covers(kept, all)
    ensures Covers(kept[1..], all[1..])
  {
    var rest, others := kept[1..], all[1..];
    forall k | 0 <= k < |others| && others[k] !in rest
      ensures exists j :: 0 <= j < |rest| && IsRemove(rest[j]) && IsUnder(others[k].path, rest[j].path)
                          && others[k].entry.order < rest[j].entry.order
    {
      assert others[k] == all[k + 1];
      assert all[0].entry.order < all[k + 1].entry.order;
      assert kept == [kept[0]] + rest;
      assert all[k + 1] !in kept;
      var j :| 0 <= j < |kept| && IsRemove(kept[j]) && IsUnder(all[k + 1].path, kept[j].path)
               && all[k + 1].entry.order < kept[j].entry.order;
      assert j > 0;
      assert rest[j - 1] == kept[j];
    }
  }

  lemma HeadDropped(all: seq<Item>, kept: seq<Item>)
    requires all != [] && Within(kept, all) && all[0] !in kept && Covers(kept, all)
    ensures Within(kept, all[1..]) && Covers(kept, all[1..])
  {
    assert all == [all[0]] + all[1..];
    forall k | 0 <= k < |kept| ensures kept[k] in all[1..] {
      assert kept[k] in all;
    }
    forall k | 0 <= k < |all[1..]| && all[1..][k] !in kept
      ensures exists j :: 0 <= j < |kept| && IsRemove(kept[j]) && IsUnder(all[1..][k].path, kept[j].path)
                          && all[1..][k].entry.order < kept[j].entry.order
    {
      assert all[1..][k] == all[k + 1];
    }
  }

  lemma WithinNonempty(kept: seq<Item>, all: seq<Item>)
    requires Within(kept, all) && kept != []
    ensures all != []
  {
    assert kept[0] in all;
  }

  lemma AlikeEqual(m: Flat, n: Flat, kept: seq<Item>)
    requires Alike(m, n, kept) && Within(kept, [])
    ensures m == n && kept == []
  {
    if kept != [] {
      WithinNonempty(kept, []);
    }
    forall q ensures (q in m <==> q in n) && (q in m ==> m[q] == n[q]) {
      assert !Wiped(kept, q);
    }
  }

  /** Leaving out what a younger removal covers does not change what a batch does. */
  lemma {:induction false} SameEffect(m: Flat, n: Flat, all: seq<Item>, kept: seq<Item>, value: Name -> Attributes)
    requires ByOrder(all) && ByOrder(kept) && Within(kept, all) && Covers(kept, all) && Alike(m, n, kept)
    requires NoRescan(all)
    ensures Replay(m, all, value) == Replay(n, kept, value)
    decreases |all|
  {
    if all == [] {
      AlikeEqual(m, n, kept);
    } else {
      var m1 := Act(m, all[0].entry.kind, all[0].path, value);
      TailOrdered(all);
      if all[0] in kept {
        HeadKept(all, kept);
        TailOrdered(kept);
        CoversTail(kept, all);
        AlikeKept(m, n, kept, value);
        SameEffect(m1, Act(n, kept[0].entry.kind, kept[0].path, value), all[1..], kept[1..], value);
      } else {
        HeadDropped(all, kept);
        AlikeDropped(m, n, all[0], kept, value);
        SameEffect(m1, n, all[1..], kept, value);
      }
    }
  }

  // --- batches ----------------------------------------------------------------------------

  /** Entries of one batch: distinct numbers, and nothing but upserts and removals. */
  ghost predicate Wellformed(pending: map<Name, Entry>) {
    Numbered(pending) && forall p :: p in pending ==> pending[p].kind != Rescan
  }

  /** The op speaks for the pending entry of its path. */
  predicate Speaks(pending: map<Name, Entry>, op: PlannedOp) {
    op.path in pending && op.kind == pending[op.path].kind && op.appeared == pending[op.path].appeared
  }

  predicate HasOp(ops: seq<PlannedOp>, p: Name) {
    exists k :: 0 <= k < |ops| && ops[k].path == p
  }

  /** A removal of something above `p` that came after `p`'s own event. */
  predicate RemovedAbove(pending: map<Name, Entry>, ops: seq<PlannedOp>, p: Name)
    requires p in pending && forall k :: 0 <= k < |ops| ==> ops[k].path in pending
  {
    exists k :: 0 <= k < |ops| && ops[k].kind.Remove? && IsUnder(p, ops[k].path)
                && pending[p].order < pending[ops[k].path].order
  }

  /**
   * In arrival order of each path's last event, every pending path has its own op or a
   * younger removal above it.
   */
  ghost predicate IsBatch(pending: map<Name, Entry>, ops: seq<PlannedOp>) {
    && (forall k {:trigger ops[k]} :: 0 <= k < |ops| ==> Speaks(pending, ops[k]))
    && (forall i, j :: 0 <= i < j < |ops| ==> pending[ops[i].path].order < pending[ops[j].path].order)
    && (forall p {:trigger HasOp(ops, p)} :: p in pending ==> HasOp(ops, p) || RemovedAbove(pending, ops, p))
  }

  function ItemsOf(pending: map<Name, Entry>, ops: seq<PlannedOp>): seq<Item>
    requires forall k :: 0 <= k < |ops| ==> ops[k].path in pending
  {
    seq(|ops|, k requires 0 <= k < |ops| => Item(ops[k].path, pending[ops[k].path]))
  }

  /** Applying a batch to a mirror does what applying every pending entry in order would do. */
  lemma {:induction false} BatchEffect(pending: map<Name, Entry>, ops: seq<PlannedOp>, all: seq<Item>, m: Flat, value: Name -> Attributes)
    requires Wellformed(pending) && IsBatch(pending, ops) && Lists(all, pending) && ByOrder(all)
    ensures Replay(m, all, value) == Replay(m, ItemsOf(pending, ops), value)
  {
    var kept := ItemsOf(pending, ops);
    BatchCovers(pending, ops, all);
    assert Alike(m, m, kept);
    SameEffect(m, m, all, kept, value);
  }

  lemma OpListed(pending: map<Name, Entry>, ops: seq<PlannedOp>, p: Name)
    requires (forall k :: 0 <= k < |ops| ==> ops[k].path in pending) && HasOp(ops, p)
    ensures p in pending && Item(p, pending[p]) in ItemsOf(pending, ops)
  {
    var j :| 0 <= j < |ops| && ops[j].path == p;
    assert ItemsOf(pending, ops)[j] == Item(p, pending[p]);
  }

  lemma BatchCovers(pending: map<Name, Entry>, ops: seq<PlannedOp>, all: seq<Item>)
    requires Wellformed(pending) && IsBatch(pending, ops) && Lists(all, pending)
    ensures Within(ItemsOf(pending, ops), all) && ByOrder(ItemsOf(pending, ops)) && Covers(ItemsOf(pending, ops), all)
    ensures NoRescan(all)
  {
    var kept := ItemsOf(pending, ops);
    forall k | 0 <= k < |all| && all[k] !in kept
      ensures exists j :: 0 <= j < |kept| && IsRemove(kept[j]) && IsUnder(all[k].path, kept[j].path)
                          && all[k].entry.order < kept[j].entry.order
    {
      var p := all[k].path;
      if HasOp(ops, p) {
        OpListed(pending, ops, p);
      }
      assert RemovedAbove(pending, ops, p);
      var j :| 0 <= j < |ops| && ops[j].kind.Remove? && IsUnder(p, ops[j].path)
               && pending[p].order < pending[ops[j].path].order;
      assert kept[j] == Item(ops[j].path, pending[ops[j].path]);
    }
  }

  // --- sorting ----------------------------------------------------------------------------

  ghost predicate SameItems(a: seq<Item>, b: seq<Item>) {
    |a| == |b| && (forall x :: x in a <==> x in b)
  }

  method InsertByPath(sorted: seq<Item>, it: Item) returns (r: seq<Item>)
    requires ByPath(sorted) && forall k :: 0 <= k < |sorted| ==> sorted[k].path != it.path
    ensures ByPath(r) && SameItems(r, [it] + sorted)
  {
    var i := 0;
    while i < |sorted| && Less(sorted[i].path, it.path)
      invariant 0 <= i <= |sorted|
      invariant forall k :: 0 <= k < i ==> Less(sorted[k].path, it.path)
    {
      i := i + 1;
    }
    r := sorted[..i] + [it] + sorted[i..];
    ghost var n := i;
    if n < |sorted| {
      LessTotal(sorted[n].path, it.path);
      forall k | n < k < |sorted| ensures Less(it.path, sorted[k].path) {
        LessTrans(it.path, sorted[n].path, sorted[k].path);
      }
    }
    assert sorted == sorted[..n] + sorted[n..];
  }

  /** Stands for std::sort by path: the keys are distinct, so the result is determined. */
  method SortByPath(items: seq<Item>) returns (sorted: seq<Item>)
    requires forall i, j :: 0 <= i < j < |items| ==> items[i].path != items[j].path
    ensures ByPath(sorted) && SameItems(sorted, items)
  {
    sorted := [];
    for i := 0 to |items|
      invariant ByPath(sorted) && SameItems(sorted, items[..i])
    {
      assert forall k :: 0 <= k < |sorted| ==> sorted[k] in items[..i];
      sorted := InsertByPath(sorted, items[i]);
      assert items[..i + 1] == items[..i] + [items[i]];
    }
    assert items[..|items|] == items;
  }

  method InsertByOrder(sorted: seq<Item>, it: Item) returns (r: seq<Item>)
    requires ByOrder(sorted) && forall k :: 0 <= k < |sorted| ==> sorted[k].entry.order != it.entry.order
    ensures ByOrder(r) && SameItems(r, [it] + sorted)
  {
    var i := 0;
    while i < |sorted| && sorted[i].entry.order < it.entry.order
      invariant 0 <= i <= |sorted|
      invariant forall k :: 0 <= k < i ==> sorted[k].entry.order < it.entry.order
    {
      i := i + 1;
    }
    r := sorted[..i] + [it] + sorted[i..];
    assert sorted == sorted[..i] + sorted[i..];
    forall k | i <= k < |sorted| ensures it.entry.order < sorted[k].entry.order {
    }
    assert forall k :: 0 <= k < |r| ==> r[k] == if k < i then sorted[k] else if k == i then it else sorted[k - 1];
  }

  /** Stands for std::sort by arrival order. */
  method SortByOrder(items: seq<Item>) returns (sorted: seq<Item>)
    requires forall i, j :: 0 <= i < j < |items| ==> items[i].entry.order != items[j].entry.order
    ensures ByOrder(sorted) && SameItems(sorted, items)
  {
    sorted := [];
    for i := 0 to |items|
      invariant ByOrder(sorted) && SameItems(sorted, items[..i])
    {
      assert forall k :: 0 <= k < |sorted| ==> sorted[k] in items[..i];
      sorted := InsertByOrder(sorted, items[i]);
      assert items[..i + 1] == items[..i] + [items[i]];
    }
    assert items[..|items|] == items;
  }

  // --- moves ------------------------------------------------------------------------------

  predicate IsMove(c: ChangeKind) {
    c.MovedFrom? || c.MovedTo?
  }

  predicate HasHalf(ops: seq<PlannedOp>, cookie: nat, half: ChangeKind) {
    exists k :: 0 <= k < |ops| && ops[k].cookie == cookie && ops[k].change == half
  }

  /** Some move carries a cookie at all. */
  predicate AnyCookie(ops: seq<PlannedOp>) {
    exists k :: 0 <= k < |ops| && IsMove(ops[k].change) && ops[k].cookie != 0
  }

  predicate Matched(ops: seq<PlannedOp>, cookie: nat) {
    cookie != 0 && HasHalf(ops, cookie, MovedFrom) && HasHalf(ops, cookie, MovedTo)
  }

  function RepairedOp(ops: seq<PlannedOp>, op: PlannedOp): PlannedOp {
    if IsMove(op.change) && !Matched(ops, op.cookie)
    then op.(change := if op.change.MovedFrom? then WasRemoved else WasCreated, cookie := 0)
    else op
  }

  function Repaired(ops: seq<PlannedOp>): seq<PlannedOp> {
    if AnyCookie(ops) then seq(|ops|, k requires 0 <= k < |ops| => RepairedOp(ops, ops[k])) else ops
  }

  datatype Halves = Halves(from: bool, to: bool)

  /** The bitmask per cookie, over the first `n` ops. */
  ghost predicate Marks(halves: map<nat, Halves>, ops: seq<PlannedOp>) {
    forall c {:trigger c in halves} ::
      && (c in halves <==> c != 0 && (HasHalf(ops, c, MovedFrom) || HasHalf(ops, c, MovedTo)))
      && (c in halves ==> (halves[c].from <==> HasHalf(ops, c, MovedFrom)) && (halves[c].to <==> HasHalf(ops, c, MovedTo)))
  }

  lemma HalfStep(ops: seq<PlannedOp>, n: nat, cookie: nat, half: ChangeKind)
    requires n < |ops|
    ensures HasHalf(ops[..n + 1], cookie, half) <==>
              HasHalf(ops[..n], cookie, half) || (ops[n].cookie == cookie && ops[n].change == half)
  {
    var after := ops[..n + 1];
    assert after == ops[..n] + [ops[n]];
    if ops[n].cookie == cookie && ops[n].change == half {
      assert after[n] == ops[n];
    }
    if HasHalf(ops[..n], cookie, half) {
      var k :| 0 <= k < n && ops[..n][k].cookie == cookie && ops[..n][k].change == half;
      assert after[k] == ops[..n][k];
    }
  }

  /** The first pass: which halves of each cookie are there. */
  method MarkHalves(ops: seq<PlannedOp>) returns (halves: map<nat, Halves>)
    ensures Marks(halves, ops)
  {
    halves := map[];
    for i := 0 to |ops|
      invariant Marks(halves, ops[..i])
    {
      forall c, half ensures HasHalf(ops[..i + 1], c, half) <==>
                               HasHalf(ops[..i], c, half) || (ops[i].cookie == c && ops[i].change == half) {
        HalfStep(ops, i, c, half);
      }
      var op := ops[i];
      if op.cookie != 0 && IsMove(op.change) {
        var seen := if op.cookie in halves then halves[op.cookie] else Halves(false, false);
        halves := halves[op.cookie := if op.change.MovedFrom? then seen.(from := true) else seen.(to := true)];
      }
    }
    assert ops[..|ops|] == ops;
  }

  lemma MarkedIff(halves: map<nat, Halves>, ops: seq<PlannedOp>)
    requires Marks(halves, ops)
    ensures halves != map[] <==> AnyCookie(ops)
  {
    if AnyCookie(ops) {
      var k :| 0 <= k < |ops| && IsMove(ops[k].change) && ops[k].cookie != 0;
      assert HasHalf(ops, ops[k].cookie, ops[k].change);
      assert ops[k].cookie in halves;
    }
    if halves != map[] {
      var c :| c in halves;
      assert HasHalf(ops, c, MovedFrom) || HasHalf(ops, c, MovedTo);
    }
  }

  /** repair_move_pairs, in place. */
  method RepairMovePairs(ops: array<PlannedOp>)
    modifies ops
    ensures ops[..] == Repaired(old(ops[..]))
  {
    ghost var was := ops[..];
    var halves := MarkHalves(ops[..]);
    MarkedIff(halves, was);
    if halves == map[] {
      return;
    }
    for i := 0 to ops.Length
      invariant forall k :: 0 <= k < i ==> ops[k] == RepairedOp(was, was[k])
      invariant forall k :: i <= k < ops.Length ==> ops[k] == was[k]
    {
      var op := ops[i];
      if IsMove(op.change) {
        var both := op.cookie != 0 && op.cookie in halves && halves[op.cookie] == Halves(true, true);
        assert both <==> Matched(was, op.cookie);
        if !both {
          ops[i] := op.(change := if op.change.MovedFrom? then WasRemoved else WasCreated, cookie := 0);
        }
      }
    }
  }

  lemma HalfSurvives(ops: seq<PlannedOp>, cookie: nat, half: ChangeKind)
    requires AnyCookie(ops) && Matched(ops, cookie) && IsMove(half) && HasHalf(ops, cookie, half)
    ensures HasHalf(Repaired(ops), cookie, half)
  {
    var k :| 0 <= k < |ops| && ops[k].cookie == cookie && ops[k].change == half;
    assert Repaired(ops)[k] == ops[k];
  }

  /** After the repair every move that still carries a cookie has its other half in the batch. */
  lemma RepairMatches(ops: seq<PlannedOp>, k: nat)
    requires k < |Repaired(ops)| && IsMove(Repaired(ops)[k].change) && Repaired(ops)[k].cookie != 0
    ensures Matched(Repaired(ops), Repaired(ops)[k].cookie) && Repaired(ops)[k] == ops[k]
  {
    assert AnyCookie(ops);
    var cookie := Repaired(ops)[k].cookie;
    assert Repaired(ops)[k] == RepairedOp(ops, ops[k]);
    HalfSurvives(ops, cookie, MovedFrom);
    HalfSurvives(ops, cookie, MovedTo);
  }

  predicate AllMatched(ops: seq<PlannedOp>) {
    forall k :: 0 <= k < |ops| && IsMove(ops[k].change) ==> Matched(ops, ops[k].cookie)
  }

  /** Every move is matched afterwards exactly when some move had a cookie, or there was no move at all. */
  lemma MatchedIff(ops: seq<PlannedOp>)
    ensures AllMatched(Repaired(ops)) <==> AnyCookie(ops) || forall k :: 0 <= k < |ops| ==> !IsMove(ops[k].change)
  {
    if AnyCookie(ops) {
      forall k | 0 <= k < |ops| && IsMove(Repaired(ops)[k].change) ensures Matched(Repaired(ops), Repaired(ops)[k].cookie) {
        assert Repaired(ops)[k] == RepairedOp(ops, ops[k]);
        RepairMatches(ops, k);
      }
    }
  }

  /** A lone move without a cookie goes out as a move. */
  lemma CookielessMoveSurvives() returns (ops: seq<PlannedOp>)
    ensures |ops| == 1 && IsMove(Repaired(ops)[0].change) && !AllMatched(Repaired(ops))
  {
    ops := [PlannedOp(Upsert, [97], true, MovedTo, 0)];
    MatchedIff(ops);
    assert IsMove(ops[0].change);
  }

  /** Repairing again changes nothing. */
  lemma RepairIdempotent(ops: seq<PlannedOp>)
    ensures Repaired(Repaired(ops)) == Repaired(ops)
  {
    var r := Repaired(ops);
    if AnyCookie(r) {
      forall k | 0 <= k < |r| ensures Repaired(r)[k] == r[k] {
        if IsMove(r[k].change) {
          MatchedIff(ops);
          MatchedBefore(ops);
          assert Matched(r, r[k].cookie);
        }
      }
    }
  }

  lemma MatchedBefore(ops: seq<PlannedOp>)
    requires AnyCookie(Repaired(ops))
    ensures AnyCookie(ops)
  {
  }
}
