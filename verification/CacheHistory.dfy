/** The content cache over whole runs: what a lookup answers, what is remembered, and what goes first. */
module CacheHistory {
  import opened Types
  import opened Path
  import opened ReadCache

  /** The list after a run from an empty cache. */
  function After(cap: nat, ops: seq<Op>): seq<Item> {
    Steps(Cache([], cap), ops).list
  }

  // --- what a lookup answers ------------------------------------------------------------------

  /** The op ends whatever was put at `p` before. */
  predicate Ends(op: Op, p: Name) {
    (op.Put? && op.path == p) || op == Drop(p) || (op.DropBelow? && IsUnder(p, op.dir))
  }

  /** Which put is the last one at `p` not dropped since. */
  lemma {:induction false} LastPutAt(ops: seq<Op>, p: Name) returns (j: nat)
    requires LastPut(ops, p).Some?
    ensures j < |ops| && ops[j] == Put(p, LastPut(ops, p).value) && forall i :: j < i < |ops| ==> !Ends(ops[i], p)
  {
    var n := |ops| - 1;
    if Ends(ops[n], p) {
      j := n;
    } else {
      j := LastPutAt(ops[..n], p);
      assert ops[..n][j] == ops[j];
      assert forall i :: 0 <= i < n ==> ops[..n][i] == ops[i];
    }
  }

  lemma {:induction false} FoundMember(l: seq<Item>, p: Name)
    requires Distinct(l)
    ensures Find(l, p).Some? ==> Item(p, Find(l, p).value) in l
    ensures forall e :: Item(p, e) in l ==> Find(l, p) == Some(e)
  {
    if Find(l, p).Some? {
      var k := FoundAt(l, p);
    }
    forall e | Item(p, e) in l ensures Find(l, p) == Some(e) {
      var k :| 0 <= k < |l| && l[k] == Item(p, e);
      FindIs(l, p);
    }
  }

  /** A held entry is the last put, whose place in the run is given. */
  lemma HeldIsLastPut(cap: nat, ops: seq<Op>, p: Name) returns (j: nat)
    requires Find(After(cap, ops), p).Some?
    ensures j < |ops| && ops[j] == Put(p, Find(After(cap, ops), p).value) && forall i :: j < i < |ops| ==> !Ends(ops[i], p)
  {
    var l := After(cap, ops);
    RunBounded(Cache([], cap), ops);
    FoundMember(l, p);
    NeverInvents(cap, ops, Item(p, Find(l, p).value));
    j := LastPutAt(ops, p);
  }

  /**
   * Any run of operations on a fresh store. A lookup answers with the bytes of the last put at its path
   * that has not been dropped since, and only if modification time and size are both those asked for; an
   * entry that is still held with that time and size is always found.
   */
  method RunStore(cap: nat, ops: seq<Op>) returns (answers: seq<Option<seq<byte>>>)
    ensures |answers| == |ops|
    ensures forall k :: 0 <= k < |ops| && ops[k].Hit? && answers[k].Some? ==>
              exists j :: && 0 <= j < k && ops[j] == Put(ops[k].path, Entry(ops[k].mtimeNs, ops[k].size, answers[k].value))
                          && forall i :: j < i < k ==>
                               && !(ops[i].Put? && ops[i].path == ops[k].path) && ops[i] != Drop(ops[k].path)
                               && !(ops[i].DropBelow? && IsUnder(ops[k].path, ops[i].dir))
    ensures forall k, d :: (&& 0 <= k < |ops| && ops[k].Hit?
                            && Item(ops[k].path, Entry(ops[k].mtimeNs, ops[k].size, d)) in Steps(Cache([], cap), ops[..k]).list)
                           ==> answers[k] == Some(d)
  {
    var store := new Store(cap);
    answers := [];
    for n := 0 to |ops|
      invariant fresh(store) && store.Valid() && |answers| == n && store.View() == Steps(Cache([], cap), ops[..n])
      invariant forall k :: 0 <= k < n && ops[k].Hit? ==> Answered(cap, ops, k, answers[k])
    {
      assert ops[..n + 1][..n] == ops[..n] && ops[..n + 1][n] == ops[n];
      var answer := RunOne(store, ops[n]);
      answers := answers + [answer];
    }
    forall k | 0 <= k < |ops| && ops[k].Hit? && answers[k].Some?
      ensures exists j :: && 0 <= j < k && ops[j] == Put(ops[k].path, Entry(ops[k].mtimeNs, ops[k].size, answers[k].value))
                          && forall i :: j < i < k ==>
                               && !(ops[i].Put? && ops[i].path == ops[k].path) && ops[i] != Drop(ops[k].path)
                               && !(ops[i].DropBelow? && IsUnder(ops[k].path, ops[i].dir))
    {
      var j := AnsweredFrom(cap, ops, k, answers[k]);
    }
    forall k, d | 0 <= k < |ops| && ops[k].Hit?
                  && Item(ops[k].path, Entry(ops[k].mtimeNs, ops[k].size, d)) in Steps(Cache([], cap), ops[..k]).list
      ensures answers[k] == Some(d)
    {
      RunBounded(Cache([], cap), ops[..k]);
      FoundMember(After(cap, ops[..k]), ops[k].path);
    }
  }

  /** The answer to the lookup at place `k`, from the list as it was then. */
  ghost predicate Answered(cap: nat, ops: seq<Op>, k: nat, answer: Option<seq<byte>>)
    requires k < |ops| && ops[k].Hit?
  {
    answer == match Find(After(cap, ops[..k]), ops[k].path)
              case None => None
              case Some(e) => if e.mtimeNs == ops[k].mtimeNs && e.size == ops[k].size then Some(e.data) else None
  }

  lemma AnsweredFrom(cap: nat, ops: seq<Op>, k: nat, answer: Option<seq<byte>>) returns (j: nat)
    requires k < |ops| && ops[k].Hit? && Answered(cap, ops, k, answer) && answer.Some?
    ensures j < k && ops[j] == Put(ops[k].path, Entry(ops[k].mtimeNs, ops[k].size, answer.value))
    ensures forall i :: j < i < k ==> !Ends(ops[i], ops[k].path)
  {
    j := HeldIsLastPut(cap, ops[..k], ops[k].path);
    assert ops[..k][j] == ops[j] && forall i :: 0 <= i < k ==> ops[..k][i] == ops[i];
  }

  method RunOne(store: Store, op: Op) returns (answer: Option<seq<byte>>)
    requires store.Valid()
    modifies store
    ensures store.Valid() && store.View() == Step(old(store.View()), op)
    ensures op.Hit? ==> answer == match Find(old(store.View()).list, op.path)
                                  case None => None
                                  case Some(e) => if e.mtimeNs == op.mtimeNs && e.size == op.size then Some(e.data) else None
  {
    answer := None;
    match op {
      case Put(p, e) => store.CachePut(p, e);
      case Hit(p, mtimeNs, size) => answer := store.Lookup(p, mtimeNs, size);
      case Drop(p) => store.DropCached(p);
      case DropBelow(dir) => store.DropCachedPrefix(dir);
      case Limit(cap) => store.SetLimit(cap);
    }
  }

  // --- what is remembered ---------------------------------------------------------------------

  /** All bytes ever put. */
  function PutBytes(ops: seq<Op>): nat {
    if ops == [] then 0
    else PutBytes(ops[..|ops| - 1]) + if ops[|ops| - 1].Put? then |ops[|ops| - 1].entry.data| else 0
  }

  lemma {:induction false} FindFront(l: seq<Item>, it: Item, p: Name)
    requires Distinct(l)
    ensures Find([it] + Without(l, it.path), p) == if p == it.path then Some(it.entry) else Find(l, p)
  {
    var m := [it] + Without(l, it.path);
    FrontDistinct(l, it);
    FoundMember(m, p);
    FoundMember(l, p);
    assert m[0] == it;
    if p != it.path {
      if Find(l, p).Some? {
        WithoutFacts(l, it.path, Item(p, Find(l, p).value));
      }
      if Find(m, p).Some? {
        WithoutFacts(l, it.path, Item(p, Find(m, p).value));
      }
    } else {
      assert Item(p, it.entry) in m;
    }
  }

  lemma {:induction false} FindWithout(l: seq<Item>, q: Name, p: Name)
    requires Distinct(l)
    ensures Find(Without(l, q), p) == if p == q then None else Find(l, p)
  {
    var w := Without(l, q);
    WithoutFacts(l, q, Item(q, Entry(0, 0, [])));
    FoundMember(w, p);
    FoundMember(l, p);
    if Find(w, p).Some? {
      WithoutFacts(l, q, Item(p, Find(w, p).value));
    }
    if Find(l, p).Some? {
      WithoutFacts(l, q, Item(p, Find(l, p).value));
    }
  }

  lemma {:induction false} FindBelow(l: seq<Item>, dir: Name, p: Name)
    requires Distinct(l)
    ensures Find(WithoutBelow(l, dir), p) == if IsUnder(p, dir) then None else Find(l, p)
  {
    var w := WithoutBelow(l, dir);
    BelowFacts(l, dir, Item(p, Entry(0, 0, [])));
    FoundMember(w, p);
    FoundMember(l, p);
    if Find(w, p).Some? {
      BelowFacts(l, dir, Item(p, Find(w, p).value));
    }
    if Find(l, p).Some? {
      BelowFacts(l, dir, Item(p, Find(l, p).value));
    }
  }

  lemma {:induction false} FindPrefix(l: seq<Item>, r: seq<Item>, p: Name)
    requires Distinct(l) && r <= l
    ensures Find(r, p) == None || Find(r, p) == Find(l, p)
  {
    PrefixDistinct(l, r);
    FoundMember(r, p);
    FoundMember(l, p);
  }

  /** What one operation does to one path: a put replaces it, a drop forgets it, and eviction may forget it. */
  lemma {:induction false} StepForPath(c: Cache, op: Op, p: Name)
    requires Bounded(c)
    ensures op.Put? && op.path == p ==> Find(Step(c, op).list, p) == Some(op.entry)
    ensures op == Drop(p) || (op.DropBelow? && IsUnder(p, op.dir)) ==> Find(Step(c, op).list, p) == None
    ensures !(op.Put? && op.path == p) ==> Find(Step(c, op).list, p) == None || Find(Step(c, op).list, p) == Find(c.list, p)
    ensures op.Hit? || (op.Drop? && op.path != p) || (op.DropBelow? && !IsUnder(p, op.dir)) ==>
              Find(Step(c, op).list, p) == Find(c.list, p)
  {
    match op
    case Put(q, e) =>
      FindFront(c.list, Item(q, e), p);
      FrontDistinct(c.list, Item(q, e));
      var l := [Item(q, e)] + Without(c.list, q);
      EvictedLongest(l, c.cap);
      FindPrefix(l, Evicted(l, c.cap), p);
      FrontFound(l, Evicted(l, c.cap));
    case Hit(q, _, _) =>
      if Find(c.list, q).Some? {
        FindFront(c.list, Item(q, Find(c.list, q).value), p);
      }
    case Drop(q) => FindWithout(c.list, q, p);
    case DropBelow(dir) => FindBelow(c.list, dir, p);
    case Limit(cap) => FindPrefix(c.list, Evicted(c.list, cap), p);
  }

  lemma {:induction false} FrontFound(l: seq<Item>, r: seq<Item>)
    requires Distinct(l) && r <= l && r != []
    ensures Find(r, l[0].path) == Some(l[0].entry)
  {
    PrefixDistinct(l, r);
    FoundMember(r, l[0].path);
    assert Item(l[0].path, l[0].entry) == r[0];
  }

  lemma {:induction false} PutBytesBound(cap: nat, ops: seq<Op>)
    ensures Sum(After(cap, ops)) <= PutBytes(ops)
  {
    if ops != [] {
      var n := |ops| - 1;
      PutBytesBound(cap, ops[..n]);
      RunBounded(Cache([], cap), ops[..n]);
      StepBytes(Steps(Cache([], cap), ops[..n]), ops[n]);
    }
  }

  lemma StepBytes(c: Cache, op: Op)
    requires Bounded(c)
    ensures Sum(Step(c, op).list) <= Sum(c.list) + if op.Put? then |op.entry.data| else 0
  {
    match op
    case Put(p, e) =>
      var l := [Item(p, e)] + Without(c.list, p);
      SumFront(Item(p, e), Without(c.list, p));
      WithoutSmaller(c.list, p);
      var r := Evicted(l, c.cap);
      SumPrefix(l, |r|);
      assert l[..|r|] == r;
    case Hit(p, _, _) =>
      if Find(c.list, p).Some? {
        HitSame(c.list, p);
      }
    case Drop(p) => WithoutSmaller(c.list, p);
    case DropBelow(dir) => BelowSmaller(c.list, dir);
    case Limit(cap) =>
      var r := Evicted(c.list, cap);
      SumPrefix(c.list, |r|);
      assert c.list[..|r|] == r;
  }

  lemma RoomForAll(c: Cache, op: Op)
    requires Bounded(c) && op.Put? && Sum(c.list) + |op.entry.data| <= c.cap
    ensures Step(c, op).list == [Item(op.path, op.entry)] + Without(c.list, op.path)
  {
    SumFront(Item(op.path, op.entry), Without(c.list, op.path));
    WithoutSmaller(c.list, op.path);
  }

  lemma {:induction false} CapKept(cap: nat, ops: seq<Op>)
    requires forall k :: 0 <= k < |ops| ==> !ops[k].Limit?
    ensures Steps(Cache([], cap), ops).cap == cap
  {
    if ops != [] {
      CapKept(cap, ops[..|ops| - 1]);
    }
  }

  /** While everything put fits, the cache holds exactly the last put of every path that was not dropped since. */
  lemma {:induction false} RemembersAll(cap: nat, ops: seq<Op>, p: Name)
    requires PutBytes(ops) <= cap && forall k :: 0 <= k < |ops| ==> !ops[k].Limit?
    ensures Find(After(cap, ops), p) == LastPut(ops, p)
  {
    if ops != [] {
      var n := |ops| - 1;
      var c, op := Steps(Cache([], cap), ops[..n]), ops[n];
      RemembersAll(cap, ops[..n], p);
      RunBounded(Cache([], cap), ops[..n]);
      CapKept(cap, ops[..n]);
      PutBytesBound(cap, ops[..n]);
      StepForPath(c, op, p);
      if op.Put? {
        RoomForAll(c, op);
        FindFront(c.list, Item(op.path, op.entry), p);
      }
    }
  }

  // --- what goes first ------------------------------------------------------------------------

  /** The op at place `n` uses `p`: it puts it, or it is a lookup that hits. */
  ghost predicate Uses(cap: nat, ops: seq<Op>, n: nat, p: Name) {
    && n < |ops|
    && (|| (ops[n].Put? && ops[n].path == p)
        || (&& ops[n].Hit? && ops[n].path == p
            && exists d :: Item(p, Entry(ops[n].mtimeNs, ops[n].size, d)) in Steps(Cache([], cap), ops[..n]).list))
  }

  /** `a` has been used since `b` was last used. */
  ghost predicate Since(cap: nat, ops: seq<Op>, a: Name, b: Name) {
    exists n: nat :: Uses(cap, ops, n, a) && forall m: nat :: n <= m < |ops| ==> !Uses(cap, ops, m, b)
  }

  /** `a` stands before `b`. */
  predicate Ahead(l: seq<Item>, a: Name, b: Name) {
    exists i, j :: 0 <= i < j < |l| && l[i].path == a && l[j].path == b
  }

  lemma AheadMore(l: seq<Item>, r: seq<Item>, a: Name, b: Name)
    requires Ahead(l, a, b) && l <= r
    ensures Ahead(r, a, b)
  {
    var i, j :| 0 <= i < j < |l| && l[i].path == a && l[j].path == b;
    assert r[i].path == a && r[j].path == b;
  }

  lemma {:induction false} AheadWithout(l: seq<Item>, p: Name, a: Name, b: Name)
    requires Ahead(Without(l, p), a, b)
    ensures Ahead(l, a, b)
  {
    var n := |l| - 1;
    var w := Without(l[..n], p);
    if Ahead(w, a, b) {
      AheadWithout(l[..n], p, a, b);
      AheadMore(l[..n], l, a, b);
    } else {
      var i, j :| 0 <= i < j < |Without(l, p)| && Without(l, p)[i].path == a && Without(l, p)[j].path == b;
      assert i < |w| && j == |w|;
      WithoutFacts(l[..n], p, w[i]);
      var k :| 0 <= k < n && l[..n][k] == w[i];
      assert l[k].path == a && l[n].path == b;
    }
  }

  lemma {:induction false} AheadBelow(l: seq<Item>, dir: Name, a: Name, b: Name)
    requires Ahead(WithoutBelow(l, dir), a, b)
    ensures Ahead(l, a, b)
  {
    var n := |l| - 1;
    var w := WithoutBelow(l[..n], dir);
    if Ahead(w, a, b) {
      AheadBelow(l[..n], dir, a, b);
      AheadMore(l[..n], l, a, b);
    } else {
      var i, j :| 0 <= i < j < |WithoutBelow(l, dir)| && WithoutBelow(l, dir)[i].path == a && WithoutBelow(l, dir)[j].path == b;
      assert i < |w| && j == |w|;
      BelowFacts(l[..n], dir, w[i]);
      var k :| 0 <= k < n && l[..n][k] == w[i];
      assert l[k].path == a && l[n].path == b;
    }
  }

  lemma AheadFront(l: seq<Item>, it: Item, a: Name, b: Name)
    requires Distinct([it] + l) && Ahead([it] + l, a, b)
    ensures b != it.path && (a == it.path || Ahead(l, a, b))
  {
    var m := [it] + l;
    var i, j :| 0 <= i < j < |m| && m[i].path == a && m[j].path == b;
    assert m[0].path != m[j].path;
    if i > 0 {
      assert l[i - 1].path == a && l[j - 1].path == b;
    }
  }

  lemma UsesPrefix(cap: nat, ops: seq<Op>, n: nat, p: Name)
    requires ops != [] && n < |ops| - 1
    ensures Uses(cap, ops, n, p) <==> Uses(cap, ops[..|ops| - 1], n, p)
  {
    var front := ops[..|ops| - 1];
    assert front[n] == ops[n] && front[..n] == ops[..n];
  }

  lemma SinceMore(cap: nat, ops: seq<Op>, a: Name, b: Name)
    requires ops != [] && !Uses(cap, ops, |ops| - 1, b)
    requires Uses(cap, ops, |ops| - 1, a) || Since(cap, ops[..|ops| - 1], a, b)
    ensures Since(cap, ops, a, b)
  {
    var last := |ops| - 1;
    if !Uses(cap, ops, last, a) {
      var n: nat :| Uses(cap, ops[..last], n, a) && forall m: nat :: n <= m < |ops[..last]| ==> !Uses(cap, ops[..last], m, b);
      UsesPrefix(cap, ops, n, a);
      forall m: nat | n <= m < |ops| ensures !Uses(cap, ops, m, b) {
        if m < last {
          UsesPrefix(cap, ops, m, b);
        }
      }
    }
  }

  /** The operation at the end of the run either uses what comes first, or keeps the order as it was. */
  lemma OrderStep(cap: nat, ops: seq<Op>, a: Name, b: Name)
    requires ops != [] && Ahead(After(cap, ops), a, b)
    ensures !Uses(cap, ops, |ops| - 1, b)
    ensures Uses(cap, ops, |ops| - 1, a) || Ahead(After(cap, ops[..|ops| - 1]), a, b)
  {
    var n := |ops| - 1;
    var c, op := Steps(Cache([], cap), ops[..n]), ops[n];
    RunBounded(Cache([], cap), ops[..n]);
    match op
    case Put(p, e) =>
      var l := [Item(p, e)] + Without(c.list, p);
      FrontDistinct(c.list, Item(p, e));
      AheadMore(After(cap, ops), l, a, b);
      AheadFront(Without(c.list, p), Item(p, e), a, b);
      if a != p {
        AheadWithout(c.list, p, a, b);
      }
    case Hit(p, mtimeNs, size) => HitOrder(cap, ops, a, b);
    case Drop(p) => AheadWithout(c.list, p, a, b);
    case DropBelow(dir) => AheadBelow(c.list, dir, a, b);
    case Limit(_) => AheadMore(After(cap, ops), c.list, a, b);
  }

  lemma HitOrder(cap: nat, ops: seq<Op>, a: Name, b: Name)
    requires ops != [] && ops[|ops| - 1].Hit? && Ahead(After(cap, ops), a, b)
    ensures !Uses(cap, ops, |ops| - 1, b)
    ensures Uses(cap, ops, |ops| - 1, a) || Ahead(After(cap, ops[..|ops| - 1]), a, b)
  {
    var n := |ops| - 1;
    var c, p := Steps(Cache([], cap), ops[..n]), ops[n].path;
    RunBounded(Cache([], cap), ops[..n]);
    FoundMember(c.list, p);
    var e := Find(c.list, p);
    if e.Some? && e.value.mtimeNs == ops[n].mtimeNs && e.value.size == ops[n].size {
      assert Item(p, Entry(ops[n].mtimeNs, ops[n].size, e.value.data)) in c.list;
      assert Uses(cap, ops, n, p);
      FrontDistinct(c.list, Item(p, e.value));
      AheadFront(Without(c.list, p), Item(p, e.value), a, b);
      if a != p {
        AheadWithout(c.list, p, a, b);
      }
    } else {
      assert !Uses(cap, ops, n, p);
    }
  }

  lemma {:induction false} AheadIsSince(cap: nat, ops: seq<Op>, a: Name, b: Name)
    requires Ahead(After(cap, ops), a, b)
    ensures Since(cap, ops, a, b)
    decreases |ops|
  {
    OrderStep(cap, ops, a, b);
    if !Uses(cap, ops, |ops| - 1, a) {
      AheadIsSince(cap, ops[..|ops| - 1], a, b);
    }
    SinceMore(cap, ops, a, b);
  }

  /**
   * Least recently used goes first. After any run the list is in order of use: of two held paths, the one
   * further to the front has been put or hit after the last put or hit of the other, and eviction takes
   * from the back.
   */
  lemma ByRecency(cap: nat, ops: seq<Op>, i: nat, j: nat) returns (n: nat)
    requires i < j < |Steps(Cache([], cap), ops).list|
    ensures var l := Steps(Cache([], cap), ops).list;
            && n < |ops| && (ops[n].Put? || ops[n].Hit?) && ops[n].path == l[i].path
            && (ops[n].Hit? ==> exists d :: Item(ops[n].path, Entry(ops[n].mtimeNs, ops[n].size, d))
                                            in Steps(Cache([], cap), ops[..n]).list)
            && (forall m :: n <= m < |ops| ==> !(ops[m].Put? && ops[m].path == l[j].path))
            && (forall m, d :: n <= m < |ops| && ops[m].Hit? && ops[m].path == l[j].path ==>
                  Item(ops[m].path, Entry(ops[m].mtimeNs, ops[m].size, d)) !in Steps(Cache([], cap), ops[..m]).list)
  {
    var l := After(cap, ops);
    assert Ahead(l, l[i].path, l[j].path);
    AheadIsSince(cap, ops, l[i].path, l[j].path);
    n :| Uses(cap, ops, n, l[i].path) && forall m: nat :: n <= m < |ops| ==> !Uses(cap, ops, m, l[j].path);
    forall m, d | n <= m < |ops| && ops[m].Hit? && ops[m].path == l[j].path
      ensures Item(ops[m].path, Entry(ops[m].mtimeNs, ops[m].size, d)) !in Steps(Cache([], cap), ops[..m]).list
    {
      assert !Uses(cap, ops, m, l[j].path);
    }
    forall m | n <= m < |ops| ensures !(ops[m].Put? && ops[m].path == l[j].path) {
      assert !Uses(cap, ops, m, l[j].path);
    }
  }
}
