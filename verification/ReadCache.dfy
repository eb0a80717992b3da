/** The content cache: entries by path, a list of paths by recency, and a running total of bytes. */
module ReadCache {
  import opened Types
  import opened Path

  datatype Entry = Entry(mtimeNs: int, size: nat, data: seq<byte>)

  datatype Item = Item(path: Name, entry: Entry)

  // --- recency lists ------------------------------------------------------------------------

  /** Bytes held by a list of items, the most recent first. */
  function Sum(l: seq<Item>): nat {
    if l == [] then 0 else Sum(l[..|l| - 1]) + |l[|l| - 1].entry.data|
  }

  predicate Distinct(l: seq<Item>) {
    forall i, j :: 0 <= i < j < |l| ==> l[i].path != l[j].path
  }

  predicate Holds(l: seq<Item>, p: Name) {
    exists k :: 0 <= k < |l| && l[k].path == p
  }

  function Without(l: seq<Item>, p: Name): seq<Item> {
    if l == [] then []
    else Without(l[..|l| - 1], p) + if l[|l| - 1].path == p then [] else [l[|l| - 1]]
  }

  /** Everything at or below `dir` gone; the empty path is the whole tree. */
  function WithoutBelow(l: seq<Item>, dir: Name): seq<Item> {
    if l == [] then []
    else WithoutBelow(l[..|l| - 1], dir) + if IsUnder(l[|l| - 1].path, dir) then [] else [l[|l| - 1]]
  }

  /** The longest non-empty prefix that fits. */
  function Evicted(l: seq<Item>, cap: nat): (r: seq<Item>)
    ensures r <= l
    ensures Sum(r) <= cap || |r| <= 1
  {
    if |l| <= 1 || Sum(l) <= cap then l else Evicted(l[..|l| - 1], cap)
  }

  lemma {:induction false} SumPrefix(l: seq<Item>, n: nat)
    requires n <= |l|
    ensures Sum(l[..n]) <= Sum(l)
  {
    if n < |l| {
      SumPrefix(l[..|l| - 1], n);
      assert l[..|l| - 1][..n] == l[..n];
    } else {
      assert l[..n] == l;
    }
  }

  /** Eviction keeps at least the newest, and stops as soon as it may: one more item would not fit. */
  lemma {:induction false} EvictedLongest(l: seq<Item>, cap: nat)
    ensures l != [] ==> Evicted(l, cap) != []
    ensures forall n :: |Evicted(l, cap)| < n <= |l| ==> Sum(l[..n]) > cap
  {
    if |l| > 1 && Sum(l) > cap {
      var front := l[..|l| - 1];
      EvictedLongest(front, cap);
      forall n | |Evicted(l, cap)| < n <= |l| ensures Sum(l[..n]) > cap {
        if n == |l| {
          assert l[..n] == l;
        } else {
          assert front[..n] == l[..n];
        }
      }
    }
  }

  lemma {:induction false} SumConcat(a: seq<Item>, b: seq<Item>)
    ensures Sum(a + b) == Sum(a) + Sum(b)
  {
    if b == [] {
      assert a + b == a;
    } else {
      SumConcat(a, b[..|b| - 1]);
      assert (a + b)[..|a + b| - 1] == a + b[..|b| - 1];
    }
  }

  lemma SumOne(it: Item)
    ensures Sum([it]) == |it.entry.data|
  {
    assert [it][..0] == [];
  }

  lemma {:induction false} WithoutConcat(a: seq<Item>, b: seq<Item>, p: Name)
    ensures Without(a + b, p) == Without(a, p) + Without(b, p)
  {
    if b == [] {
      assert a + b == a;
    } else {
      WithoutConcat(a, b[..|b| - 1], p);
      assert (a + b)[..|a + b| - 1] == a + b[..|b| - 1];
    }
  }

  /** Where `p` is, the list splits around it. */
  lemma {:induction false} WithoutAt(l: seq<Item>, p: Name, k: nat)
    requires Distinct(l) && k < |l| && l[k].path == p
    ensures Without(l, p) == l[..k] + l[k + 1..]
    ensures Sum(l) == Sum(Without(l, p)) + |l[k].entry.data|
  {
    var a, b, it := l[..k], l[k + 1..], l[k];
    assert l == (a + [it]) + b;
    WithoutAbsent(a, p);
    WithoutAbsent(b, p);
    WithoutConcat(a + [it], b, p);
    WithoutConcat(a, [it], p);
    assert Without([it], p) == [] by {
      assert [it][..0] == [];
    }
    assert a + [] == a;
    SumConcat(a + [it], b);
    SumConcat(a, [it]);
    SumConcat(a, b);
    SumOne(it);
  }

  lemma {:induction false} WithoutAbsent(l: seq<Item>, p: Name)
    requires forall k :: 0 <= k < |l| ==> l[k].path != p
    ensures Without(l, p) == l
  {
    if l != [] {
      WithoutAbsent(l[..|l| - 1], p);
    }
  }

  lemma {:induction false} WithoutFacts(l: seq<Item>, p: Name, it: Item)
    ensures it in Without(l, p) <==> it in l && it.path != p
    ensures Distinct(l) ==> Distinct(Without(l, p))
  {
    if l != [] {
      var n := |l| - 1;
      WithoutFacts(l[..n], p, it);
      assert l == l[..n] + [l[n]];
      if Distinct(l) {
        WithoutFacts(l[..n], p, l[n]);
        forall k | 0 <= k < |Without(l[..n], p)| ensures Without(l[..n], p)[k].path != l[n].path {
          WithoutFacts(l[..n], p, Without(l[..n], p)[k]);
        }
      }
    }
  }

  // --- operations on lists --------------------------------------------------------------------

  datatype Op =
    | Put(path: Name, entry: Entry)
    | Hit(path: Name, mtimeNs: int, size: nat)
    | Drop(path: Name)
    | DropBelow(dir: Name)
    | Limit(cap: nat)

  datatype Cache = Cache(list: seq<Item>, cap: nat)

  predicate Current(e: Entry, mtimeNs: int, size: nat) {
    e.mtimeNs == mtimeNs && e.size == size
  }

  function Find(l: seq<Item>, p: Name): Option<Entry> {
    if l == [] then None else if l[|l| - 1].path == p then Some(l[|l| - 1].entry) else Find(l[..|l| - 1], p)
  }

  function Step(c: Cache, op: Op): Cache {
    match op
    case Put(p, e) => c.(list := Evicted([Item(p, e)] + Without(c.list, p), c.cap))
    case Hit(p, mtime, size) =>
      var e := Find(c.list, p);
      if e.Some? && Current(e.value, mtime, size) then c.(list := [Item(p, e.value)] + Without(c.list, p)) else c
    case Drop(p) => c.(list := Without(c.list, p))
    case DropBelow(dir) => c.(list := WithoutBelow(c.list, dir))
    case Limit(cap) => Cache(Evicted(c.list, cap), cap)
  }

  function Steps(c: Cache, ops: seq<Op>): Cache {
    if ops == [] then c else Step(Steps(c, ops[..|ops| - 1]), ops[|ops| - 1])
  }

  ghost predicate Bounded(c: Cache) {
    Distinct(c.list) && (Sum(c.list) <= c.cap || |c.list| <= 1)
  }

  lemma {:induction false} FindIs(l: seq<Item>, p: Name)
    requires Distinct(l)
    ensures Find(l, p).Some? <==> Holds(l, p)
    ensures forall k :: 0 <= k < |l| && l[k].path == p ==> Find(l, p) == Some(l[k].entry)
  {
    if l != [] {
      var n := |l| - 1;
      FindIs(l[..n], p);
      if Holds(l[..n], p) {
        var k :| 0 <= k < n && l[..n][k].path == p;
        assert l[k].path == p;
      }
      assert forall k :: 0 <= k < n ==> l[..n][k] == l[k];
      assert l[n].path == p ==> Holds(l, p);
    }
  }

  lemma PrefixDistinct(l: seq<Item>, r: seq<Item>)
    requires Distinct(l) && r <= l
    ensures Distinct(r)
  {
  }

  lemma {:induction false} FrontDistinct(l: seq<Item>, it: Item)
    requires Distinct(l)
    ensures Distinct([it] + Without(l, it.path))
  {
    WithoutFacts(l, it.path, it);
    var w := Without(l, it.path);
    forall k | 0 <= k < |w| ensures w[k].path != it.path {
      WithoutFacts(l, it.path, w[k]);
    }
  }

  lemma {:induction false} SumFront(it: Item, l: seq<Item>)
    ensures Sum([it] + l) == |it.entry.data| + Sum(l)
  {
    SumConcat([it], l);
    SumOne(it);
  }

  lemma {:induction false} BelowFacts(l: seq<Item>, dir: Name, it: Item)
    ensures it in WithoutBelow(l, dir) <==> it in l && !IsUnder(it.path, dir)
    ensures Distinct(l) ==> Distinct(WithoutBelow(l, dir))
  {
    if l != [] {
      var n := |l| - 1;
      var w := WithoutBelow(l[..n], dir);
      BelowFacts(l[..n], dir, it);
      assert l == l[..n] + [l[n]];
      if Distinct(l) {
        forall k | 0 <= k < |w| ensures w[k].path != l[n].path {
          BelowFacts(l[..n], dir, w[k]);
        }
      }
    }
  }

  lemma {:induction false} BelowSmaller(l: seq<Item>, dir: Name)
    ensures Sum(WithoutBelow(l, dir)) <= Sum(l) && |WithoutBelow(l, dir)| <= |l|
  {
    if l != [] {
      var n := |l| - 1;
      var w := WithoutBelow(l[..n], dir);
      BelowSmaller(l[..n], dir);
      assert (w + [l[n]])[..|w|] == w && w + [] == w;
    }
  }

  lemma {:induction false} WithoutSmaller(l: seq<Item>, p: Name)
    ensures Sum(Without(l, p)) <= Sum(l) && |Without(l, p)| <= |l|
  {
    if l != [] {
      var n := |l| - 1;
      var w := Without(l[..n], p);
      WithoutSmaller(l[..n], p);
      assert (w + [l[n]])[..|w|] == w && w + [] == w;
    }
  }

  lemma FoundAt(l: seq<Item>, p: Name) returns (k: nat)
    requires Distinct(l) && Find(l, p).Some?
    ensures k < |l| && l[k] == Item(p, Find(l, p).value)
  {
    FindIs(l, p);
    k :| 0 <= k < |l| && l[k].path == p;
  }

  /** Moving an item to the front changes no total. */
  lemma {:induction false} HitSame(l: seq<Item>, p: Name)
    requires Distinct(l) && Find(l, p).Some?
    ensures var m := [Item(p, Find(l, p).value)] + Without(l, p);
            Sum(m) == Sum(l) && |m| == |l|
  {
    var k := FoundAt(l, p);
    WithoutAt(l, p, k);
    SumFront(l[k], Without(l, p));
  }

  lemma {:induction false} HitMember(l: seq<Item>, p: Name, x: Item)
    requires Distinct(l) && Find(l, p).Some? && x in [Item(p, Find(l, p).value)] + Without(l, p)
    ensures x in l
  {
    var k := FoundAt(l, p);
    WithoutFacts(l, p, x);
  }

  lemma StepBounded(c: Cache, op: Op)
    requires Bounded(c)
    ensures Bounded(Step(c, op))
  {
    match op
    case Put(p, e) =>
      FrontDistinct(c.list, Item(p, e));
      PrefixDistinct([Item(p, e)] + Without(c.list, p), Step(c, op).list);
    case Hit(p, _, _) =>
      if Find(c.list, p).Some? {
        FrontDistinct(c.list, Item(p, Find(c.list, p).value));
        HitSame(c.list, p);
      }
    case Drop(p) =>
      WithoutFacts(c.list, p, Item(p, Entry(0, 0, [])));
      WithoutSmaller(c.list, p);
    case DropBelow(dir) =>
      BelowFacts(c.list, dir, Item(dir, Entry(0, 0, [])));
      BelowSmaller(c.list, dir);
    case Limit(cap) =>
      PrefixDistinct(c.list, Step(c, op).list);
  }

  /** After any run the cache lists each path once and is within its limit, or holds a single file. */
  lemma {:induction false} RunBounded(c: Cache, ops: seq<Op>)
    requires Bounded(c)
    ensures Bounded(Steps(c, ops))
  {
    if ops != [] {
      RunBounded(c, ops[..|ops| - 1]);
      StepBounded(Steps(c, ops[..|ops| - 1]), ops[|ops| - 1]);
    }
  }

  /** What was last put at `p` and has not been dropped since. */
  function LastPut(ops: seq<Op>, p: Name): Option<Entry> {
    if ops == [] then None
    else
      match ops[|ops| - 1]
      case Put(q, e) => if q == p then Some(e) else LastPut(ops[..|ops| - 1], p)
      case Drop(q) => if q == p then None else LastPut(ops[..|ops| - 1], p)
      case DropBelow(dir) => if IsUnder(p, dir) then None else LastPut(ops[..|ops| - 1], p)
      case _ => LastPut(ops[..|ops| - 1], p)
  }

  /** The cache may forget, but whatever it holds is what was last put there. */
  lemma {:induction false} NeverInvents(cap: nat, ops: seq<Op>, it: Item)
    requires it in Steps(Cache([], cap), ops).list
    ensures LastPut(ops, it.path) == Some(it.entry)
  {
    if ops != [] {
      var n := |ops| - 1;
      var c, op := Steps(Cache([], cap), ops[..n]), ops[n];
      RunBounded(Cache([], cap), ops[..n]);
      match op
      case Put(p, e) =>
        WithoutFacts(c.list, p, it);
        if it.path != p {
          NeverInvents(cap, ops[..n], it);
        } else {
          assert it == Item(p, e);
        }
      case Hit(p, _, _) =>
        if it !in c.list {
          HitMember(c.list, p, it);
        }
        NeverInvents(cap, ops[..n], it);
      case Drop(p) =>
        WithoutFacts(c.list, p, it);
        NeverInvents(cap, ops[..n], it);
      case DropBelow(dir) =>
        BelowFacts(c.list, dir, it);
        NeverInvents(cap, ops[..n], it);
      case Limit(_) =>
        NeverInvents(cap, ops[..n], it);
    }
  }

  // --- the cache as the client keeps it ---------------------------------------------------------

  predicate NoRepeats(names: seq<Name>) {
    forall i, j :: 0 <= i < j < |names| ==> names[i] != names[j]
  }

  /** The list of names and the map hold the same paths. */
  ghost predicate Listed(names: seq<Name>, entries: map<Name, Entry>) {
    && NoRepeats(names)
    && (forall k {:trigger names[k]} :: 0 <= k < |names| ==> names[k] in entries)
    && (forall p {:trigger p in entries} :: p in entries ==> p in names)
  }

  ghost function ItemsOf(names: seq<Name>, entries: map<Name, Entry>): seq<Item>
    requires forall k :: 0 <= k < |names| ==> names[k] in entries
  {
    seq(|names|, k requires 0 <= k < |names| => Item(names[k], entries[names[k]]))
  }

  lemma ListedWithout(names: seq<Name>, entries: map<Name, Entry>, k: nat)
    requires Listed(names, entries) && k < |names|
    ensures Listed(names[..k] + names[k + 1..], entries - {names[k]})
  {
    var rest, left := names[..k] + names[k + 1..], entries - {names[k]};
    assert forall j :: 0 <= j < |rest| ==> rest[j] == names[if j < k then j else j + 1];
    forall q | q in left ensures q in rest {
      var j :| 0 <= j < |names| && names[j] == q;
      assert rest[if j < k then j else j - 1] == q;
    }
  }

  lemma ItemsAfterErase(names: seq<Name>, entries: map<Name, Entry>, k: nat)
    requires Listed(names, entries) && k < |names|
    requires Listed(names[..k] + names[k + 1..], entries - {names[k]})
    ensures var l := ItemsOf(names, entries);
            ItemsOf(names[..k] + names[k + 1..], entries - {names[k]}) == l[..k] + l[k + 1..]
  {
  }

  lemma ItemsWithout(names: seq<Name>, entries: map<Name, Entry>, k: nat)
    requires Listed(names, entries) && k < |names|
    ensures var rest, left := names[..k] + names[k + 1..], entries - {names[k]};
            Listed(rest, left) && ItemsOf(rest, left) == Without(ItemsOf(names, entries), names[k])
    ensures Sum(ItemsOf(names, entries)) == Sum(Without(ItemsOf(names, entries), names[k])) + |entries[names[k]].data|
  {
    ListedWithout(names, entries, k);
    ItemsAfterErase(names, entries, k);
    ItemsDistinct(names, entries);
    WithoutAt(ItemsOf(names, entries), names[k], k);
  }

  lemma ListedFront(names: seq<Name>, entries: map<Name, Entry>, p: Name, e: Entry)
    requires Listed(names, entries) && p !in entries
    ensures Listed([p] + names, entries[p := e])
  {
    var longer, more := [p] + names, entries[p := e];
    forall q | q in more ensures q in longer {
      assert q != p ==> q in names;
    }
  }

  lemma ItemsFront(names: seq<Name>, entries: map<Name, Entry>, p: Name, e: Entry)
    requires Listed(names, entries) && p !in entries
    ensures Listed([p] + names, entries[p := e])
    ensures ItemsOf([p] + names, entries[p := e]) == [Item(p, e)] + ItemsOf(names, entries)
    ensures Sum(ItemsOf([p] + names, entries[p := e])) == |e.data| + Sum(ItemsOf(names, entries))
  {
    ListedFront(names, entries, p, e);
    SumFront(Item(p, e), ItemsOf(names, entries));
  }

  /** Splicing a name to the front of the list. */
  lemma ItemsSpliced(names: seq<Name>, entries: map<Name, Entry>, k: nat)
    requires Listed(names, entries) && k < |names|
    ensures var p, moved := names[k], [names[k]] + (names[..k] + names[k + 1..]);
            && Listed(moved, entries)
            && ItemsOf(moved, entries) == [Item(p, entries[p])] + Without(ItemsOf(names, entries), p)
  {
    var p, e := names[k], entries[names[k]];
    ItemsWithout(names, entries, k);
    ItemsFront(names[..k] + names[k + 1..], entries - {p}, p, e);
    assert (entries - {p})[p := e] == entries;
  }

  lemma ItemsDistinct(names: seq<Name>, entries: map<Name, Entry>)
    requires Listed(names, entries)
    ensures Distinct(ItemsOf(names, entries))
    ensures forall p :: Holds(ItemsOf(names, entries), p) <==> p in entries
  {
    forall p | p in entries ensures Holds(ItemsOf(names, entries), p) {
      var j :| 0 <= j < |names| && names[j] == p;
      assert ItemsOf(names, entries)[j].path == p;
    }
  }

  lemma {:induction false} LastErased(l: seq<Item>)
    requires Distinct(l) && l != []
    ensures Without(l, l[|l| - 1].path) == l[..|l| - 1]
  {
    var n := |l| - 1;
    WithoutAt(l, l[n].path, n);
    assert l[..n] + l[n + 1..] == l[..n];
  }

  class Store {
    var entries: map<Name, Entry>
    var lru: seq<Name>
    var bytes: nat
    var cap: nat

    ghost predicate Valid()
      reads this
    {
      Listed(lru, entries) && bytes == Sum(ItemsOf(lru, entries))
    }

    ghost function View(): Cache
      requires Valid()
      reads this
    {
      Cache(ItemsOf(lru, entries), cap)
    }

    constructor (cap: nat)
      ensures Valid() && View() == Cache([], cap)
    {
      entries, lru, bytes, this.cap := map[], [], 0, cap;
    }

    /** cache_erase, given the place its iterator points at. */
    method EraseAt(k: nat)
      requires Valid() && k < |lru|
      modifies `entries, `lru, `bytes
      ensures Valid() && View() == old(View()).(list := Without(old(View()).list, old(lru[k])))
      ensures lru == old(lru[..k] + lru[k + 1..]) && entries == old(entries - {lru[k]})
    {
      ItemsWithout(lru, entries, k);
      var p := lru[k];
      bytes := bytes - |entries[p].data|;
      lru := lru[..k] + lru[k + 1..];
      entries := entries - {p};
    }

    /** The place of a path's own list node. */
    method Locate(p: Name) returns (k: nat)
      requires Valid() && p in entries
      ensures k < |lru| && lru[k] == p
    {
      k := 0;
      while lru[k] != p
        invariant k < |lru| && forall j :: 0 <= j < k ==> lru[j] != p
        decreases |lru| - k
      {
        assert p in lru;
        k := k + 1;
      }
    }

    /** Erases the least recently used entry. */
    method EvictLast()
      requires Valid() && lru != []
      modifies `entries, `lru, `bytes
      ensures Valid() && |lru| == old(|lru|) - 1
      ensures View() == old(View()).(list := old(View()).list[..|old(lru)| - 1])
    {
      var n := |lru| - 1;
      ItemsDistinct(lru, entries);
      LastErased(View().list);
      EraseAt(n);
    }

    method Evict()
      requires Valid()
      modifies `entries, `lru, `bytes
      ensures Valid() && View() == old(View()).(list := Evicted(old(View()).list, cap))
    {
      ghost var l := View().list;
      while bytes > cap && |entries| > 1
        invariant Valid()
        invariant Evicted(View().list, cap) == Evicted(l, cap)
        decreases |lru|
      {
        SameCount(lru, entries);
        EvictLast();
      }
      SameCount(lru, entries);
    }

    method CachePut(p: Name, e: Entry)
      requires Valid()
      modifies this
      ensures Valid() && View() == Step(old(View()), Put(p, e))
    {
      Forget(p);
      ItemsFront(lru, entries, p, e);
      bytes := bytes + |e.data|;
      lru := [p] + lru;
      entries := entries[p := e];
      Evict();
    }

    /** Erases the path's entry if there is one. */
    method Forget(p: Name)
      requires Valid()
      modifies `entries, `lru, `bytes
      ensures Valid() && p !in entries
      ensures View() == old(View()).(list := Without(old(View()).list, p))
    {
      if p in entries {
        DropOne(p);
      } else {
        WithoutAbsent(View().list, p);
      }
    }

    method DropCached(p: Name)
      requires Valid()
      modifies this
      ensures Valid() && View() == Step(old(View()), Drop(p))
    {
      Forget(p);
    }

    method SetLimit(limit: nat)
      requires Valid()
      modifies this
      ensures Valid() && View() == Step(old(View()), Limit(limit))
    {
      cap := limit;
      Evict();
    }

    /** A lookup for a version: a hit becomes the most recent entry. */
    method Lookup(p: Name, mtimeNs: int, size: nat) returns (hit: Option<seq<byte>>)
      requires Valid()
      modifies this
      ensures Valid() && View() == Step(old(View()), Hit(p, mtimeNs, size))
      ensures hit.Some? <==> p in old(entries) && old(entries)[p].mtimeNs == mtimeNs && old(entries)[p].size == size
      ensures hit.Some? ==> hit.value == old(entries)[p].data
      ensures hit == match Find(old(View()).list, p)
                     case None => None
                     case Some(e) => if e.mtimeNs == mtimeNs && e.size == size then Some(e.data) else None
    {
      ghost var l := View().list;
      ItemsDistinct(lru, entries);
      FindIs(l, p);
      if p !in entries {
        return None;
      }
      var k := Locate(p);
      assert l[k] == Item(p, entries[p]);
      if entries[p].mtimeNs != mtimeNs || entries[p].size != size {
        return None;
      }
      HitSame(l, p);
      ItemsSpliced(lru, entries, k);
      hit := Some(entries[p].data);
      lru := [lru[k]] + (lru[..k] + lru[k + 1..]);
    }

    /** Every cached path at or below a directory, in whatever order the table is walked. */
    method DropCachedPrefix(dir: Name)
      requires Valid()
      modifies this
      ensures Valid() && View() == Step(old(View()), DropBelow(dir))
    {
      ghost var l := View().list;
      var todo := entries.Keys;
      while todo != {}
        invariant Valid() && cap == old(cap) && todo <= entries.Keys
        invariant WithoutBelow(View().list, dir) == WithoutBelow(l, dir)
        invariant forall p {:trigger p in entries} :: p in entries && p !in todo ==> !IsUnder(p, dir)
        decreases |todo|
      {
        var p :| p in todo;
        todo := todo - {p};
        if IsUnder(p, dir) {
          BelowWithout(View().list, dir, p);
          DropOne(p);
        }
      }
      BelowNone(View().list, dir);
    }

    method DropOne(p: Name)
      requires Valid() && p in entries
      modifies `entries, `lru, `bytes
      ensures Valid() && entries == old(entries) - {p}
      ensures View() == old(View()).(list := Without(old(View()).list, p))
    {
      var k := Locate(p);
      EraseAt(k);
    }
  }

  lemma SameCount(names: seq<Name>, entries: map<Name, Entry>)
    requires Listed(names, entries)
    ensures |entries| == |names|
  {
    DistinctCount(names);
    assert entries.Keys == set k | 0 <= k < |names| :: names[k];
  }

  lemma {:induction false} DistinctCount(names: seq<Name>)
    requires NoRepeats(names)
    ensures |set k | 0 <= k < |names| :: names[k]| == |names|
  {
    if names != [] {
      var n := |names| - 1;
      DistinctCount(names[..n]);
      var front := set k | 0 <= k < n :: names[..n][k];
      assert (set k | 0 <= k < |names| :: names[k]) == front + {names[n]};
    }
  }

  lemma {:induction false} BelowWithout(l: seq<Item>, dir: Name, p: Name)
    requires IsUnder(p, dir)
    ensures WithoutBelow(Without(l, p), dir) == WithoutBelow(l, dir)
  {
    if l != [] {
      var n := |l| - 1;
      BelowWithout(l[..n], dir, p);
      var w := Without(l[..n], p);
      assert (w + [l[n]])[..|w|] == w && w + [] == w;
    }
  }

  lemma {:induction false} BelowNone(l: seq<Item>, dir: Name)
    requires forall k :: 0 <= k < |l| ==> !IsUnder(l[k].path, dir)
    ensures WithoutBelow(l, dir) == l
  {
    if l != [] {
      BelowNone(l[..|l| - 1], dir);
    }
  }
}
