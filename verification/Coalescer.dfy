/** The coalescer: collects events under a clock it is given and hands over one batch at a time. */
module Coalescer {
  import opened Types
  import opened Path
  import opened CoalescerEvents
  import opened CoalescerBatch

  /** What every push and take keeps. */
  ghost predicate Consistent(c: Rep) {
    && (c.overflow ==> c.pending == map[])
    && Wellformed(c.pending)
    && (forall p :: p in c.pending ==> 0 < c.pending[p].order <= c.order)
    && (forall p :: p in c.pending && !IsMove(c.pending[p].change) ==> c.pending[p].cookie == 0)
  }

  lemma PushedConsistent(c: Rep, e: FsEvent, now: int)
    requires Consistent(c)
    ensures Consistent(Pushed(c, e, now))
  {
  }

  predicate IsReady(opts: Options, c: Rep, now: int) {
    || c.overflow
    || (c.pending != map[]
        && (|c.pending| >= opts.maxPending || now - c.last >= opts.quietPeriod || now - c.first >= opts.maxLatency))
  }

  function Due(opts: Options, c: Rep): Option<int> {
    if c.overflow then Some(c.last)
    else if c.pending == map[] then None
    else if |c.pending| >= opts.maxPending then Some(c.last)
    else Some(if c.last + opts.quietPeriod <= c.first + opts.maxLatency then c.last + opts.quietPeriod
              else c.first + opts.maxLatency)
  }

  /** The deadline is the moment from which the batch is ready, as long as nothing else arrives. */
  lemma DeadlineExact(opts: Options, c: Rep, now: int)
    requires now >= c.last
    ensures IsReady(opts, c, now) <==> Due(opts, c).Some? && now >= Due(opts, c).value
  {
  }

  /** Pushing never postpones a batch past its latency bound. */
  lemma {:induction false} LatencyBound(opts: Options, start: Rep, events: seq<(FsEvent, int)>, now: int)
    requires Consistent(start) && start.pending != map[] && !start.overflow && now - start.first >= opts.maxLatency
    ensures IsReady(opts, AfterAll(start, events), now)
  {
    FirstKept(start, events);
  }

  lemma {:induction false} FirstKept(start: Rep, events: seq<(FsEvent, int)>)
    requires start.pending != map[] && !start.overflow
    ensures AfterAll(start, events).first == start.first
    ensures AfterAll(start, events).overflow || AfterAll(start, events).pending != map[]
  {
    if events != [] {
      var n := |events| - 1;
      FirstKept(start, events[..n]);
      if !events[n].0.kind.Overflow? && !AfterAll(start, events[..n]).overflow {
        assert events[n].0.path in AfterAll(start, events).pending;
      }
    }
  }

  function ToOp(it: Item): PlannedOp {
    PlannedOp(it.entry.kind, it.path, it.entry.appeared, it.entry.change, it.entry.cookie)
  }

  lemma DistinctPaths(items: seq<Item>)
    requires ByPath(items)
    ensures forall i, j :: 0 <= i < j < |items| ==> items[i].path != items[j].path
  {
    forall i, j | 0 <= i < j < |items| ensures items[i].path != items[j].path {
      LessTotal(items[i].path, items[i].path);
    }
  }

  /** Different kept items have different numbers. */
  lemma {:induction false} KeptNumbered(pending: map<Name, Entry>, sorted: seq<Item>)
    requires Wellformed(pending) && Lists(sorted, pending) && ByPath(sorted)
    ensures var kept := Kept(sorted, |sorted|);
            forall i, j :: 0 <= i < j < |kept| ==> kept[i].entry.order != kept[j].entry.order
  {
    var kept := Kept(sorted, |sorted|);
    KeptByPath(sorted, |sorted|);
    DistinctPaths(kept);
    forall i, j | 0 <= i < j < |kept| ensures kept[i].entry.order != kept[j].entry.order {
      assert kept[i].path != kept[j].path;
      assert kept[i] in sorted && kept[j] in sorted;
    }
  }

  lemma {:induction false} FinalEntry(pending: map<Name, Entry>, sorted: seq<Item>, final: seq<Item>, k: nat)
    requires Lists(sorted, pending) && SameItems(final, Kept(sorted, |sorted|)) && k < |final|
    ensures final[k].path in pending && pending[final[k].path] == final[k].entry
  {
    assert final[k] in final;
    var i := KeptFrom(sorted, |sorted|, final[k]);
  }

  /** The op says of the change what its pending entry says. */
  predicate Tells(pending: map<Name, Entry>, op: PlannedOp) {
    op.path in pending && op.change == pending[op.path].change && op.cookie == pending[op.path].cookie
  }

  predicate AllTell(pending: map<Name, Entry>, ops: seq<PlannedOp>) {
    forall k {:trigger ops[k]} :: 0 <= k < |ops| ==> Tells(pending, ops[k])
  }

  lemma {:induction false} FinalTells(pending: map<Name, Entry>, sorted: seq<Item>, final: seq<Item>, ops: seq<PlannedOp>)
    requires Lists(sorted, pending) && SameItems(final, Kept(sorted, |sorted|))
    requires |ops| == |final| && forall k :: 0 <= k < |ops| ==> ops[k] == ToOp(final[k])
    ensures AllTell(pending, ops)
  {
    forall k | 0 <= k < |ops| ensures Tells(pending, ops[k]) {
      FinalEntry(pending, sorted, final, k);
    }
  }

  // --- which changes a batch reports ------------------------------------------------------------

  /** Some op of the batch stands for this half of a move. */
  predicate HalfPending(pending: map<Name, Entry>, ops: seq<PlannedOp>, cookie: nat, half: ChangeKind) {
    exists i :: 0 <= i < |ops| && ops[i].path in pending && pending[ops[i].path].change == half
                && pending[ops[i].path].cookie == cookie
  }

  predicate CookiePending(pending: map<Name, Entry>, ops: seq<PlannedOp>) {
    exists i :: 0 <= i < |ops| && ops[i].path in pending && IsMove(pending[ops[i].path].change)
                && pending[ops[i].path].cookie != 0
  }

  /** What an op reports, read off the pending entries. */
  predicate ReportsEntry(pending: map<Name, Entry>, ops: seq<PlannedOp>, op: PlannedOp)
    requires op.path in pending
  {
    var e := pending[op.path];
    if !IsMove(e.change) then op.change == e.change && op.cookie == 0
    else if e.cookie != 0 && HalfPending(pending, ops, e.cookie, MovedFrom) && HalfPending(pending, ops, e.cookie, MovedTo)
    then op.change == e.change && op.cookie == e.cookie
    else if CookiePending(pending, ops) then op.change == (if e.change.MovedFrom? then WasRemoved else WasCreated) && op.cookie == 0
    else op.change == e.change && op.cookie == 0
  }

  ghost predicate Reported(pending: map<Name, Entry>, ops: seq<PlannedOp>) {
    forall k {:trigger ops[k]} :: 0 <= k < |ops| ==> ops[k].path in pending && ReportsEntry(pending, ops, ops[k])
  }

  lemma HalvesAgree(pending: map<Name, Entry>, ops: seq<PlannedOp>, cookie: nat, half: ChangeKind)
    requires AllTell(pending, ops)
    ensures HasHalf(ops, cookie, half) <==> HalfPending(pending, ops, cookie, half)
    ensures AnyCookie(ops) <==> CookiePending(pending, ops)
  {
    if HasHalf(ops, cookie, half) {
      var i :| 0 <= i < |ops| && ops[i].cookie == cookie && ops[i].change == half;
      assert Tells(pending, ops[i]);
    }
    if AnyCookie(ops) {
      var i :| 0 <= i < |ops| && IsMove(ops[i].change) && ops[i].cookie != 0;
      assert Tells(pending, ops[i]);
    }
    if HalfPending(pending, ops, cookie, half) {
      var i :| 0 <= i < |ops| && ops[i].path in pending && pending[ops[i].path].change == half
               && pending[ops[i].path].cookie == cookie;
      assert Tells(pending, ops[i]);
    }
    if CookiePending(pending, ops) {
      var i :| 0 <= i < |ops| && ops[i].path in pending && IsMove(pending[ops[i].path].change)
               && pending[ops[i].path].cookie != 0;
      assert Tells(pending, ops[i]);
    }
  }

  /** Only paths matter to which halves are pending. */
  lemma SamePaths(pending: map<Name, Entry>, ops: seq<PlannedOp>, r: seq<PlannedOp>, cookie: nat, half: ChangeKind)
    requires |r| == |ops| && forall k :: 0 <= k < |ops| ==> r[k].path == ops[k].path
    ensures HalfPending(pending, r, cookie, half) <==> HalfPending(pending, ops, cookie, half)
    ensures CookiePending(pending, r) <==> CookiePending(pending, ops)
  {
  }

  lemma RepairedReports(pending: map<Name, Entry>, ops: seq<PlannedOp>)
    requires AllTell(pending, ops) && forall p :: p in pending && !IsMove(pending[p].change) ==> pending[p].cookie == 0
    ensures Reported(pending, Repaired(ops))
  {
    var r := Repaired(ops);
    assert |r| == |ops| && forall k :: 0 <= k < |ops| ==> r[k].path == ops[k].path;
    forall k | 0 <= k < |r| ensures r[k].path in pending && ReportsEntry(pending, r, r[k]) {
      assert Tells(pending, ops[k]);
      var e := pending[ops[k].path];
      HalvesAgree(pending, ops, e.cookie, MovedFrom);
      HalvesAgree(pending, ops, e.cookie, MovedTo);
      SamePaths(pending, ops, r, e.cookie, MovedFrom);
      SamePaths(pending, ops, r, e.cookie, MovedTo);
      NoCookieNoMove(ops, k);
    }
  }

  lemma HalfSpelt(pending: map<Name, Entry>, ops: seq<PlannedOp>, cookie: nat)
    requires forall k :: 0 <= k < |ops| ==> ops[k].path in pending
    ensures HalfPending(pending, ops, cookie, MovedFrom) <==>
              exists i :: 0 <= i < |ops| && pending[ops[i].path].change.MovedFrom? && pending[ops[i].path].cookie == cookie
    ensures HalfPending(pending, ops, cookie, MovedTo) <==>
              exists i :: 0 <= i < |ops| && pending[ops[i].path].change.MovedTo? && pending[ops[i].path].cookie == cookie
  {
  }

  lemma CookieSpelt(pending: map<Name, Entry>, ops: seq<PlannedOp>)
    requires forall k :: 0 <= k < |ops| ==> ops[k].path in pending
    requires forall p :: p in pending && !IsMove(pending[p].change) ==> pending[p].cookie == 0
    ensures CookiePending(pending, ops) <==> !(forall i :: 0 <= i < |ops| ==> pending[ops[i].path].cookie == 0)
  {
  }

  /** What one op reports, in full. */
  lemma ReportedAt(pending: map<Name, Entry>, ops: seq<PlannedOp>, k: nat)
    requires k < |ops| && Reported(pending, ops)
    requires forall p :: p in pending && !IsMove(pending[p].change) ==> pending[p].cookie == 0
    ensures forall i :: 0 <= i < |ops| ==> ops[i].path in pending
    ensures var e := pending[ops[k].path];
            var from := exists i :: 0 <= i < |ops| && pending[ops[i].path].change.MovedFrom?
                                    && pending[ops[i].path].cookie == e.cookie;
            var to := exists i :: 0 <= i < |ops| && pending[ops[i].path].change.MovedTo?
                                  && pending[ops[i].path].cookie == e.cookie;
            && (!e.change.MovedFrom? && !e.change.MovedTo? ==> ops[k].change == e.change && ops[k].cookie == 0)
            && (e.cookie != 0 && from && to ==> ops[k].change == e.change && ops[k].cookie == e.cookie)
            && (e.change.MovedFrom? && e.cookie != 0 && !to ==> ops[k].change == WasRemoved && ops[k].cookie == 0)
            && (e.change.MovedTo? && e.cookie != 0 && !from ==> ops[k].change == WasCreated && ops[k].cookie == 0)
            && ((e.change.MovedFrom? || e.change.MovedTo?) && e.cookie == 0 ==>
                  && ops[k].cookie == 0
                  && ops[k].change == if forall i :: 0 <= i < |ops| ==> pending[ops[i].path].cookie == 0 then e.change
                                      else if e.change.MovedFrom? then WasRemoved else WasCreated)
  {
    forall i | 0 <= i < |ops| ensures ops[i].path in pending {
    }
    HalfSpelt(pending, ops, pending[ops[k].path].cookie);
    CookieSpelt(pending, ops);
  }

  lemma NoCookieNoMove(ops: seq<PlannedOp>, k: nat)
    requires k < |ops|
    ensures !AnyCookie(ops) && IsMove(ops[k].change) ==> ops[k].cookie == 0
  {
  }

  /** What pruning and sorting by arrival leave is a batch. */
  lemma {:induction false} FinalIsBatch(pending: map<Name, Entry>, sorted: seq<Item>, final: seq<Item>, ops: seq<PlannedOp>)
    requires Wellformed(pending) && Lists(sorted, pending) && ByPath(sorted)
    requires ByOrder(final) && SameItems(final, Kept(sorted, |sorted|))
    requires |ops| == |final| && forall k :: 0 <= k < |ops| ==>
               ops[k].path == final[k].path && ops[k].kind == final[k].entry.kind && ops[k].appeared == final[k].entry.appeared
    ensures IsBatch(pending, ops)
    ensures forall k :: 0 <= k < |sorted| ==> (HasOp(ops, sorted[k].path) <==> !Dropped(sorted, k))
  {
    forall k | 0 <= k < |final| ensures final[k].path in pending && pending[final[k].path] == final[k].entry {
      FinalEntry(pending, sorted, final, k);
    }
    forall k | 0 <= k < |sorted| ensures HasOp(ops, sorted[k].path) <==> !Dropped(sorted, k) {
      OpIffKept(sorted, final, ops, k);
    }
    forall p | p in pending ensures HasOp(ops, p) || RemovedAbove(pending, ops, p) {
      var b :| 0 <= b < |sorted| && sorted[b] == Item(p, pending[p]);
      if Dropped(sorted, b) {
        DroppedRemoved(pending, sorted, ops, b);
      }
    }
  }

  lemma {:induction false} OpIffKept(sorted: seq<Item>, final: seq<Item>, ops: seq<PlannedOp>, k: nat)
    requires ByPath(sorted) && k < |sorted| && SameItems(final, Kept(sorted, |sorted|))
    requires |ops| == |final| && forall k :: 0 <= k < |ops| ==> ops[k].path == final[k].path
    ensures HasOp(ops, sorted[k].path) <==> !Dropped(sorted, k)
  {
    if !Dropped(sorted, k) {
      KeptHas(sorted, |sorted|, k);
      var j :| 0 <= j < |final| && final[j] == sorted[k];
      assert ops[j].path == sorted[k].path;
    }
    if HasOp(ops, sorted[k].path) {
      var j :| 0 <= j < |ops| && ops[j].path == sorted[k].path;
      assert final[j] in final;
      var i := KeptFrom(sorted, |sorted|, final[j]);
      DistinctPaths(sorted);
      assert i == k;
    }
  }

  lemma DroppedRemoved(pending: map<Name, Entry>, sorted: seq<Item>, ops: seq<PlannedOp>, b: nat)
    requires Wellformed(pending) && Lists(sorted, pending) && ByPath(sorted) && b < |sorted| && Dropped(sorted, b)
    requires forall k {:trigger ops[k]} :: 0 <= k < |ops| ==> Speaks(pending, ops[k])
    requires forall k :: 0 <= k < |ops| ==> ops[k].path in pending
    requires forall k :: 0 <= k < |sorted| ==> (HasOp(ops, sorted[k].path) <==> !Dropped(sorted, k))
    ensures RemovedAbove(pending, ops, sorted[b].path)
  {
    var a := DroppedCovered(sorted, b);
    DistinctPaths(sorted);
    assert sorted[a].path != sorted[b].path;
    assert HasOp(ops, sorted[a].path);
    var k :| 0 <= k < |ops| && ops[k].path == sorted[a].path;
    assert Speaks(pending, ops[k]);
  }

  class Coalescer {
    const opts: Options
    var pending: map<Name, Entry>
    var order: nat
    var overflow: bool
    var first: int
    var last: int

    function Fields(): Rep
      reads this
    {
      Rep(pending, order, overflow, first, last)
    }

    ghost predicate Valid()
      reads this
    {
      Consistent(Fields())
    }

    constructor (options: Options)
      ensures opts == options && Fields() == Empty(0) && Valid()
    {
      opts := options;
      pending, order, overflow, first, last := map[], 0, false, 0, 0;
    }

    method Push(e: FsEvent, now: int)
      requires Valid()
      modifies this
      ensures Valid() && Fields() == Pushed(old(Fields()), e, now)
    {
      ghost var was := Fields();
      PushedConsistent(was, e, now);
      if pending == map[] && !overflow {
        first := now;
      }
      last := now;
      if e.kind.Overflow? {
        overflow := true;
        pending := map[];
        return;
      }
      if overflow {
        return;
      }
      var kind := if Removes(e.kind) then Remove else Upsert;
      var appeared, change, cookie := Appears(e.kind), ChangeOf(e.kind), CookieOf(e);
      if e.path in pending {
        var entry := pending[e.path];
        appeared := kind == Upsert && (appeared || entry.appeared);
        if change == WasModified && (entry.change == WasCreated || entry.change == MovedTo) {
          change, cookie := entry.change, entry.cookie;
        }
      }
      assert Entry(kind, order + 1, appeared, change, cookie) == Collapsed(Find(pending, e.path), e, order + 1);
      order := order + 1;
      pending := pending[e.path := Entry(kind, order, appeared, change, cookie)];
      assert Fields() == Pushed(was, e, now);
    }

    method Ready(now: int) returns (ready: bool)
      ensures ready == IsReady(opts, Fields(), now)
    {
      if overflow {
        return true;
      }
      if pending == map[] {
        return false;
      }
      if |pending| >= opts.maxPending {
        return true;
      }
      return now - last >= opts.quietPeriod || now - first >= opts.maxLatency;
    }

    method Deadline() returns (due: Option<int>)
      ensures due == Due(opts, Fields())
      ensures forall now :: now >= last ==> (IsReady(opts, Fields(), now) <==> due.Some? && now >= due.value)
    {
      if overflow {
        due := Some(last);
      } else if pending == map[] {
        due := None;
      } else if |pending| >= opts.maxPending {
        due := Some(last);
      } else {
        due := Some(if last + opts.quietPeriod <= first + opts.maxLatency then last + opts.quietPeriod else first + opts.maxLatency);
      }
    }

    /** The pending entries in no particular order. */
    method Collect() returns (items: seq<Item>)
      ensures Lists(items, pending)
      ensures forall i, j :: 0 <= i < j < |items| ==> items[i].path != items[j].path
    {
      items := [];
      var todo := pending.Keys;
      while todo != {}
        invariant todo <= pending.Keys
        invariant forall k :: 0 <= k < |items| ==>
                    items[k].path in pending && items[k].path !in todo && pending[items[k].path] == items[k].entry
        invariant forall p :: p in pending && p !in todo ==> Item(p, pending[p]) in items
        invariant forall i, j :: 0 <= i < j < |items| ==> items[i].path != items[j].path
        decreases |todo|
      {
        var p :| p in todo;
        items := items + [Item(p, pending[p])];
        todo := todo - {p};
      }
    }

    /** The planned batch, before moves are repaired. */
    method Plan() returns (ops: array<PlannedOp>, ghost sorted: seq<Item>)
      requires Valid()
      ensures fresh(ops) && Lists(sorted, pending) && ByPath(sorted)
      ensures IsBatch(pending, ops[..]) && AllTell(pending, ops[..])
      ensures forall k :: 0 <= k < |sorted| ==> (HasOp(ops[..], sorted[k].path) <==> !Dropped(sorted, k))
    {
      var items := Collect();
      var byPath := SortByPath(items);
      SameLists(items, byPath, pending);
      var kept := Prune(byPath);
      KeptNumbered(pending, byPath);
      var final := SortByOrder(kept);
      ops := new PlannedOp[|final|](i requires 0 <= i < |final| => ToOp(final[i]));
      FinalIsBatch(pending, byPath, final, ops[..]);
      FinalTells(pending, byPath, final, ops[..]);
      sorted := byPath;
    }

    method Drain() returns (ops: seq<PlannedOp>, ghost sorted: seq<Item>)
      requires Valid()
      ensures Lists(sorted, pending) && ByPath(sorted) && IsBatch(pending, ops) && Reported(pending, ops)
      ensures forall k :: 0 <= k < |sorted| ==> (HasOp(ops, sorted[k].path) <==> !Dropped(sorted, k))
      ensures forall k :: 0 <= k < |ops| && IsMove(ops[k].change) && ops[k].cookie != 0 ==> Matched(ops, ops[k].cookie)
    {
      var batch;
      batch, sorted := Plan();
      ghost var planned := batch[..];
      RepairMovePairs(batch);
      ops := batch[..];
      RepairedIsBatch(pending, planned);
      RepairedReports(pending, planned);
      forall k | 0 <= k < |ops| && IsMove(ops[k].change) && ops[k].cookie != 0 ensures Matched(ops, ops[k].cookie) {
        RepairMatches(planned, k);
      }
    }

    /**
     * Hands over the batch and starts afresh. `sorted` is the pending entries in path order:
     * an entry is missing from the batch exactly when a younger removal sweeps it. Each op reports the
     * change of its entry; a move whose other half is not in the batch is reported as what it amounts to.
     */
    method Take() returns (ops: seq<PlannedOp>, ghost sorted: seq<Item>)
      requires Valid()
      modifies this
      ensures Valid() && pending == map[] && !overflow && order == old(order)
      ensures old(overflow) ==> ops == [PlannedOp(Rescan, [], false, Unknown, 0)]
      ensures !old(overflow) ==> Lists(sorted, old(pending)) && ByPath(sorted) && IsBatch(old(pending), ops)
      ensures !old(overflow) ==> forall k :: 0 <= k < |sorted| ==> (HasOp(ops, sorted[k].path) <==> !Dropped(sorted, k))
      ensures forall k :: 0 <= k < |ops| && IsMove(ops[k].change) && ops[k].cookie != 0 ==> Matched(ops, ops[k].cookie)
      ensures !old(overflow) ==> Reported(old(pending), ops)
    {
      sorted := [];
      if overflow {
        overflow := false;
        pending := map[];
        return [PlannedOp(Rescan, [], false, Unknown, 0)], [];
      }
      if pending == map[] {
        return [], [];
      }
      ops, sorted := Drain();
      pending := map[];
    }
  }

  lemma SameLists(items: seq<Item>, sorted: seq<Item>, pending: map<Name, Entry>)
    requires Lists(items, pending) && SameItems(sorted, items)
    ensures Lists(sorted, pending)
  {
    forall k | 0 <= k < |sorted| ensures sorted[k].path in pending && pending[sorted[k].path] == sorted[k].entry {
      assert sorted[k] in items;
    }
  }

  /** Repairing moves leaves paths, kinds and order alone. */
  lemma RepairedIsBatch(pending: map<Name, Entry>, ops: seq<PlannedOp>)
    requires IsBatch(pending, ops)
    ensures IsBatch(pending, Repaired(ops))
    ensures forall p :: HasOp(Repaired(ops), p) <==> HasOp(ops, p)
  {
    var r := Repaired(ops);
    assert |r| == |ops| && forall k :: 0 <= k < |r| ==>
             r[k].path == ops[k].path && r[k].kind == ops[k].kind && r[k].appeared == ops[k].appeared;
    forall p ensures HasOp(r, p) <==> HasOp(ops, p) {
      if HasOp(ops, p) {
        var k :| 0 <= k < |ops| && ops[k].path == p;
        assert r[k].path == p;
      }
      if HasOp(r, p) {
        var k :| 0 <= k < |r| && r[k].path == p;
        assert ops[k].path == p;
      }
    }
    forall p | p in pending ensures HasOp(r, p) || RemovedAbove(pending, r, p) {
      if !HasOp(ops, p) {
        assert RemovedAbove(pending, ops, p);
        var k :| 0 <= k < |ops| && ops[k].kind.Remove? && IsUnder(p, ops[k].path)
                 && pending[p].order < pending[ops[k].path].order;
        assert r[k].path == ops[k].path;
      }
    }
  }
}
