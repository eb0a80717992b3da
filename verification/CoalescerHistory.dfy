/** The coalescer read against the whole history of events since the last take. */
module CoalescerHistory {
  import opened Types
  import opened Path
  import opened CoalescerEvents
  import opened CoalescerBatch
  import opened Coalescer

  // --- when a batch is due ------------------------------------------------------------------

  /** The two clocks: the first event since the last take, and the latest. */
  lemma {:induction false} Times(start: Rep, events: seq<(FsEvent, int)>)
    requires !start.overflow && start.pending == map[] && events != []
    ensures AfterAll(start, events).first == events[0].1
    ensures AfterAll(start, events).last == events[|events| - 1].1
    ensures AfterAll(start, events).overflow || AfterAll(start, events).pending != map[]
  {
    var n := |events| - 1;
    var before := AfterAll(start, events[..n]);
    if n > 0 {
      Times(start, events[..n]);
    }
    if !events[n].0.kind.Overflow? && !before.overflow {
      assert events[n].0.path in AfterAll(start, events).pending;
    }
  }

  function Touched(events: seq<(FsEvent, int)>): set<Name> {
    set k | 0 <= k < |events| :: events[k].0.path
  }

  lemma {:induction false} PendingKeys(start: Rep, events: seq<(FsEvent, int)>)
    requires !start.overflow && start.pending == map[] && !HasOverflow(events)
    ensures AfterAll(start, events).pending.Keys == Touched(events) && !AfterAll(start, events).overflow
  {
    if events != [] {
      var n := |events| - 1;
      assert forall k :: 0 <= k < n ==> events[..n][k] == events[k];
      assert !events[n].0.kind.Overflow?;
      PendingKeys(start, events[..n]);
      TouchedStep(events);
    }
  }

  lemma TouchedStep(events: seq<(FsEvent, int)>)
    requires events != []
    ensures Touched(events) == Touched(events[..|events| - 1]) + {events[|events| - 1].0.path}
  {
    var n := |events| - 1;
    forall p | p in Touched(events) ensures p in Touched(events[..n]) + {events[n].0.path} {
      var k :| 0 <= k < |events| && events[k].0.path == p;
      assert k < n ==> events[..n][k].0.path == p;
    }
    forall p | p in Touched(events[..n]) ensures p in Touched(events) {
      var k :| 0 <= k < n && events[..n][k].0.path == p;
      assert events[k].0.path == p;
    }
  }

  lemma {:induction false} KeysCount(m: map<Name, Entry>)
    ensures |m| == |m.Keys|
  {
    if m.Keys != {} {
      var p :| p in m.Keys;
      KeysCount(m - {p});
      assert (m - {p}).Keys == m.Keys - {p};
    }
  }

  /**
   * A batch is ready exactly when an overflow has come in, or as many distinct paths as allowed have been
   * touched, or nothing has come in for the quiet period, or the first event is as old as the latency limit.
   */
  lemma {:induction false} ReadyExactly(opts: Options, start: Rep, events: seq<(FsEvent, int)>, now: int)
    requires !start.overflow && start.pending == map[]
    ensures IsReady(opts, AfterAll(start, events), now) <==>
              && events != []
              && (|| (exists k :: 0 <= k < |events| && events[k].0.kind.Overflow?)
                  || |set k | 0 <= k < |events| :: events[k].0.path| >= opts.maxPending
                  || now - events[|events| - 1].1 >= opts.quietPeriod
                  || now - events[0].1 >= opts.maxLatency)
  {
    OverflowSticks(start, events);
    if events != [] {
      Times(start, events);
      if !HasOverflow(events) {
        PendingKeys(start, events);
        KeysCount(AfterAll(start, events).pending);
      }
    }
  }

  // --- what a batch reports -----------------------------------------------------------------

  /** The op a batch holds for a path, given how that path's events went. */
  lemma {:induction false} LastEventTold(start: Rep, events: seq<(FsEvent, int)>, ops: seq<PlannedOp>, k: nat, m: nat)
    requires !start.overflow && start.pending == map[] && forall n :: 0 <= n < |events| ==> !events[n].0.kind.Overflow?
    requires IsBatch(AfterAll(start, events).pending, ops) && Reported(AfterAll(start, events).pending, ops) && k < |ops|
    requires m < |events| && events[m].0.path == ops[k].path && forall n :: m < n < |events| ==> events[n].0.path != ops[k].path
    ensures events[m].0.kind.Removed? ==> ops[k] == PlannedOp(Remove, ops[k].path, false, WasRemoved, 0)
    ensures events[m].0.kind.Created? ==> ops[k] == PlannedOp(Upsert, ops[k].path, true, WasCreated, 0)
    ensures events[m].0.kind.RenamedFrom? ==> ops[k].kind == Remove && !ops[k].appeared
    ensures events[m].0.kind.RenamedTo? ==> ops[k].kind == Upsert && ops[k].appeared
    ensures (forall n :: 0 <= n < |events| && events[n].0.path == ops[k].path ==> events[n].0.kind.Modified?) ==>
              ops[k] == PlannedOp(Upsert, ops[k].path, false, WasModified, 0)
  {
    var c, p := AfterAll(start, events), ops[k].path;
    PendingSummarises(start, events, p);
    assert LastOn(events, p, m);
    assert Speaks(c.pending, ops[k]) && ReportsEntry(c.pending, ops, ops[k]);
    if !events[m].0.kind.Modified? {
      assert Reports(events, p, m);
      ReportsOnce(events, p, m);
      if Removes(events[m].0.kind) {
        assert !NewAt(events, p);
      } else {
        assert NewAt(events, p);
      }
    } else if forall n :: 0 <= n < |events| && events[n].0.path == p ==> events[n].0.kind.Modified? {
      assert !NewAt(events, p);
    }
  }

  /** What has been created stays reported as created, however often it is written afterwards. */
  lemma {:induction false} WritesDoNotHide(start: Rep, events: seq<(FsEvent, int)>, ops: seq<PlannedOp>, k: nat, m: nat)
    requires !start.overflow && start.pending == map[] && forall n :: 0 <= n < |events| ==> !events[n].0.kind.Overflow?
    requires IsBatch(AfterAll(start, events).pending, ops) && Reported(AfterAll(start, events).pending, ops) && k < |ops|
    requires m < |events| && events[m].0.path == ops[k].path && events[m].0.kind.Created?
    requires forall n :: m < n < |events| && events[n].0.path == ops[k].path ==> events[n].0.kind.Modified?
    ensures ops[k] == PlannedOp(Upsert, ops[k].path, true, WasCreated, 0)
  {
    ArrivalTold(start, events, ops, k, m);
  }

  /** An arrival and any writes after it, whichever way it came. */
  lemma {:induction false} ArrivalTold(start: Rep, events: seq<(FsEvent, int)>, ops: seq<PlannedOp>, k: nat, m: nat)
    requires !start.overflow && start.pending == map[] && !HasOverflow(events)
    requires IsBatch(AfterAll(start, events).pending, ops) && Reported(AfterAll(start, events).pending, ops) && k < |ops|
    requires m < |events| && events[m].0.path == ops[k].path && Appears(events[m].0.kind)
    requires forall n :: m < n < |events| && events[n].0.path == ops[k].path ==> events[n].0.kind.Modified?
    ensures ops[k].kind == Upsert && ops[k].appeared && ReportsEntry(AfterAll(start, events).pending, ops, ops[k])
    ensures AfterAll(start, events).pending[ops[k].path].change == ChangeOf(events[m].0.kind)
    ensures AfterAll(start, events).pending[ops[k].path].cookie == CookieOf(events[m].0)
  {
    var c, p := AfterAll(start, events), ops[k].path;
    PendingSummarises(start, events, p);
    assert Speaks(c.pending, ops[k]) && ReportsEntry(c.pending, ops, ops[k]);
    var l :| LastOn(events, p, l);
    assert l >= m;
    assert Reports(events, p, m);
    assert NewAt(events, p);
    assert l > m ==> events[l].0.kind.Modified?;
  }

  /**
   * A rename whose two halves are both in the batch comes out as a move: one path gone and one arrived,
   * under the cookie of the two events, whatever else happened and however often the new name was written.
   */
  lemma {:induction false} RenameComesOut(start: Rep, events: seq<(FsEvent, int)>, ops: seq<PlannedOp>, cookie: nat, i: nat, j: nat, k: nat, l: nat)
    requires !start.overflow && start.pending == map[] && forall n :: 0 <= n < |events| ==> !events[n].0.kind.Overflow?
    requires IsBatch(AfterAll(start, events).pending, ops) && Reported(AfterAll(start, events).pending, ops)
    requires cookie != 0 && k < |ops| && l < |ops|
    requires i < |events| && events[i].0 == FsEvent(RenamedFrom, ops[k].path, cookie)
    requires forall n :: i < n < |events| ==> events[n].0.path != ops[k].path
    requires j < |events| && events[j].0 == FsEvent(RenamedTo, ops[l].path, cookie)
    requires forall n :: j < n < |events| && events[n].0.path == ops[l].path ==> events[n].0.kind.Modified?
    ensures ops[k] == PlannedOp(Remove, ops[k].path, false, MovedFrom, cookie)
    ensures ops[l] == PlannedOp(Upsert, ops[l].path, true, MovedTo, cookie)
  {
    var c := AfterAll(start, events);
    LastEventTold(start, events, ops, k, i);
    PendingSummarises(start, events, ops[k].path);
    assert LastOn(events, ops[k].path, i) && Reports(events, ops[k].path, i);
    ArrivalTold(start, events, ops, l, j);
    assert Speaks(c.pending, ops[k]) && ReportsEntry(c.pending, ops, ops[k]);
    assert HalfPending(c.pending, ops, cookie, MovedFrom) && HalfPending(c.pending, ops, cookie, MovedTo);
  }

  lemma {:induction false} TwoPushed(start: Rep, e: FsEvent, f: FsEvent, now: int)
    ensures AfterAll(start, [(e, now), (f, now)]) == Pushed(Pushed(start, e, now), f, now)
  {
    var events := [(e, now), (f, now)];
    assert events[..1] == [(e, now)] && [(e, now)][..0] == [];
    assert AfterAll(start, [(e, now)]) == Pushed(start, e, now);
  }

  /** The two halves of one rename, pending together. */
  lemma RenamePending(start: Rep, a: Name, b: Name, cookie: nat, now: int, ops: seq<PlannedOp>)
    requires a != b && cookie != 0 && !start.overflow && start.pending == map[]
    requires var c := Pushed(Pushed(start, FsEvent(RenamedFrom, a, cookie), now), FsEvent(RenamedTo, b, cookie), now);
             IsBatch(c.pending, ops) && Reported(c.pending, ops)
    ensures ops == [PlannedOp(Remove, a, false, MovedFrom, cookie), PlannedOp(Upsert, b, true, MovedTo, cookie)]
  {
    var e, f := FsEvent(RenamedFrom, a, cookie), FsEvent(RenamedTo, b, cookie);
    var c := Pushed(Pushed(start, e, now), f, now);
    TwoPushed(start, e, f, now);
    assert c.pending.Keys == {a, b};
    TwoOps(c.pending, ops, a, b);
    RenameComesOut(start, [(e, now), (f, now)], ops, cookie, 0, 1, 0, 1);
  }

  /** `mv a b` and nothing else, pushed and taken. */
  method Rename(options: Options, a: Name, b: Name, cookie: nat, now: int) returns (ops: seq<PlannedOp>)
    requires a != b && cookie != 0
    ensures ops == [PlannedOp(Remove, a, false, MovedFrom, cookie), PlannedOp(Upsert, b, true, MovedTo, cookie)]
  {
    var c := new Coalescer(options);
    ghost var start := c.Fields();
    c.Push(FsEvent(RenamedFrom, a, cookie), now);
    c.Push(FsEvent(RenamedTo, b, cookie), now);
    ghost var sorted;
    ops, sorted := c.Take();
    RenamePending(start, a, b, cookie, now, ops);
  }

  lemma OncePerPath(pending: map<Name, Entry>, ops: seq<PlannedOp>, i: nat, j: nat)
    requires IsBatch(pending, ops) && i < |ops| && j < |ops| && ops[i].path == ops[j].path
    ensures i == j
  {
    assert Speaks(pending, ops[i]) && Speaks(pending, ops[j]);
  }

  /** Two entries, the younger of them an upsert: both have their op, in order. */
  lemma TwoOps(pending: map<Name, Entry>, ops: seq<PlannedOp>, a: Name, b: Name)
    requires a != b && pending.Keys == {a, b} && IsBatch(pending, ops)
    requires pending[a].order < pending[b].order && pending[b].kind.Upsert?
    ensures |ops| == 2 && ops[0].path == a && ops[1].path == b
  {
    forall k | 0 <= k < |ops| ensures ops[k].path == a || ops[k].path == b {
      assert Speaks(pending, ops[k]);
    }
    assert HasOp(ops, a) || RemovedAbove(pending, ops, a);
    assert HasOp(ops, b) || RemovedAbove(pending, ops, b);
    var l :| 0 <= l < |ops| && ops[l].path == b;
    var k :| 0 <= k < |ops| && ops[k].path == a;
    forall i {:trigger ops[i]} | 0 <= i < |ops| ensures i == k || i == l {
      if ops[i].path == a {
        OncePerPath(pending, ops, i, k);
      } else {
        OncePerPath(pending, ops, i, l);
      }
    }
    assert Speaks(pending, ops[k]) && Speaks(pending, ops[l]);
    assert k < l;
    var last := |ops| - 1;
    assert ops[last] in ops && ops[last - 1] in ops && ops[0] in ops;
  }
}
