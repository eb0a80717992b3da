/** What the coalescer keeps of a burst of watcher events: one entry per path. */
module CoalescerEvents {
  import opened Types

  datatype EventKind = Created | Modified | Removed | RenamedFrom | RenamedTo | Overflow

  datatype FsEvent = FsEvent(kind: EventKind, path: Name, cookie: nat)

  datatype OpKind = Upsert | Remove | Rescan

  datatype ChangeKind = Unknown | WasCreated | WasModified | WasRemoved | MovedFrom | MovedTo

  datatype Entry = Entry(kind: OpKind, order: nat, appeared: bool, change: ChangeKind, cookie: nat)

  datatype Item = Item(path: Name, entry: Entry)

  datatype PlannedOp = PlannedOp(kind: OpKind, path: Name, appeared: bool, change: ChangeKind, cookie: nat)

  datatype Options = Options(maxPending: nat, quietPeriod: int, maxLatency: int)

  datatype Rep = Rep(pending: map<Name, Entry>, order: nat, overflow: bool, first: int, last: int)

  // --- push -------------------------------------------------------------------------------

  predicate Removes(k: EventKind) {
    k.Removed? || k.RenamedFrom?
  }

  predicate Appears(k: EventKind) {
    k.Created? || k.RenamedTo?
  }

  function ChangeOf(k: EventKind): ChangeKind {
    match k
    case Created => WasCreated
    case Modified => WasModified
    case Removed => WasRemoved
    case RenamedFrom => MovedFrom
    case RenamedTo => MovedTo
    case Overflow => Unknown
  }

  function CookieOf(e: FsEvent): nat {
    if e.kind.RenamedFrom? || e.kind.RenamedTo? then e.cookie else 0
  }

  /** The entry an event leaves for its path. */
  function Collapsed(previous: Option<Entry>, e: FsEvent, order: nat): Entry {
    var kind := if Removes(e.kind) then Remove else Upsert;
    match previous
    case None => Entry(kind, order, Appears(e.kind), ChangeOf(e.kind), CookieOf(e))
    case Some(was) =>
      var keep := e.kind.Modified? && (was.change.WasCreated? || was.change.MovedTo?);
      Entry(kind, order, kind.Upsert? && (Appears(e.kind) || was.appeared),
            if keep then was.change else ChangeOf(e.kind), if keep then was.cookie else CookieOf(e))
  }

  function Find(m: map<Name, Entry>, p: Name): Option<Entry> {
    if p in m then Some(m[p]) else None
  }

  function Pushed(c: Rep, e: FsEvent, now: int): Rep {
    var first := if c.pending == map[] && !c.overflow then now else c.first;
    if e.kind.Overflow? then Rep(map[], c.order, true, first, now)
    else if c.overflow then c.(first := first, last := now)
    else Rep(c.pending[e.path := Collapsed(Find(c.pending, e.path), e, c.order + 1)], c.order + 1, false, first, now)
  }

  function Empty(order: nat): Rep {
    Rep(map[], order, false, 0, 0)
  }

  /** Every event since the last take, each with its arrival time. */
  function AfterAll(start: Rep, events: seq<(FsEvent, int)>): Rep {
    if events == [] then start
    else Pushed(AfterAll(start, events[..|events| - 1]), events[|events| - 1].0, events[|events| - 1].1)
  }

  predicate HasOverflow(events: seq<(FsEvent, int)>) {
    exists k :: 0 <= k < |events| && events[k].0.kind.Overflow?
  }

  /** `k` is the last event on `p`. */
  predicate LastOn(events: seq<(FsEvent, int)>, p: Name, k: int) {
    && 0 <= k < |events| && events[k].0.path == p
    && forall j :: k < j < |events| ==> events[j].0.path != p
  }

  /** Since its last removal something has appeared at `p`. */
  predicate NewAt(events: seq<(FsEvent, int)>, p: Name) {
    exists j :: 0 <= j < |events| && events[j].0.path == p && Appears(events[j].0.kind)
                && forall i :: j < i < |events| && events[i].0.path == p ==> !Removes(events[i].0.kind)
  }

  /** `k` is the last event on `p` that is not a mere modification. */
  predicate LastReal(events: seq<(FsEvent, int)>, p: Name, k: int) {
    && 0 <= k < |events| && events[k].0.path == p && !events[k].0.kind.Modified?
    && forall j :: k < j < |events| && events[j].0.path == p ==> events[j].0.kind.Modified?
  }

  /** The event whose change is reported: writes after an arrival do not hide it. */
  predicate Reports(events: seq<(FsEvent, int)>, p: Name, k: int) {
    LastReal(events, p, k) && (LastOn(events, p, k) || Appears(events[k].0.kind))
  }

  /** What `p`'s entry must be, read off the whole history. */
  ghost predicate Summarises(events: seq<(FsEvent, int)>, start: nat, p: Name, c: Rep) {
    && (p in c.pending <==> exists k :: LastOn(events, p, k))
    && forall k :: LastOn(events, p, k) && p in c.pending ==>
         && c.pending[p].order == start + k + 1
         && (c.pending[p].kind == if Removes(events[k].0.kind) then Remove else Upsert)
         && (c.pending[p].appeared <==> NewAt(events, p))
         && ReportedRight(events, p, c.pending[p])
  }

  ghost predicate ReportedRight(events: seq<(FsEvent, int)>, p: Name, e: Entry) {
    && (forall k :: Reports(events, p, k) ==> e.change == ChangeOf(events[k].0.kind) && e.cookie == CookieOf(events[k].0))
    && ((forall k :: !Reports(events, p, k)) ==> e.change == WasModified && e.cookie == 0)
  }

  lemma {:induction false} OverflowSticks(start: Rep, events: seq<(FsEvent, int)>)
    requires !start.overflow && start.pending == map[]
    ensures AfterAll(start, events).overflow <==> HasOverflow(events)
    ensures HasOverflow(events) ==> AfterAll(start, events).pending == map[]
  {
    if events != [] {
      var n := |events| - 1;
      OverflowSticks(start, events[..n]);
      if HasOverflow(events) && !events[n].0.kind.Overflow? {
        var k :| 0 <= k < |events| && events[k].0.kind.Overflow?;
        assert events[..n][k] == events[k];
      }
      if HasOverflow(events[..n]) {
        var k :| 0 <= k < n && events[..n][k].0.kind.Overflow?;
        assert events[k] == events[..n][k];
      }
    }
  }

  /** Without an overflow the pending entries are exactly the summaries of the paths touched. */
  lemma {:induction false} PendingSummarises(start: Rep, events: seq<(FsEvent, int)>, p: Name)
    requires !start.overflow && start.pending == map[] && !HasOverflow(events)
    ensures Summarises(events, start.order, p, AfterAll(start, events))
    ensures AfterAll(start, events).order == start.order + |events| && !AfterAll(start, events).overflow
  {
    if events != [] {
      var n := |events| - 1;
      assert forall k :: 0 <= k < n ==> events[..n][k] == events[k];
      assert !events[n].0.kind.Overflow?;
      PendingSummarises(start, events[..n], p);
      assert events == events[..n] + [events[n]];
      if events[n].0.path == p {
        SummaryHere(start.order, events[..n], events[n], AfterAll(start, events[..n]));
      } else {
        SummaryElsewhere(start.order, events[..n], events[n], p, AfterAll(start, events[..n]));
      }
    }
  }

  lemma LastOnStep(events: seq<(FsEvent, int)>, p: Name, k: int)
    requires events != []
    ensures var n := |events| - 1;
            LastOn(events, p, k) <==> if events[n].0.path == p then k == n else LastOn(events[..n], p, k)
  {
    var n := |events| - 1;
    assert forall j :: 0 <= j < n ==> events[..n][j] == events[j];
    if k < n && events[n].0.path != p && LastOn(events[..n], p, k) {
      assert events[..n][k] == events[k];
    }
  }

  lemma NewAtStep(events: seq<(FsEvent, int)>, p: Name)
    requires events != []
    ensures var n := |events| - 1;
            NewAt(events, p) <==>
              if events[n].0.path != p then NewAt(events[..n], p)
              else !Removes(events[n].0.kind) && (Appears(events[n].0.kind) || NewAt(events[..n], p))
  {
    var n := |events| - 1;
    assert forall j :: 0 <= j < n ==> events[..n][j] == events[j];
    if NewAt(events, p) {
      var j :| 0 <= j < |events| && events[j].0.path == p && Appears(events[j].0.kind)
               && forall i :: j < i < |events| && events[i].0.path == p ==> !Removes(events[i].0.kind);
      assert j < n ==> events[..n][j] == events[j];
    }
    if NewAt(events[..n], p) {
      var j :| 0 <= j < n && events[..n][j].0.path == p && Appears(events[..n][j].0.kind)
               && forall i :: j < i < n && events[..n][i].0.path == p ==> !Removes(events[..n][i].0.kind);
      assert events[j].0.path == p;
    }
  }

  lemma LastRealStep(events: seq<(FsEvent, int)>, p: Name, k: int)
    requires events != []
    ensures var n := |events| - 1;
            LastReal(events, p, k) <==>
              if events[n].0.path == p && !events[n].0.kind.Modified? then k == n else LastReal(events[..n], p, k)
  {
    var n := |events| - 1;
    assert forall j :: 0 <= j < n ==> events[..n][j] == events[j];
    if k < n && LastReal(events[..n], p, k) {
      assert events[..n][k] == events[k];
    }
  }

  lemma ReportsStep(events: seq<(FsEvent, int)>, p: Name, k: int)
    requires events != []
    ensures var n := |events| - 1;
            Reports(events, p, k) <==>
              if events[n].0.path != p then Reports(events[..n], p, k)
              else if !events[n].0.kind.Modified? then k == n
              else Reports(events[..n], p, k) && Appears(events[k].0.kind)
  {
    LastOnStep(events, p, k);
    LastRealStep(events, p, k);
    var n := |events| - 1;
    if 0 <= k < n {
      assert events[..n][k] == events[k];
    }
  }

  lemma ReportedStep(before: seq<(FsEvent, int)>, last: (FsEvent, int), previous: Option<Entry>, order: nat)
    requires !last.0.kind.Overflow?
    requires previous.Some? ==> ReportedRight(before, last.0.path, previous.value)
    requires previous.None? ==> forall k :: !Reports(before, last.0.path, k)
    ensures ReportedRight(before + [last], last.0.path, Collapsed(previous, last.0, order))
  {
    var events, p, n := before + [last], last.0.path, |before|;
    assert events[..n] == before;
    forall k ensures Reports(events, p, k) <==>
                       if !last.0.kind.Modified? then k == n else Reports(before, p, k) && Appears(before[k].0.kind) {
      ReportsStep(events, p, k);
    }
    assert !last.0.kind.Modified? ==> Reports(events, p, n);
    if last.0.kind.Modified? && previous.Some? {
      if k :| Reports(before, p, k) {
        ReportsOnce(before, p, k);
        assert Reports(events, p, k) <==> Appears(before[k].0.kind);
      }
    }
  }

  lemma ReportsOnce(events: seq<(FsEvent, int)>, p: Name, k: int)
    requires Reports(events, p, k)
    ensures forall j :: Reports(events, p, j) ==> j == k
  {
    forall j | Reports(events, p, j) ensures j == k {
    }
  }

  lemma SummaryHere(start: nat, before: seq<(FsEvent, int)>, last: (FsEvent, int), c: Rep)
    requires !last.0.kind.Overflow? && !c.overflow && c.order == start + |before|
    requires Summarises(before, start, last.0.path, c)
    ensures Summarises(before + [last], start, last.0.path, Pushed(c, last.0, last.1))
  {
    var events, p, n := before + [last], last.0.path, |before|;
    assert events[..n] == before;
    forall k ensures LastOn(events, p, k) <==> k == n {
      LastOnStep(events, p, k);
    }
    assert LastOn(events, p, n);
    var previous := Find(c.pending, p);
    NewNeedsLast(before, p);
    ReportNeedsLast(before, p);
    if previous.Some? {
      var k :| LastOn(before, p, k);
      assert (c.pending[p].appeared <==> NewAt(before, p)) && ReportedRight(before, p, c.pending[p]);
    }
    EntryRight(before, last, previous, c.order + 1);
  }

  lemma EntryRight(before: seq<(FsEvent, int)>, last: (FsEvent, int), previous: Option<Entry>, order: nat)
    requires !last.0.kind.Overflow?
    requires previous.Some? ==> (previous.value.appeared <==> NewAt(before, last.0.path)) && ReportedRight(before, last.0.path, previous.value)
    requires previous.None? ==> !NewAt(before, last.0.path) && forall k :: !Reports(before, last.0.path, k)
    ensures var e := Collapsed(previous, last.0, order);
            (e.appeared <==> NewAt(before + [last], last.0.path)) && ReportedRight(before + [last], last.0.path, e)
  {
    var events := before + [last];
    assert events[..|before|] == before;
    NewAtStep(events, last.0.path);
    ReportedStep(before, last, previous, order);
  }

  lemma SummaryElsewhere(start: nat, before: seq<(FsEvent, int)>, last: (FsEvent, int), p: Name, c: Rep)
    requires !last.0.kind.Overflow? && !c.overflow && last.0.path != p
    requires Summarises(before, start, p, c)
    ensures Summarises(before + [last], start, p, Pushed(c, last.0, last.1))
  {
    var events, n := before + [last], |before|;
    assert events[..n] == before;
    forall k ensures LastOn(events, p, k) <==> LastOn(before, p, k) {
      LastOnStep(events, p, k);
    }
    forall k ensures Reports(events, p, k) <==> Reports(before, p, k) {
      ReportsStep(events, p, k);
    }
    NewAtStep(events, p);
  }

  lemma {:induction false} ReportNeedsLast(events: seq<(FsEvent, int)>, p: Name)
    ensures (exists k :: Reports(events, p, k)) ==> exists k :: LastOn(events, p, k)
  {
    if events != [] {
      var n := |events| - 1;
      ReportNeedsLast(events[..n], p);
      if events[n].0.path == p {
        assert LastOn(events, p, n);
      } else if k :| Reports(events, p, k) {
        ReportsStep(events, p, k);
        var j :| LastOn(events[..n], p, j);
        LastOnStep(events, p, j);
      }
    }
  }

  lemma {:induction false} NewNeedsLast(events: seq<(FsEvent, int)>, p: Name)
    ensures NewAt(events, p) ==> exists k :: LastOn(events, p, k)
  {
    if events != [] {
      var n := |events| - 1;
      NewNeedsLast(events[..n], p);
      NewAtStep(events, p);
      if events[n].0.path == p {
        assert LastOn(events, p, n);
      } else if k :| LastOn(events[..n], p, k) {
        LastOnStep(events, p, k);
      }
    }
  }
}
