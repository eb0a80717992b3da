/** What the coalescer hands over is a batch the coherence protocol may take. */
module Handover {
  import opened Types
  import opened Path
  import opened PathMap
  import opened CoalescerEvents
  import opened CoalescerBatch
  import Coherence

  /** Watchers report normalised paths below the root. */
  ghost predicate Normal(pending: map<Name, Entry>) {
    forall p {:trigger p in pending} :: p in pending ==> p == Join(Components(p)) && AllPlain(Components(p)) && p != []
  }

  function EventOf(kind: OpKind, appeared: bool): Coherence.Event {
    if kind.Remove? then Coherence.Vanished else if appeared then Coherence.Appeared else Coherence.Touched
  }

  /** The pending entries by component path. */
  ghost function Located(pending: map<Name, Entry>): map<Location, Coherence.Event> {
    map l | l in (set p | p in pending :: Components(p)) && Join(l) in pending ::
      EventOf(pending[Join(l)].kind, pending[Join(l)].appeared)
  }

  function PlannedOps(ops: seq<PlannedOp>): seq<Coherence.Planned> {
    seq(|ops|, k requires 0 <= k < |ops| => Coherence.Planned(Components(ops[k].path), EventOf(ops[k].kind, ops[k].appeared)))
  }

  predicate Removes(pending: map<Name, Entry>, ops: seq<PlannedOp>, p: Name, k: int)
    requires p in pending && forall k :: 0 <= k < |ops| ==> ops[k].path in pending
  {
    0 <= k < |ops| && ops[k].kind.Remove? && IsUnder(p, ops[k].path) && pending[p].order < pending[ops[k].path].order
  }

  /** Which removal stands for a path that has no op of its own. */
  ghost function Remover(pending: map<Name, Entry>, ops: seq<PlannedOp>, p: Name): (k: int)
    requires IsBatch(pending, ops) && p in pending && !HasOp(ops, p)
    ensures Removes(pending, ops, p, k)
  {
    HasRemover(pending, ops, p);
    var k :| Removes(pending, ops, p, k);
    k
  }

  lemma HasRemover(pending: map<Name, Entry>, ops: seq<PlannedOp>, p: Name)
    requires IsBatch(pending, ops) && p in pending && !HasOp(ops, p)
    ensures exists k :: Removes(pending, ops, p, k)
  {
    assert RemovedAbove(pending, ops, p);
    var k :| 0 <= k < |ops| && ops[k].kind.Remove? && IsUnder(p, ops[k].path)
             && pending[p].order < pending[ops[k].path].order;
    assert Removes(pending, ops, p, k);
  }

  ghost function Pruned(pending: map<Name, Entry>, ops: seq<PlannedOp>): map<Location, Location>
    requires IsBatch(pending, ops)
  {
    map l | l in (set p | p in pending :: Components(p)) && Join(l) in pending && !HasOp(ops, Join(l)) ::
      Components(ops[Remover(pending, ops, Join(l))].path)
  }

  lemma {:induction false} PrunedBelow(pending: map<Name, Entry>, ops: seq<PlannedOp>, p: Name)
    requires Normal(pending) && IsBatch(pending, ops) && p in pending && !HasOp(ops, p)
    ensures var above := Components(ops[Remover(pending, ops, p)].path);
            above < Components(p) && Coherence.IsPlannedAs(PlannedOps(ops), above, Coherence.Vanished)
  {
    var k := Remover(pending, ops, p);
    var q := ops[k].path;
    assert q in pending && q != p;
    UnderIsPrefix(Components(p), Components(q));
    assert Components(q) != Components(p);
    assert PlannedOps(ops)[k] == Coherence.Planned(Components(q), Coherence.Vanished);
  }

  // --- what a moved directory carried along ----------------------------------------------

  /** Some directory above `l` is planned with this event. */
  predicate PlannedAbove(planned: seq<Coherence.Planned>, l: Location, event: Coherence.Event) {
    exists k :: 0 <= k < |l| && Coherence.IsPlannedAs(planned, l[..k], event)
  }

  /** ... and which one. */
  ghost function PlannedDirectory(planned: seq<Coherence.Planned>, l: Location, event: Coherence.Event): (q: Location)
    requires PlannedAbove(planned, l, event)
    ensures q < l && Coherence.IsPlannedAs(planned, q, event)
  {
    var k :| 0 <= k < |l| && Coherence.IsPlannedAs(planned, l[..k], event);
    l[..k]
  }

  /** Carried paths below a removal are pruned with it ... */
  ghost function CarriedOff(s: Coherence.State, planned: seq<Coherence.Planned>): map<Location, Location> {
    map l | l in s.carried && PlannedAbove(planned, l, Coherence.Vanished) :: PlannedDirectory(planned, l, Coherence.Vanished)
  }

  /** ... and the rest wait for the enumeration of a directory that has appeared above them. */
  ghost function BroughtAlong(s: Coherence.State, planned: seq<Coherence.Planned>): map<Location, Location> {
    map l | l in s.carried && !PlannedAbove(planned, l, Coherence.Vanished) && PlannedAbove(planned, l, Coherence.Appeared) ::
      PlannedDirectory(planned, l, Coherence.Appeared)
  }

  /** Carried paths with neither above them, and no event of their own to come: nothing will resolve them. */
  function Abandoned(s: Coherence.State, planned: seq<Coherence.Planned>): set<Location> {
    set l | l in s.carried && l !in s.owed && !Coherence.IsPlanned(planned, l)
            && !PlannedAbove(planned, l, Coherence.Vanished) && !PlannedAbove(planned, l, Coherence.Appeared)
  }

  lemma CoveredIff(planned: seq<Coherence.Planned>, l: Location)
    ensures Coherence.CoveredAbove(planned, l)
            <==> PlannedAbove(planned, l, Coherence.Vanished) || PlannedAbove(planned, l, Coherence.Appeared)
  {
  }

  lemma PlannedArePending(pending: map<Name, Entry>, ops: seq<PlannedOp>, k: nat)
    requires Normal(pending) && IsBatch(pending, ops) && k < |ops|
    ensures PlannedOps(ops)[k].path in Located(pending)
  {
    assert ops[k].path in pending;
  }

  lemma PendingCovered(pending: map<Name, Entry>, ops: seq<PlannedOp>, l: Location)
    requires Normal(pending) && IsBatch(pending, ops) && l in Located(pending)
    ensures Coherence.IsPlanned(PlannedOps(ops), l) || l in Pruned(pending, ops)
  {
    var p := Join(l);
    if HasOp(ops, p) {
      var k :| 0 <= k < |ops| && ops[k].path == p;
      var q :| q in pending && Components(q) == l;
      assert PlannedOps(ops)[k].path == Components(p);
    }
  }

  /**
   * Every batch of the coalescer can be taken. Each pending path is planned, or pruned below a planned
   * removal; each path carried along by a moved directory is pruned, brought along, still owed an event
   * of its own, or abandoned.
   */
  lemma BatchCanBeTaken(s: Coherence.State, pending: map<Name, Entry>, ops: seq<PlannedOp>) returns (t: Coherence.State)
    requires Normal(pending) && IsBatch(pending, ops) && s.pending == Located(pending)
    requires s.flusher.Idle? && !s.overflow
    ensures var planned := PlannedOps(ops);
            && Coherence.Take(s, t, planned, CarriedOff(s, planned) + Pruned(pending, ops), BroughtAlong(s, planned))
            && t.stranded == s.stranded + Abandoned(s, planned)
    ensures |PlannedOps(ops)| == |ops| && forall k :: 0 <= k < |ops| ==>
              PlannedOps(ops)[k] == Coherence.Planned(Components(ops[k].path),
                                                      if ops[k].kind.Remove? then Coherence.Vanished
                                                      else if ops[k].appeared then Coherence.Appeared else Coherence.Touched)
  {
    var planned := PlannedOps(ops);
    var pruned, brought := CarriedOff(s, planned) + Pruned(pending, ops), BroughtAlong(s, planned);
    forall l | l in pruned ensures pruned[l] < l && Coherence.IsPlannedAs(planned, pruned[l], Coherence.Vanished) {
      if l in Pruned(pending, ops) {
        PrunedBelow(pending, ops, Join(l));
        var p :| p in pending && Components(p) == l;
      }
    }
    forall k | 0 <= k < |planned| ensures planned[k].path in s.pending {
      PlannedArePending(pending, ops, k);
    }
    forall l | l in s.pending ensures Coherence.IsPlanned(planned, l) || l in pruned {
      PendingCovered(pending, ops, l);
    }
    forall l | l in s.carried ensures Coherence.CoveredAbove(planned, l) <==> l in CarriedOff(s, planned) || l in brought {
      CoveredIff(planned, l);
    }
    var left := set p | p in s.carried && p !in s.owed && !Coherence.IsPlanned(planned, p) && !Coherence.CoveredAbove(planned, p);
    forall l | l in s.carried ensures l in left <==> l in Abandoned(s, planned) {
      CoveredIff(planned, l);
    }
    assert left == Abandoned(s, planned);
    t := s.(pending := map[], carried := map[], flusher := Coherence.Taken(planned, pruned, brought, false),
            stranded := s.stranded + left, missed := s.missed + left);
  }
}
