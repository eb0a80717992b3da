/**
 * Acknowledged mutations against concurrently resolved batches. Session threads change the
 * disk and then read the generation; the flusher takes a generation and then stats; the
 * client drops what its own acknowledged mutations make obsolete. No snapshot is in flight.
 */
module AckOrder {
  import opened Types

  /** local_mutations_ is emptied when it holds more than this many records. */
  const RECORD_CAP: nat := 65536

  /** One path of a batch and the moment the agent read its attributes. */
  datatype Op = Op(path: Name, time: nat)

  datatype Chunk = Chunk(generation: nat, ops: seq<Op>)

  type Records = map<Name, nat>

  // --- the client's table ---------------------------------------------------------------

  function Noted(r: Records, path: Name, ack: nat): Records {
    (if |r| > RECORD_CAP then map[] else r)[path := ack]
  }

  /** Whether an op of a batch of this generation is applied. */
  predicate Admits(r: Records, generation: nat, path: Name) {
    path in r ==> generation > r[path]
  }

  /** The table after a batch: a record that has been overtaken is gone. */
  function After(r: Records, generation: nat, ops: seq<Op>): Records {
    if ops == [] then r
    else
      var before := After(r, generation, ops[..|ops| - 1]);
      var path := ops[|ops| - 1].path;
      if Admits(before, generation, path) then before - {path} else before
  }

  /** The ops of a batch that are applied. */
  function Applied(r: Records, generation: nat, ops: seq<Op>): seq<Op> {
    if ops == [] then []
    else
      var n := |ops| - 1;
      Applied(r, generation, ops[..n])
      + if Admits(After(r, generation, ops[..n]), generation, ops[n].path) then [ops[n]] else []
  }

  /** The order of ops in a batch does not matter to the table: each path is decided on its own. */
  lemma {:induction false} AfterAt(r: Records, generation: nat, ops: seq<Op>, path: Name)
    ensures path in After(r, generation, ops) <==>
              path in r && (generation <= r[path] || forall k :: 0 <= k < |ops| ==> ops[k].path != path)
    ensures path in After(r, generation, ops) ==> After(r, generation, ops)[path] == r[path]
  {
    if ops != [] {
      var n := |ops| - 1;
      AfterAt(r, generation, ops[..n], path);
      assert forall k :: 0 <= k < n ==> ops[..n][k] == ops[k];
      assert ops[n].path == path ==> !(forall k :: 0 <= k < |ops| ==> ops[k].path != path);
    }
  }

  /** An op is applied exactly when no record for its path is as new as the batch. */
  lemma {:induction false} AppliedAt(r: Records, generation: nat, ops: seq<Op>, op: Op)
    ensures op in Applied(r, generation, ops) <==> op in ops && Admits(r, generation, op.path)
  {
    if ops != [] {
      var n := |ops| - 1;
      AppliedAt(r, generation, ops[..n], op);
      AfterAt(r, generation, ops[..n], ops[n].path);
      assert ops == ops[..n] + [ops[n]];
    }
  }

  /** `picks` are the places of the ops of a batch that are applied, in the order of the batch. */
  ghost predicate Picks(r: Records, generation: nat, ops: seq<Op>, picks: seq<nat>) {
    && (forall i, j :: 0 <= i < j < |picks| ==> picks[i] < picks[j])
    && (forall k: nat {:trigger k in picks} :: k in picks <==> k < |ops| && Admits(r, generation, ops[k].path))
  }

  lemma PicksMore(r: Records, generation: nat, ops: seq<Op>, n: nat, picks: seq<nat>, admitted: bool)
    requires n < |ops| && Picks(r, generation, ops[..n], picks) && admitted == Admits(r, generation, ops[n].path)
    ensures Picks(r, generation, ops[..n + 1], picks + if admitted then [n] else [])
  {
    var more := picks + if admitted then [n] else [];
    forall i | 0 <= i < |picks| ensures picks[i] < n {
      assert picks[i] in picks;
    }
    forall k: nat ensures k in more <==> k < n + 1 && Admits(r, generation, ops[..n + 1][k].path) {
      assert k in more <==> k in picks || (admitted && k == n);
      assert k < n ==> ops[..n][k] == ops[k];
    }
  }

  /** `applied` are the ops at those places. */
  predicate Selects(ops: seq<Op>, picks: seq<nat>, applied: seq<Op>) {
    |applied| == |picks| && forall i {:trigger picks[i]} :: 0 <= i < |picks| ==> picks[i] < |ops| && applied[i] == ops[picks[i]]
  }

  lemma SelectsMore(ops: seq<Op>, n: nat, picks: seq<nat>, applied: seq<Op>)
    requires n < |ops| && Selects(ops[..n], picks, applied)
    ensures Selects(ops[..n + 1], picks, applied) && Selects(ops[..n + 1], picks + [n], applied + [ops[n]])
  {
    forall i | 0 <= i < |picks| ensures picks[i] < n && applied[i] == ops[..n + 1][picks[i]] {
    }
  }

  lemma {:induction false} AppliedPicks(r: Records, generation: nat, ops: seq<Op>) returns (picks: seq<nat>)
    ensures Picks(r, generation, ops, picks) && Selects(ops, picks, Applied(r, generation, ops))
  {
    if ops == [] {
      picks := [];
    } else {
      var n := |ops| - 1;
      var front := AppliedPicks(r, generation, ops[..n]);
      AfterAt(r, generation, ops[..n], ops[n].path);
      var admitted := Admits(r, generation, ops[n].path);
      assert admitted == Admits(After(r, generation, ops[..n]), generation, ops[n].path);
      PicksMore(r, generation, ops, n, front, admitted);
      SelectsMore(ops, n, front, Applied(r, generation, ops[..n]));
      picks := front + if admitted then [n] else [];
      assert ops[..n + 1] == ops;
    }
  }

  /** The applied ops are the admitted ones, each once per occurrence and in the order of the batch. */
  lemma AppliedInOrder(r: Records, generation: nat, ops: seq<Op>) returns (picks: seq<nat>)
    ensures forall i, j :: 0 <= i < j < |picks| ==> picks[i] < picks[j]
    ensures forall k: nat :: k in picks <==> k < |ops| && (ops[k].path in r ==> generation > r[ops[k].path])
    ensures |Applied(r, generation, ops)| == |picks|
    ensures forall i :: 0 <= i < |picks| ==> picks[i] < |ops| && Applied(r, generation, ops)[i] == ops[picks[i]]
  {
    picks := AppliedPicks(r, generation, ops);
  }

  /** local_mutations_ as the client keeps it. */
  class Table {
    var records: Records

    constructor ()
      ensures records == map[]
    {
      records := map[];
    }

    method Note(path: Name, ack: nat)
      modifies this
      ensures records == Noted(old(records), path, ack)
    {
      if |records| > RECORD_CAP {
        records := map[];
      }
      records := records[path := ack];
    }

    /** The test an op has to pass; passing it retires the record. */
    method Admit(path: Name, generation: nat) returns (admitted: bool)
      modifies this
      ensures admitted <==> (path in old(records) ==> generation > old(records)[path])
      ensures records == if admitted then old(records) - {path} else old(records)
    {
      if path in records {
        if generation <= records[path] {
          return false;
        }
        records := records - {path};
      }
      assert path !in old(records) ==> old(records) - {path} == old(records);
      return true;
    }

    /**
     * The batch loop of apply_invalidation, returning what it applies: the admitted ops in the order of
     * the batch. `picks` are their places in it.
     */
    method Filter(chunk: Chunk) returns (applied: seq<Op>, ghost picks: seq<nat>)
      modifies this
      ensures records == After(old(records), chunk.generation, chunk.ops)
      ensures applied == Applied(old(records), chunk.generation, chunk.ops)
      ensures forall i, j :: 0 <= i < j < |picks| ==> picks[i] < picks[j]
      ensures forall k: nat :: k in picks <==>
                k < |chunk.ops| && (chunk.ops[k].path in old(records) ==> chunk.generation > old(records)[chunk.ops[k].path])
      ensures |applied| == |picks| && forall i :: 0 <= i < |picks| ==> picks[i] < |chunk.ops| && applied[i] == chunk.ops[picks[i]]
    {
      applied := [];
      var i := 0;
      while i < |chunk.ops|
        invariant 0 <= i <= |chunk.ops|
        invariant records == After(old(records), chunk.generation, chunk.ops[..i])
        invariant applied == Applied(old(records), chunk.generation, chunk.ops[..i])
      {
        var op := chunk.ops[i];
        assert chunk.ops[..i + 1][..i] == chunk.ops[..i];
        var admitted := Admit(op.path, chunk.generation);
        if admitted {
          applied := applied + [op];
        }
        i := i + 1;
      }
      assert chunk.ops[..i] == chunk.ops;
      picks := AppliedInOrder(old(records), chunk.generation, chunk.ops);
    }
  }

  // --- the system -----------------------------------------------------------------------

  /** A mutation of this client whose disk effect happened at `effect`, acknowledged at generation `ack`. */
  datatype Done = Done(path: Name, effect: nat, ack: nat)

  /** A mutation whose effect has happened and whose acknowledgement has not been computed. */
  datatype Begun = Begun(path: Name, effect: nat)

  datatype State = State(
    clock: nat,
    generation: nat,
    batch: Option<seq<Op>>,      // what the flusher has resolved so far under `generation`
    channel: seq<Chunk>,
    begun: set<Begun>,
    replied: set<Done>,          // acknowledged, the client's thread has not recorded it yet
    records: Records,
    inForce: set<Done>)          // recorded, and neither overwritten by an older record nor dropped with the table

  ghost predicate Init(s: State) {
    s.batch.None? && s.channel == [] && s.begun == {} && s.replied == {} && s.records == map[] && s.inForce == {}
  }

  /** The flusher takes the next generation. */
  ghost predicate Begin(s: State, t: State) {
    s.batch.None? && t == s.(generation := s.generation + 1, batch := Some([]))
  }

  ghost predicate Stat(s: State, t: State, path: Name) {
    s.batch.Some? && t == s.(clock := s.clock + 1, batch := Some(s.batch.value + [Op(path, s.clock)]))
  }

  /** A batch is sent in as many frames as it takes. */
  ghost predicate Send(s: State, t: State, n: nat) {
    && s.batch.Some? && 0 < n <= |s.batch.value|
    && t == s.(channel := s.channel + [Chunk(s.generation, s.batch.value[..n])], batch := Some(s.batch.value[n..]))
  }

  ghost predicate Finish(s: State, t: State) {
    s.batch == Some([]) && t == s.(batch := None)
  }

  /** A session thread changes the disk. */
  ghost predicate Mutate(s: State, t: State, path: Name) {
    t == s.(clock := s.clock + 1, begun := s.begun + {Begun(path, s.clock)})
  }

  /** ... and then reads the generation for its reply. */
  ghost predicate Acknowledge(s: State, t: State, m: Begun) {
    && m in s.begun
    && t == s.(begun := s.begun - {m}, replied := s.replied + {Done(m.path, m.effect, s.generation)})
  }

  /** What stays in force when `m` is recorded. */
  function InForce(s: State, m: Done): set<Done> {
    (set d | d in s.inForce
       && (|s.records| > RECORD_CAP ==> d.path !in s.records)
       && (d.path == m.path && d.path in s.records ==> d.ack <= m.ack))
    + {m}
  }

  ghost predicate Note(s: State, t: State, m: Done) {
    && m in s.replied
    && t == s.(replied := s.replied - {m}, records := Noted(s.records, m.path, m.ack), inForce := InForce(s, m))
  }

  ghost predicate Receive(s: State, t: State) {
    && s.channel != []
    && t == s.(channel := s.channel[1..], records := After(s.records, s.channel[0].generation, s.channel[0].ops))
  }

  ghost predicate Next(s: State, t: State) {
    || Begin(s, t)
    || (exists path :: Stat(s, t, path))
    || (exists n :: Send(s, t, n))
    || Finish(s, t)
    || (exists path :: Mutate(s, t, path))
    || (exists m :: Acknowledge(s, t, m))
    || (exists m :: Note(s, t, m))
    || Receive(s, t)
  }

  ghost predicate Trace(run: seq<State>) {
    run != [] && Init(run[0]) && forall k :: 0 <= k < |run| - 1 ==> Next(run[k], run[k + 1])
  }

  // --- the ordering rule ----------------------------------------------------------------

  /** Whatever a batch newer than the acknowledgement says was read after the mutation's effect. */
  predicate OpsLater(ops: seq<Op>, time: nat) {
    forall k :: 0 <= k < |ops| ==> ops[k].time > time
  }

  predicate ChunkLater(c: Chunk, m: Done) {
    c.generation > m.ack ==> OpsLater(c.ops, m.effect)
  }

  ghost predicate RuleFor(s: State, m: Done) {
    && m.effect < s.clock && m.ack <= s.generation
    && (forall k {:trigger s.channel[k]} :: 0 <= k < |s.channel| ==> ChunkLater(s.channel[k], m))
    && (s.batch.Some? && s.generation > m.ack ==> OpsLater(s.batch.value, m.effect))
  }

  /** The record is there and as new, or every batch still to come is newer. */
  ghost predicate Guarded(s: State, m: Done) {
    || (m.path in s.records && s.records[m.path] >= m.ack)
    || (s.generation > m.ack && forall k {:trigger s.channel[k]} :: 0 <= k < |s.channel| ==> s.channel[k].generation > m.ack)
  }

  predicate Ordered(s: State) {
    && (forall k {:trigger s.channel[k]} :: 0 <= k < |s.channel| ==> s.channel[k].generation <= s.generation)
    && (forall j, k {:trigger s.channel[j], s.channel[k]} :: 0 <= j < k < |s.channel| ==>
          s.channel[j].generation <= s.channel[k].generation)
  }

  ghost predicate Inv(s: State) {
    && Ordered(s)
    && (forall m :: m in s.begun ==> m.effect < s.clock)
    && (forall m {:trigger RuleFor(s, m)} :: m in s.replied + s.inForce ==> RuleFor(s, m))
    && (forall m {:trigger Guarded(s, m)} :: m in s.inForce ==> Guarded(s, m))
  }

  lemma RuleKept(s: State, t: State, m: Done)
    requires RuleFor(s, m)
    requires || Begin(s, t) || Finish(s, t) || Receive(s, t)
             || (exists path :: Stat(s, t, path))
             || (exists path :: Mutate(s, t, path))
             || (exists b :: Acknowledge(s, t, b))
             || (exists d :: Note(s, t, d))
    ensures RuleFor(t, m)
  {
  }

  lemma RuleSent(s: State, t: State, n: nat, m: Done)
    requires RuleFor(s, m) && Send(s, t, n)
    ensures RuleFor(t, m)
  {
    assert ChunkLater(t.channel[|s.channel|], m);
  }

  /** A mutation acknowledged now: every batch newer than now has yet to be taken. */
  lemma RuleNew(s: State, t: State, b: Begun)
    requires Ordered(s) && Acknowledge(s, t, b) && b.effect < s.clock
    ensures RuleFor(t, Done(b.path, b.effect, s.generation))
  {
  }

  lemma NextRules(s: State, t: State, m: Done)
    requires Inv(s) && Next(s, t) && m in t.replied + t.inForce
    ensures RuleFor(t, m)
  {
    if m in s.replied + s.inForce {
      assert RuleFor(s, m);
      if n :| Send(s, t, n) {
        RuleSent(s, t, n, m);
      } else {
        RuleKept(s, t, m);
      }
    } else {
      var b :| Acknowledge(s, t, b);
      RuleNew(s, t, b);
    }
  }

  lemma NextOrdered(s: State, t: State)
    requires Ordered(s) && Next(s, t)
    ensures Ordered(t)
  {
  }

  lemma GuardReceived(s: State, t: State, m: Done)
    requires Ordered(s) && Receive(s, t) && Guarded(s, m)
    ensures Guarded(t, m)
  {
    AfterAt(s.records, s.channel[0].generation, s.channel[0].ops, m.path);
  }

  lemma GuardNoted(s: State, t: State, d: Done, m: Done)
    requires Note(s, t, d) && m in t.inForce && (m in s.inForce ==> Guarded(s, m))
    ensures Guarded(t, m)
  {
  }

  lemma NextGuards(s: State, t: State, m: Done)
    requires Inv(s) && Next(s, t) && m in t.inForce
    ensures Guarded(t, m)
  {
    if d :| Note(s, t, d) {
      GuardNoted(s, t, d, m);
    } else if Receive(s, t) {
      assert Guarded(s, m);
      GuardReceived(s, t, m);
    } else {
      assert Guarded(s, m) && RuleFor(s, m);
    }
  }

  lemma NextInv(s: State, t: State)
    requires Inv(s) && Next(s, t)
    ensures Inv(t)
  {
    NextOrdered(s, t);
    forall m | m in t.replied + t.inForce ensures RuleFor(t, m) {
      NextRules(s, t, m);
    }
    forall m | m in t.inForce ensures Guarded(t, m) {
      NextGuards(s, t, m);
    }
    NextBegun(s, t);
  }

  lemma NextBegun(s: State, t: State)
    requires Next(s, t) && forall m :: m in s.begun ==> m.effect < s.clock
    ensures forall m :: m in t.begun ==> m.effect < t.clock
  {
  }

  lemma {:induction false} Reachable(run: seq<State>, k: nat)
    requires Trace(run) && k < |run|
    ensures Inv(run[k])
  {
    if k > 0 {
      Reachable(run, k - 1);
      NextInv(run[k - 1], run[k - 1 + 1]);
    }
  }

  /** The ordering rule itself: a batch newer than an acknowledgement was resolved after the mutation. */
  lemma OrderingRule(run: seq<State>, k: nat, m: Done, c: Chunk, op: Op)
    requires Trace(run) && k < |run| && m in run[k].replied + run[k].inForce
    requires c in run[k].channel && c.generation > m.ack && op in c.ops
    ensures op.time > m.effect
  {
    Reachable(run, k);
    assert RuleFor(run[k], m);
    var i :| 0 <= i < |run[k].channel| && run[k].channel[i] == c;
    assert ChunkLater(run[k].channel[i], m);
  }

  /**
   * In every run, an op the client applies to a path whose own mutation is in force was read
   * after that mutation took effect. Nothing older can undo the mirror's own update.
   */
  lemma NothingStaleApplied(run: seq<State>, k: nat, m: Done, op: Op)
    requires Trace(run) && k + 1 < |run| && Receive(run[k], run[k + 1]) && m in run[k].inForce
    requires op in Applied(run[k].records, run[k].channel[0].generation, run[k].channel[0].ops) && op.path == m.path
    ensures op.time > m.effect
  {
    var s, c := run[k], run[k].channel[0];
    Reachable(run, k);
    assert RuleFor(s, m) && Guarded(s, m);
    AppliedAt(s.records, c.generation, c.ops, op);
    assert ChunkLater(c, m);
  }

  /** A mutation is in force from the moment it is recorded ... */
  lemma RecordedInForce(s: State, t: State, m: Done)
    requires Note(s, t, m)
    ensures m in t.inForce && m.path in t.records && t.records[m.path] == m.ack
  {
  }

  /** ... until a full table is emptied or an older acknowledgement of its path is recorded over it. */
  lemma StaysInForce(s: State, t: State, m: Done) returns (d: Done)
    requires Next(s, t) && m in s.inForce && m !in t.inForce
    ensures d in s.replied && d !in t.replied && m.path in s.records
    ensures |s.records| > 65536 || (d.path == m.path && d.ack < m.ack)
  {
    d :| Note(s, t, d);
  }

  // --- what the rule does not promise -----------------------------------------------------

  const P: Name := [112]
  const FIRST := Done(P, 0, 0)
  const SECOND := Done(P, 2, 1)
  const BETWEEN := Op(P, 1)

  /** Two mutations of one path with a batch resolved between them; the replies are recorded in reverse. */
  function Reversed(): seq<State> {
    var s0 := State(0, 0, None, [], {}, {}, map[], {});
    var s1 := s0.(clock := 1, begun := {Begun(P, 0)});
    var s2 := s1.(begun := {}, replied := {FIRST});
    var s3 := s2.(generation := 1, batch := Some([]));
    var s4 := s3.(clock := 2, batch := Some([BETWEEN]));
    var s5 := s4.(channel := [Chunk(1, [BETWEEN])], batch := Some([]));
    var s6 := s5.(clock := 3, begun := {Begun(P, 2)});
    var s7 := s6.(begun := {}, replied := {FIRST, SECOND});
    var s8 := s7.(replied := {FIRST}, records := map[P := 1], inForce := {SECOND});
    var s9 := s8.(replied := {}, records := map[P := 0], inForce := {FIRST});
    [s0, s1, s2, s3, s4, s5, s6, s7, s8, s9, s9.(channel := [], records := map[])]
  }

  lemma ReversedFirstHalf()
    ensures var r := Reversed();
            Next(r[0], r[1]) && Next(r[1], r[2]) && Next(r[2], r[3]) && Next(r[3], r[4]) && Next(r[4], r[5])
  {
    var r := Reversed();
    assert Mutate(r[0], r[1], P);
    assert Acknowledge(r[1], r[2], Begun(P, 0));
    assert Begin(r[2], r[3]);
    assert Stat(r[3], r[4], P) by {
      assert [] + [BETWEEN] == [BETWEEN];
    }
    assert Send(r[4], r[5], 1) by {
      assert [BETWEEN][..1] == [BETWEEN] && [BETWEEN][1..] == [];
    }
  }

  lemma ReversedSecondHalf()
    ensures var r := Reversed();
            Next(r[5], r[6]) && Next(r[6], r[7]) && Next(r[7], r[8]) && Next(r[8], r[9]) && Next(r[9], r[10])
  {
    var r := Reversed();
    assert Mutate(r[5], r[6], P);
    assert Acknowledge(r[6], r[7], Begun(P, 2));
    assert Note(r[7], r[8], SECOND) by {
      assert InForce(r[7], SECOND) == {SECOND};
    }
    assert Note(r[8], r[9], FIRST) by {
      assert |r[8].records| == 1;
      assert Noted(r[8].records, P, 0) == map[P := 0];
      assert InForce(r[8], FIRST) == {FIRST};
    }
    assert Receive(r[9], r[10]) by {
      OneApplied(map[P := 0], 1, BETWEEN);
    }
  }

  lemma {:induction false} OneApplied(r: Records, generation: nat, op: Op)
    requires r.Keys == {op.path}
    ensures After(r, generation, [op]) == if generation > r[op.path] then map[] else r
  {
    assert [op][..0] == [];
    assert r - {op.path} == map[];
  }

  ghost predicate Linked(r: seq<State>, k: nat) {
    k + 1 < |r| ==> Next(r[k], r[k + 1])
  }

  lemma ShortTrace(r: seq<State>)
    requires 0 < |r| <= 11 && Init(r[0])
    requires Linked(r, 0) && Linked(r, 1) && Linked(r, 2) && Linked(r, 3) && Linked(r, 4)
    requires Linked(r, 5) && Linked(r, 6) && Linked(r, 7) && Linked(r, 8) && Linked(r, 9)
    ensures Trace(r)
  {
    forall k | 0 <= k < |r| - 1 ensures Next(r[k], r[k + 1]) {
      assert k == 0 || k == 1 || k == 2 || k == 3 || k == 4 || k == 5 || k == 6 || k == 7 || k == 8 || k == 9;
      assert Linked(r, k);
    }
  }

  lemma ReversedTrace()
    ensures Trace(Reversed())
  {
    var r := Reversed();
    ReversedFirstHalf();
    ReversedSecondHalf();
    ShortTrace(r);
  }

  /** Recording an older acknowledgement over a newer one lets a stale op through. */
  lemma OverwrittenRecordFails() returns (run: seq<State>, j: nat, k: nat, m: Done, op: Op)
    ensures Trace(run) && j < k && k + 1 < |run| && m in run[j].inForce && Receive(run[k], run[k + 1])
    ensures op in Applied(run[k].records, run[k].channel[0].generation, run[k].channel[0].ops)
    ensures op.path == m.path && op.time < m.effect
  {
    run, j, k, m, op := Reversed(), 8, 9, SECOND, BETWEEN;
    ReversedTrace();
    AppliedAt(map[P := 0], 1, [BETWEEN], BETWEEN);
    OneApplied(map[P := 0], 1, BETWEEN);
  }

  const EARLY := Done(P, 0, 1)

  /** A batch taken before the mutation and resolved after it. */
  function Straddling(): seq<State> {
    var s0 := State(0, 0, None, [], {}, {}, map[], {});
    var s1 := s0.(generation := 1, batch := Some([]));
    var s2 := s1.(clock := 1, begun := {Begun(P, 0)});
    var s3 := s2.(begun := {}, replied := {EARLY});
    var s4 := s3.(clock := 2, batch := Some([BETWEEN]));
    var s5 := s4.(channel := [Chunk(1, [BETWEEN])], batch := Some([]));
    var s6 := s5.(replied := {}, records := map[P := 1], inForce := {EARLY});
    [s0, s1, s2, s3, s4, s5, s6, s6.(channel := [])]
  }

  lemma StraddlingSteps()
    ensures var r := Straddling();
            && Next(r[0], r[1]) && Next(r[1], r[2]) && Next(r[2], r[3]) && Next(r[3], r[4])
            && Next(r[4], r[5]) && Next(r[5], r[6]) && Next(r[6], r[7])
  {
    var r := Straddling();
    assert Begin(r[0], r[1]);
    assert Mutate(r[1], r[2], P);
    assert Acknowledge(r[2], r[3], Begun(P, 0));
    assert Stat(r[3], r[4], P) by {
      assert [] + [BETWEEN] == [BETWEEN];
    }
    assert Send(r[4], r[5], 1) by {
      assert [BETWEEN][..1] == [BETWEEN] && [BETWEEN][1..] == [];
    }
    assert Note(r[5], r[6], EARLY) by {
      assert InForce(r[5], EARLY) == {EARLY};
    }
    assert Receive(r[6], r[7]) by {
      OneApplied(map[P := 1], 1, BETWEEN);
    }
  }

  lemma StraddlingTrace()
    ensures Trace(Straddling())
  {
    var r := Straddling();
    StraddlingSteps();
    ShortTrace(r);
  }

  /** The converse fails: an op read after the mutation may be dropped as if it were older. */
  lemma FreshOpDropped() returns (run: seq<State>, k: nat, m: Done, op: Op)
    ensures Trace(run) && k + 1 < |run| && m in run[k].inForce && Receive(run[k], run[k + 1])
    ensures op in run[k].channel[0].ops && op !in Applied(run[k].records, run[k].channel[0].generation, run[k].channel[0].ops)
    ensures op.path == m.path && op.time > m.effect
  {
    run, k, m, op := Straddling(), 6, EARLY, BETWEEN;
    StraddlingTrace();
    AppliedAt(map[P := 1], 1, [BETWEEN], BETWEEN);
    OneApplied(map[P := 1], 1, BETWEEN);
  }
}
