/** A run in which the client's table of acknowledged mutations fills up and forgets one that still matters. */
module AckCapacity {
  import opened Types
  import opened AckOrder

  /** Distinct names, as many as wanted. */
  function NameOf(i: nat): Name {
    seq(i + 1, _ => 97)
  }

  lemma NamesDiffer(i: nat, j: nat)
    requires i != j
    ensures NameOf(i) != NameOf(j)
  {
    assert |NameOf(i)| == i + 1 && |NameOf(j)| == j + 1;
  }

  /** The mutation of the i-th name: it takes effect after the stat at time 0, in the batch's own generation. */
  function Nth(i: nat): Done {
    Done(NameOf(i), i + 1, 1)
  }

  function Recorded(n: nat): Records {
    if n == 0 then map[] else Recorded(n - 1)[NameOf(n - 1) := 1]
  }

  function Standing(n: nat): set<Done> {
    if n == 0 then {} else Standing(n - 1) + {Nth(n - 1)}
  }

  lemma {:induction false} NotYet(n: nat, i: nat)
    requires i >= n
    ensures NameOf(i) !in Recorded(n)
  {
    if n > 0 {
      NotYet(n - 1, i);
      NamesDiffer(i, n - 1);
    }
  }

  lemma {:induction false} RecordedSize(n: nat)
    ensures |Recorded(n)| == n
  {
    if n > 0 {
      RecordedSize(n - 1);
      NotYet(n - 1, n - 1);
    }
  }

  lemma {:induction false} StandingIs(n: nat, d: Done)
    requires d in Standing(n)
    ensures d.ack == 1 && d.path in Recorded(n)
  {
    if d != Nth(n - 1) {
      StandingIs(n - 1, d);
    }
  }

  const STALE := Op(NameOf(0), 0)

  /** The batch has read the first name; then `n` names have been mutated, acknowledged and recorded. */
  function Filled(n: nat): State {
    State(n + 1, 1, Some([STALE]), [], {}, {}, Recorded(n), Standing(n))
  }

  /** Some run passes through `s` and ends in `t`. */
  ghost predicate Via(s: State, t: State) {
    exists run, j :: Trace(run) && 0 <= j < |run| && run[j] == s && run[|run| - 1] == t
  }

  lemma Longer(run: seq<State>, t: State)
    requires Trace(run) && Next(run[|run| - 1], t)
    ensures Trace(run + [t])
  {
    var all := run + [t];
    forall k | 0 <= k < |all| - 1 ensures Next(all[k], all[k + 1]) {
      if k < |run| - 1 {
        assert all[k] == run[k] && all[k + 1] == run[k + 1];
        assert Next(run[k], run[k + 1]);
      }
    }
  }

  lemma OneMore(s: State, t: State, u: State)
    requires Via(s, t) && Next(t, u)
    ensures Via(s, u)
  {
    var run, j :| Trace(run) && 0 <= j < |run| && run[j] == s && run[|run| - 1] == t;
    Longer(run, u);
    var all := run + [u];
    assert all[j] == s && all[|all| - 1] == u;
  }

  /** Every reached state is a state a run passes through. */
  lemma FromHere(s: State, t: State)
    requires Via(s, t)
    ensures Via(t, t)
  {
    var run, j :| Trace(run) && 0 <= j < |run| && run[j] == s && run[|run| - 1] == t;
    assert run[|run| - 1] == t;
  }

  lemma Opening()
    ensures Via(Filled(0), Filled(0))
  {
    var s0 := State(0, 0, None, [], {}, {}, map[], {});
    var s1 := s0.(generation := 1, batch := Some([]));
    assert Via(s0, s0) by {
      var run := [s0];
      assert Trace(run) && run[0] == s0 && run[|run| - 1] == s0;
    }
    assert Begin(s0, s1);
    OneMore(s0, s0, s1);
    assert Stat(s1, Filled(0), NameOf(0)) by {
      assert [] + [STALE] == [STALE];
    }
    OneMore(s0, s1, Filled(0));
    FromHere(s0, Filled(0));
  }

  lemma NothingDropped(n: nat)
    requires n <= RECORD_CAP
    ensures Noted(Recorded(n), NameOf(n), 1) == Recorded(n + 1)
    ensures InForce(Filled(n), Nth(n)) == Standing(n + 1)
  {
    RecordedSize(n);
    NotYet(n, n);
    assert Standing(n) + {Nth(n)} == Standing(n + 1);
  }

  /** One more mutation, from its effect to its record. */
  lemma {:induction false} OneMutation(s: State, n: nat, records: Records, standing: set<Done>)
    requires Via(s, Filled(n))
    requires records == Noted(Recorded(n), NameOf(n), 1) && standing == InForce(Filled(n), Nth(n))
    ensures Via(s, Filled(n).(clock := n + 2, records := records, inForce := standing))
  {
    var t := Filled(n);
    var u := t.(clock := n + 2, begun := {Begun(NameOf(n), n + 1)});
    var v := u.(begun := {}, replied := {Nth(n)});
    var w := t.(clock := n + 2, records := records, inForce := standing);
    assert Mutate(t, u, NameOf(n));
    OneMore(s, t, u);
    assert Acknowledge(u, v, Begun(NameOf(n), n + 1));
    OneMore(s, u, v);
    assert InForce(v, Nth(n)) == InForce(t, Nth(n));
    assert Note(v, w, Nth(n));
    OneMore(s, v, w);
  }

  lemma {:induction false} FillUp(s: State, k: nat, n: nat)
    requires Via(s, Filled(k)) && k <= n <= RECORD_CAP + 1
    ensures Via(s, Filled(n))
    decreases n - k
  {
    if k < n {
      NothingDropped(k);
      OneMutation(s, k, Recorded(k + 1), Standing(k + 1));
      FillUp(s, k + 1, n);
    }
  }

  const FULL: nat := RECORD_CAP + 1

  /** The mutation that finds the table full leaves nothing in it but its own record. */
  lemma Emptied()
    ensures Noted(Recorded(FULL), NameOf(FULL), 1) == map[NameOf(FULL) := 1]
    ensures InForce(Filled(FULL), Nth(FULL)) == {Nth(FULL)}
  {
    RecordedSize(FULL);
    forall d | d in Standing(FULL) ensures d.path in Recorded(FULL) {
      StandingIs(FULL, d);
    }
  }

  function Forgotten(): State {
    Filled(FULL).(clock := FULL + 2, records := map[NameOf(FULL) := 1], inForce := {Nth(FULL)})
  }

  lemma ForgottenReached()
    ensures Via(Filled(1), Forgotten()) && Nth(0) in Filled(1).inForce
  {
    Opening();
    FillUp(Filled(0), 0, 1);
    FromHere(Filled(0), Filled(1));
    FillUp(Filled(1), 1, FULL);
    Emptied();
    OneMutation(Filled(1), FULL, map[NameOf(FULL) := 1], {Nth(FULL)});
  }

  /** A mutation recorded and in force is forgotten when the table overflows, and a stale op is applied over it. */
  lemma FullTableFails() returns (run: seq<State>, j: nat, k: nat, m: Done, op: Op)
    ensures Trace(run) && j < k && k + 1 < |run| && m in run[j].inForce && Receive(run[k], run[k + 1])
    ensures op in Applied(run[k].records, run[k].channel[0].generation, run[k].channel[0].ops)
    ensures op.path == m.path && op.time < m.effect
    ensures forall d :: d in run[k].inForce ==> d.path != m.path
  {
    ForgottenReached();
    var s, t := Filled(1), Forgotten();
    var first: seq<State>;
    first, j :| Trace(first) && 0 <= j < |first| && first[j] == s && first[|first| - 1] == t;
    var u := t.(channel := [Chunk(1, [STALE])], batch := Some([]));
    assert Send(t, u, 1) by {
      assert [STALE][..1] == [STALE] && [STALE][1..] == [];
    }
    var v := u.(channel := [], records := After(u.records, 1, [STALE]));
    assert Receive(u, v);
    Longer(first, u);
    Longer(first + [u], v);
    run, k, m, op := first + [u] + [v], |first|, Nth(0), STALE;
    assert run[j] == s && run[k] == u && run[k + 1] == v;
    NamesDiffer(0, FULL);
    AppliedAt(u.records, 1, [STALE], STALE);
  }
}
