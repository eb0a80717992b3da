/**
 * Broadcasts use channels that sessions own. A session may return, and its channel be
 * destroyed, only when no broadcast can still be using it.
 */
module Broadcast {

  /** A session's channel, identified for good: numbers are never used twice. */
  type Channel = nat

  datatype Stage = Serving(registered: bool) | Leaving | Returned

  datatype State = State(
    sessions: map<Channel, Stage>,
    peers: seq<Channel>,
    inFlight: nat,                      // broadcasts_in_flight_
    broadcasts: map<nat, seq<Channel>>, // targets each broadcast has still to send to
    stopping: bool)

  ghost predicate Init(s: State) {
    s.sessions == map[] && s.peers == [] && s.inFlight == 0 && s.broadcasts == map[]
  }

  ghost predicate Connect(s: State, t: State, c: Channel) {
    c !in s.sessions && t == s.(sessions := s.sessions[c := Serving(false)])
  }

  /** add_peer, once a session is authenticated. */
  ghost predicate AddPeer(s: State, t: State, c: Channel) {
    && c in s.sessions && s.sessions[c] == Serving(false) && !s.stopping
    && t == s.(sessions := s.sessions[c := Serving(true)], peers := s.peers + [c])
  }

  /** The server refuses to register a session while stopping, which then returns at once. */
  ghost predicate Refuse(s: State, t: State, c: Channel) {
    c in s.sessions && s.sessions[c] == Serving(false) && s.stopping && t == s.(sessions := s.sessions[c := Returned])
  }

  ghost predicate Stop(s: State, t: State) {
    t == s.(stopping := true)
  }

  /** The peer list is copied and the count raised in one critical section. */
  ghost predicate Start(s: State, t: State, b: nat) {
    b !in s.broadcasts && t == s.(broadcasts := s.broadcasts[b := s.peers], inFlight := s.inFlight + 1)
  }

  ghost predicate Send(s: State, t: State, b: nat) {
    && b in s.broadcasts && s.broadcasts[b] != []
    && t == s.(broadcasts := s.broadcasts[b := s.broadcasts[b][1..]])
  }

  ghost predicate Finish(s: State, t: State, b: nat) {
    && b in s.broadcasts && s.broadcasts[b] == [] && s.inFlight > 0
    && t == s.(broadcasts := s.broadcasts - {b}, inFlight := s.inFlight - 1)
  }

  function Removed(cs: seq<Channel>, c: Channel): seq<Channel> {
    if cs == [] then [] else (if cs[0] == c then [] else [cs[0]]) + Removed(cs[1..], c)
  }

  /** A session ends: it takes itself off the list ... */
  ghost predicate Deregister(s: State, t: State, c: Channel) {
    && c in s.sessions && s.sessions[c].Serving?
    && t == s.(sessions := s.sessions[c := Leaving], peers := Removed(s.peers, c))
  }

  /** ... and waits until no broadcast is in flight. */
  ghost predicate Return(s: State, t: State, c: Channel) {
    c in s.sessions && s.sessions[c].Leaving? && s.inFlight == 0 && t == s.(sessions := s.sessions[c := Returned])
  }

  ghost predicate Next(s: State, t: State) {
    || (exists c :: Connect(s, t, c))
    || (exists c :: AddPeer(s, t, c))
    || (exists c :: Refuse(s, t, c))
    || Stop(s, t)
    || (exists b :: Start(s, t, b))
    || (exists b :: Send(s, t, b))
    || (exists b :: Finish(s, t, b))
    || (exists c :: Deregister(s, t, c))
    || (exists c :: Return(s, t, c))
  }

  ghost predicate Trace(run: seq<State>) {
    run != [] && Init(run[0]) && forall k :: 0 <= k < |run| - 1 ==> Next(run[k], run[k + 1])
  }

  /** The channel still exists and has been registered, so a broadcast may be holding it. */
  predicate Held(s: State, c: Channel) {
    c in s.sessions && (s.sessions[c] == Serving(true) || s.sessions[c].Leaving?)
  }

  predicate TargetsHeld(s: State, b: nat)
    requires b in s.broadcasts
  {
    forall k :: 0 <= k < |s.broadcasts[b]| ==> Held(s, s.broadcasts[b][k])
  }

  ghost predicate Inv(s: State) {
    && s.inFlight == |s.broadcasts|
    && (forall k {:trigger s.peers[k]} :: 0 <= k < |s.peers| ==>
          s.peers[k] in s.sessions && s.sessions[s.peers[k]] == Serving(true))
    && (forall b {:trigger TargetsHeld(s, b)} :: b in s.broadcasts ==> TargetsHeld(s, b))
  }

  lemma {:induction false} RemovedFrom(cs: seq<Channel>, c: Channel)
    ensures forall k :: 0 <= k < |Removed(cs, c)| ==> Removed(cs, c)[k] in cs && Removed(cs, c)[k] != c
  {
    if cs != [] {
      RemovedFrom(cs[1..], c);
    }
  }

  /** A session that waits for the count to reach zero waits for every target list to be gone. */
  lemma ReturnInv(s: State, t: State, c: Channel)
    requires Inv(s) && Return(s, t, c)
    ensures Inv(t)
  {
    assert s.broadcasts == map[];
  }

  lemma DeregisterInv(s: State, t: State, c: Channel)
    requires Inv(s) && Deregister(s, t, c)
    ensures Inv(t)
  {
    RemovedFrom(s.peers, c);
    forall k | 0 <= k < |t.peers| ensures t.peers[k] in t.sessions && t.sessions[t.peers[k]] == Serving(true) {
      var j :| 0 <= j < |s.peers| && s.peers[j] == t.peers[k];
    }
    forall b | b in t.broadcasts ensures TargetsHeld(t, b) {
      assert TargetsHeld(s, b);
    }
  }

  lemma StartInv(s: State, t: State, b: nat)
    requires Inv(s) && Start(s, t, b)
    ensures Inv(t)
  {
    forall x | x in t.broadcasts ensures TargetsHeld(t, x) {
      assert x != b ==> TargetsHeld(s, x);
    }
  }

  lemma ProgressInv(s: State, t: State, b: nat)
    requires Inv(s) && (Send(s, t, b) || Finish(s, t, b))
    ensures Inv(t)
  {
    forall x | x in t.broadcasts ensures TargetsHeld(t, x) {
      assert TargetsHeld(s, x);
    }
  }

  lemma SessionInv(s: State, t: State)
    requires Inv(s) && (Stop(s, t) || exists c :: Connect(s, t, c) || AddPeer(s, t, c) || Refuse(s, t, c))
    ensures Inv(t)
  {
    forall x | x in t.broadcasts ensures TargetsHeld(t, x) {
      assert TargetsHeld(s, x);
    }
  }

  lemma NextInv(s: State, t: State)
    requires Inv(s) && Next(s, t)
    ensures Inv(t)
  {
    if c :| Return(s, t, c) {
      ReturnInv(s, t, c);
    } else if c :| Deregister(s, t, c) {
      DeregisterInv(s, t, c);
    } else if b :| Start(s, t, b) {
      StartInv(s, t, b);
    } else if b :| Send(s, t, b) || Finish(s, t, b) {
      ProgressInv(s, t, b);
    } else {
      SessionInv(s, t);
    }
  }

  lemma {:induction false} Reachable(run: seq<State>, k: nat)
    requires Trace(run) && k < |run|
    ensures Inv(run[k])
  {
    if k > 0 {
      Reachable(run, k - 1);
      NextInv(run[k - 1], run[k - 1 + 1]);
    }
  }

  /** In every run, every send is to a channel whose session has not returned. */
  lemma SendsToLiveChannels(run: seq<State>, k: nat, b: nat)
    requires Trace(run) && k + 1 < |run| && Send(run[k], run[k + 1], b)
    ensures var c := run[k].broadcasts[b][0];
            c in run[k].sessions && (run[k].sessions[c] == Serving(true) || run[k].sessions[c] == Leaving)
  {
    Reachable(run, k);
    assert TargetsHeld(run[k], b);
  }

  /** A session that has returned is on no list any more: neither the peers nor any broadcast's targets. */
  lemma ReturnedIsForgotten(run: seq<State>, k: nat, c: Channel)
    requires Trace(run) && k < |run| && c in run[k].sessions && run[k].sessions[c].Returned?
    ensures c !in run[k].peers && forall b :: b in run[k].broadcasts ==> c !in run[k].broadcasts[b]
  {
    Reachable(run, k);
    forall b | b in run[k].broadcasts ensures c !in run[k].broadcasts[b] {
      assert TargetsHeld(run[k], b);
    }
  }

  // --- who is reached -------------------------------------------------------------------------

  /** Step `j` of the run sends to `c` on behalf of broadcast `b`. */
  ghost predicate Sent(run: seq<State>, j: nat, b: nat, c: Channel) {
    && j + 1 < |run| && b in run[j].broadcasts && run[j].broadcasts[b] != [] && run[j].broadcasts[b][0] == c
    && b in run[j + 1].broadcasts && run[j + 1].broadcasts[b] == run[j].broadcasts[b][1..]
  }

  /** Between its start and its end a broadcast's list of targets only ever loses the one just sent to. */
  lemma TargetsStep(s: State, t: State, b: nat)
    requires Next(s, t) && b in s.broadcasts
    ensures || (b in t.broadcasts && t.broadcasts[b] == s.broadcasts[b])
            || (b in t.broadcasts && s.broadcasts[b] != [] && t.broadcasts[b] == s.broadcasts[b][1..])
            || (b !in t.broadcasts && s.broadcasts[b] == [])
  {
  }

  lemma {:induction false} TargetsSent(run: seq<State>, i: nat, k: nat, b: nat, c: Channel)
    requires Trace(run) && i <= k < |run| && (forall n :: i <= n <= k ==> b in run[n].broadcasts)
    requires c in run[i].broadcasts[b]
    ensures c in run[k].broadcasts[b] || exists j :: i <= j < k && Sent(run, j, b, c)
    decreases k - i
  {
    if i < k {
      var s, t := run[i], run[i + 1];
      assert Next(s, t) && b in t.broadcasts;
      TargetsStep(s, t, b);
      if c in t.broadcasts[b] {
        TargetsSent(run, i + 1, k, b, c);
      } else {
        assert s.broadcasts[b] == [s.broadcasts[b][0]] + s.broadcasts[b][1..];
        assert Sent(run, i, b, c);
      }
    }
  }

  /** In every run, a channel registered when a broadcast starts has been sent to by the time it finishes. */
  lemma EveryPeerIsSentTo(run: seq<State>, i: nat, k: nat, b: nat, c: Channel) returns (j: nat)
    requires Trace(run) && i < k && k + 1 < |run| && Start(run[i], run[i + 1], b) && Finish(run[k], run[k + 1], b)
    requires forall n :: i < n <= k ==> b in run[n].broadcasts
    requires c in run[i].peers
    ensures i < j < k && b in run[j].broadcasts && run[j].broadcasts[b] != [] && run[j].broadcasts[b][0] == c
    ensures b in run[j + 1].broadcasts && run[j + 1].broadcasts[b] == run[j].broadcasts[b][1..]
  {
    TargetsSent(run, i + 1, k, b, c);
    j :| i + 1 <= j < k && Sent(run, j, b, c);
  }
}
