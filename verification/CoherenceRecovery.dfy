/** Whatever has happened, the system can come to rest with the mirror showing the disk. */
module CoherenceRecovery {
  import opened Types
  import opened PathMap
  import opened Cell
  import opened Coherence
  import opened CoherenceProof
  import opened CoherenceRuns
  import Path

  /** A fetch under way is given up or finished. */
  lemma FetchEnds(rules: Rules, run: seq<State>, s: State) returns (t: State)
    requires Extends(rules, run, s)
    ensures Extends(rules, run, t) && t.fetch.NoFetch? && t.disk == s.disk && t.flusher == s.flusher
  {
    if s.fetch.NoFetch? {
      t := s;
    } else if s.fetch.Finishing? {
      t := s.(fetch := NoFetch, rescanRequested := s.rescanRequested || s.fetch.lost);
      assert FinishFetch(s, t);
      Go(rules, run, s, t);
    } else {
      t := s.(fetch := NoFetch);
      assert FailFetch(s, t);
      Go(rules, run, s, t);
    }
  }

  /** Every planned path is statted. */
  lemma {:induction false} AllResolved(rules: Rules, run: seq<State>, s: State) returns (t: State)
    requires Extends(rules, run, s) && s.flusher.Resolving?
    ensures Extends(rules, run, t) && t.flusher.Resolving? && t.flusher.planned == []
    ensures t.disk == s.disk && t.fetch == s.fetch
    decreases |s.flusher.planned|
  {
    if s.flusher.planned == [] {
      t := s;
    } else {
      var u := Resolved1(rules, s);
      assert Resolve(rules, s, u);
      Go(rules, run, s, u);
      t := AllResolved(rules, run, u);
    }
  }

  /** What a stat makes of the state. */
  ghost function Resolved1(rules: Rules, s: State): (t: State)
    requires s.flusher.Resolving? && s.flusher.planned != []
    ensures Resolve(rules, s, t) && t.flusher.Resolving? && t.flusher.planned == s.flusher.planned[1..]
    ensures t.disk == s.disk && t.fetch == s.fetch
  {
    var f := s.flusher;
    var cs := Resolved(rules, s.disk, f.planned[0].path);
    var u := Extended(s, cs, LeftBehind(s, cs));
    u.(flusher := Resolving(f.planned[1..], f.pruned - Under(f), f.brought - Along(f, s.disk), u.flusher.changes))
  }

  /** A batch whose paths are all statted is sent, its enumeration given up. */
  lemma BatchSent(rules: Rules, run: seq<State>, s: State) returns (t: State)
    requires Extends(rules, run, s) && s.flusher.Resolving? && s.flusher.planned == []
    ensures Extends(rules, run, t) && t.flusher.Idle? && t.disk == s.disk && t.fetch == s.fetch
    ensures t.owed == s.owed && t.pending == s.pending && t.carried == s.carried && t.overflow == s.overflow
  {
    var f := s.flusher;
    var cs := f.changes + [Rescan];
    var u := s.(flusher := f.(brought := map[], changes := cs));
    assert f.changes[..|f.changes|] == f.changes;
    assert GiveUpExpansion(s, u, |f.changes|);
    Go(rules, run, s, u);
    var v := u.(flusher := Sending(cs));
    assert StartSending(u, v);
    Go(rules, run, u, v);
    var w := v.(channel := v.channel + [Chunk(v.generation, cs)], flusher := Sending([]));
    assert cs[..|cs|] == cs && cs[|cs|..] == [];
    assert SendChunk(v, w, |cs|);
    Go(rules, run, v, w);
    t := w.(flusher := Idle);
    assert FinishSending(w, t);
    Go(rules, run, w, t);
  }

  lemma NumberAssigned(rules: Rules, run: seq<State>, s: State) returns (t: State)
    requires Extends(rules, run, s) && s.flusher.Taken?
    ensures Extends(rules, run, t) && t.flusher.Resolving? && t.flusher.planned == s.flusher.planned
    ensures t.disk == s.disk && t.fetch == s.fetch
    ensures t.owed == s.owed && t.pending == s.pending && t.carried == s.carried && t.overflow == s.overflow
  {
    t := s.(generation := s.generation + 1,
            flusher := Resolving(s.flusher.planned, s.flusher.pruned, s.flusher.brought,
                                 if s.flusher.rescan then [Rescan] else []));
    assert AssignGeneration(s, t);
    assert FromDisk(s, t);
    Go(rules, run, s, t);
  }

  lemma RestSent(rules: Rules, run: seq<State>, s: State) returns (t: State)
    requires Extends(rules, run, s) && s.flusher.Sending?
    ensures Extends(rules, run, t) && t.flusher.Idle? && t.disk == s.disk && t.fetch == s.fetch
  {
    var cs := s.flusher.changes;
    var u := s;
    if cs != [] {
      u := s.(channel := s.channel + [Chunk(s.generation, cs)], flusher := Sending([]));
      assert cs[..|cs|] == cs && cs[|cs|..] == [];
      assert SendChunk(s, u, |cs|);
      Go(rules, run, s, u);
    }
    t := u.(flusher := Idle);
    assert FinishSending(u, t);
    Go(rules, run, u, t);
  }

  /** Wherever the flusher is, it can get its batch out. */
  lemma FlusherRests(rules: Rules, run: seq<State>, s: State) returns (t: State)
    requires Extends(rules, run, s)
    ensures Extends(rules, run, t) && t.flusher.Idle? && t.disk == s.disk && t.fetch == s.fetch
  {
    t := s;
    if t.flusher.Taken? {
      t := NumberAssigned(rules, run, t);
    }
    if t.flusher.Resolving? {
      t := AllResolved(rules, run, t);
      t := BatchSent(rules, run, t);
    } else if t.flusher.Sending? {
      t := RestSent(rules, run, t);
    }
  }

  /** Everything outstanding can be covered by one overflow, whose rescan is sent. */
  lemma EventsRest(rules: Rules, run: seq<State>, s: State) returns (t: State)
    requires Extends(rules, run, s) && s.flusher.Idle?
    ensures Extends(rules, run, t) && t.flusher.Idle? && t.disk == s.disk && t.fetch == s.fetch
    ensures t.owed == {} && t.pending == map[] && t.carried == map[] && !t.overflow
  {
    var u := s.(owed := {}, overflow := true, pending := map[], carried := map[]);
    assert Overflow(s, u, s.owed);
    Go(rules, run, s, u);
    var v := u.(overflow := false, flusher := Taken([], map[], map[], true));
    assert Take(u, v, [], map[], map[]);
    Go(rules, run, u, v);
    t := NumberAssigned(rules, run, v);
    t := BatchSent(rules, run, t);
  }

  /** The client gets through everything that has been sent. */
  lemma {:induction false} ChannelDrains(rules: Rules, run: seq<State>, s: State) returns (t: State)
    requires Extends(rules, run, s) && s.flusher.Idle? && s.fetch.NoFetch?
    requires s.owed == {} && s.pending == map[] && s.carried == map[] && !s.overflow
    ensures Extends(rules, run, t) && t.flusher.Idle? && t.fetch.NoFetch? && t.channel == [] && !t.sawRescan
    ensures t.disk == s.disk && t.owed == {} && t.pending == map[] && t.carried == map[] && !t.overflow
    decreases |s.channel|, s.sawRescan
  {
    if s.sawRescan {
      var u := s.(sawRescan := false, rescanRequested := true);
      assert RaiseRescan(s, u);
      Go(rules, run, s, u);
      t := ChannelDrains(rules, run, u);
    } else if s.channel == [] {
      t := s;
    } else {
      var u := Taken1(s);
      Go(rules, run, s, u);
      t := ChannelDrains(rules, run, u);
    }
  }

  /** A frame is applied, every change to the path it names. */
  ghost function Taken1(s: State): (t: State)
    requires s.channel != [] && !s.sawRescan && s.fetch.NoFetch?
    ensures exists hits :: Receive(s, t, hits)
    ensures t.flusher == s.flusher && t.fetch == s.fetch && t.disk == s.disk && t.channel == s.channel[1..]
    ensures t.owed == s.owed && t.pending == s.pending && t.carried == s.carried && t.overflow == s.overflow
  {
    var c := s.channel[0];
    var t := s.(channel := s.channel[1..], mirror := ApplyAll(s.mirror, c.changes),
                refused := RefusedAfter(s.mirror, s.refused, c.changes, c.changes),
                struck := StruckAfter(s.mirror, s.struck, c.changes, c.changes),
                sawRescan := Rescan in c.changes, fetch := Recorded(s.fetch, c));
    assert Receive(s, t, c.changes);
    t
  }

  lemma RequestDropped(rules: Rules, run: seq<State>, s: State) returns (t: State)
    requires Extends(rules, run, s) && s.fetch.NoFetch?
    ensures Extends(rules, run, t) && t.fetch.NoFetch? && !t.rescanRequested
    ensures t == s.(rescanRequested := false, stale := t.stale)
  {
    if s.rescanRequested {
      var u := s.(fetch := Requested([], false), rescanRequested := false, stale := true);
      assert StartFetch(s, u, true);
      Go(rules, run, s, u);
      t := u.(fetch := NoFetch);
      assert FailFetch(u, t);
      Go(rules, run, u, t);
    } else {
      t := s;
    }
  }

  lemma {:induction false} DiskStaysOk(rules: Rules, run: seq<State>, k: nat)
    requires Downward(rules) && Trace(rules, run) && k < |run|
    ensures DiskOk(run[k].disk)
  {
    Reachable(rules, run, k);
  }

  /**
   * Recovery. Every run can be continued, without touching the disk, until the system is at rest with no
   * snapshot outstanding and nothing stranded, refused or struck. The mirror then shows exactly what is on
   * disk on the way to which nothing is excluded or special.
   */
  lemma CanRecover(rules: Rules, run: seq<State>) returns (longer: seq<State>, t: State)
    requires Downward(rules) && Trace(rules, run)
    ensures Trace(rules, longer) && run <= longer && t == longer[|longer| - 1] && t.disk == run[|run| - 1].disk
    ensures t.owed == {} && t.pending == map[] && t.carried == map[] && !t.overflow && t.flusher.Idle? && t.channel == []
    ensures t.fetch.NoFetch? && !t.rescanRequested && !t.sawRescan && !t.stale
    ensures t.stranded == {} && t.refused == {} && t.struck == {}
    ensures forall p: Location :: p != [] ==>
              && (p in t.mirror <==> p in t.disk && forall k :: 0 < k <= |p| ==>
                    && p[..k] in t.disk && !t.disk[p[..k]].kind.Other? && !rules(p[..k], t.disk[p[..k]].kind.Directory?))
              && (p in t.mirror ==> t.mirror[p] == t.disk[p])
  {
    var s := run[|run| - 1];
    DiskStaysOk(rules, run, |run| - 1);
    assert Extends(rules, run, s);
    var u := FetchEnds(rules, run, s);
    u := FlusherRests(rules, run, u);
    u := EventsRest(rules, run, u);
    u := ChannelDrains(rules, run, u);
    u := RequestDropped(rules, run, u);
    FetchRun(rules, run, u);
    t := Refreshed(rules, u);
    longer :| Trace(rules, longer) && run <= longer && longer[|longer| - 1] == t;
    forall p: Location | p != []
      ensures && (p in t.mirror <==> p in t.disk && forall k :: 0 < k <= |p| ==>
                    && p[..k] in t.disk && !t.disk[p[..k]].kind.Other? && !rules(p[..k], t.disk[p[..k]].kind.Directory?))
              && (p in t.mirror ==> t.mirror[p] == t.disk[p])
    {
      ShownIff(rules, t.disk, p);
    }
  }

  // --- what may happen next -------------------------------------------------------------------

  /** At any moment the disk may become any tree of names that can be held; what differs is owed an event. */
  lemma DiskMayChange(rules: Rules, s: State, d: Mirror) returns (t: State)
    requires [] in d && d[[]].kind.Directory?
    requires forall p :: p in d && p != [] ==> p[..|p| - 1] in d && d[p[..|p| - 1]].kind.Directory?
    requires forall p, k :: p in d && 0 <= k < |p| ==> Path.Components(p[k]) == [p[k]] && p[k] != [46, 46] && 0 !in p[k]
    ensures Next(rules, s, t) && t == s.(disk := d, owed := t.owed)
    ensures forall p :: p in t.owed <==>
              p in s.owed || (p in d && p !in s.disk) || (p in s.disk && p !in d) || (p in d && p in s.disk && d[p] != s.disk[p])
  {
    t := s.(disk := d, owed := s.owed + Changed(s.disk, d));
    forall p | p in d ensures Path.AllValid(p) {
      forall k | 0 <= k < |p| ensures Path.ValidName(p[k]) {
        Path.ValidNameIff(p[k]);
      }
    }
    assert ChangeDisk(s, t);
    assert FromDisk(s, t);
  }

  /** An event on any path that can be held may come in; unless events have been lost it is kept. */
  lemma EventMayCome(rules: Rules, s: State, p: Location, event: Event) returns (t: State)
    requires Path.AllValid(p)
    ensures Next(rules, s, t)
    ensures t == s.(owed := s.owed - {p}, pending := if s.overflow then s.pending else s.pending[p := event])
  {
    var none: set<Location> := {};
    var carried := map q | q in none :: p;
    assert s.carried + carried == s.carried && s.owed - {p} - none == s.owed - {p};
    t := s.(owed := s.owed - {p}, pending := if s.overflow then s.pending else s.pending[p := event]);
    assert Report(s, t, p, event, none);
    assert FromDisk(s, t);
  }
}
