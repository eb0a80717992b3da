/** Building runs of the coherence protocol: mounting a disk, and taking one batch through to the mirror. */
module CoherenceRuns {
  import opened Types
  import opened PathMap
  import opened Cell
  import opened Coherence
  import opened CoherenceProof
  import Path

  /** Some run from a fresh mount ends in `s`. */
  ghost predicate Reached(rules: Rules, s: State) {
    exists run :: Trace(rules, run) && run[|run| - 1] == s
  }

  lemma LongerTrace(rules: Rules, run: seq<State>, t: State)
    requires Trace(rules, run) && Next(rules, run[|run| - 1], t)
    ensures Trace(rules, run + [t])
  {
    var all := run + [t];
    forall k | 0 <= k < |all| - 1 ensures Next(rules, all[k], all[k + 1]) {
      if k < |run| - 1 {
        assert all[k] == run[k] && all[k + 1] == run[k + 1];
        assert Next(rules, run[k], run[k + 1]);
      }
    }
  }

  lemma Step(rules: Rules, s: State, t: State)
    requires Reached(rules, s) && Next(rules, s, t)
    ensures Reached(rules, t)
  {
    var run :| Trace(rules, run) && run[|run| - 1] == s;
    LongerTrace(rules, run, t);
    assert (run + [t])[|run + [t]| - 1] == t;
  }

  // --- mounting -----------------------------------------------------------------------

  function Rooted(): Mirror { map[[] := IMPLICIT_DIRECTORY] }

  /** The scan comes to `p`: nothing on the way is excluded or of a kind that is not mirrored. */
  predicate Mirrored(rules: Rules, d: Mirror, p: Location)
    decreases |p|
  {
    p == [] || (Visible(d, p) && !rules(p, d[p].kind.Directory?) && IsDirectory(d, Parent(p)) && Mirrored(rules, d, Parent(p)))
  }

  /** What a client should see of `d`. The root's own attributes are not part of a snapshot. */
  function Shown(rules: Rules, d: Mirror): Mirror {
    Rooted() + map p | p in d && p != [] && Mirrored(rules, d, p) :: d[p]
  }

  function UpTo(m: Mirror, n: nat): Mirror {
    map p | p in m && |p| <= n :: m[p]
  }

  ghost function Level(n: nat): iset<Location> {
    iset p: Location | |p| == n
  }

  ghost function Levels(n: nat): iset<Location> {
    iset p: Location | 0 < |p| <= n
  }

  /** The run can be continued so as to end in `s`. */
  ghost predicate Extends(rules: Rules, run: seq<State>, s: State) {
    exists longer :: Trace(rules, longer) && run <= longer && longer[|longer| - 1] == s
  }

  lemma Go(rules: Rules, run: seq<State>, s: State, t: State)
    requires Extends(rules, run, s) && Next(rules, s, t)
    ensures Extends(rules, run, t)
  {
    var longer :| Trace(rules, longer) && run <= longer && longer[|longer| - 1] == s;
    LongerTrace(rules, longer, t);
    var all := longer + [t];
    assert all[|all| - 1] == t && run <= all;
  }

  /** `s` in the middle of fetching a snapshot. */
  ghost function During(s: State, fetch: Fetch): State {
    s.(fetch := fetch, missed := {})
  }

  /** The scan has read the first `n` levels. */
  ghost predicate Scanned(rules: Rules, run: seq<State>, s: State, n: nat) {
    Extends(rules, run, During(s, Scanning(s.generation, UpTo(Shown(rules, s.disk), n), Levels(n), [], false)))
  }

  lemma ScanStarts(rules: Rules, run: seq<State>, s: State)
    requires Extends(rules, run, s) && s.fetch.NoFetch? && !s.rescanRequested
    ensures Scanned(rules, run, s, 0)
  {
    assert UpTo(Shown(rules, s.disk), 0) == Rooted() && Levels(0) == iset{};
    var t := s.(fetch := Requested([], false));
    assert StartFetch(s, t, false);
    Go(rules, run, s, t);
    var u := During(s, Scanning(s.generation, Rooted(), iset{}, [], false));
    assert Stamp(t, u);
    Go(rules, run, t, u);
  }

  ghost function Read(rules: Rules, d: Mirror, m: Mirror, ps: iset<Location>): Mirror {
    m + map p | p in d && p in ps && Scannable(rules, d, m, p) :: d[p]
  }

  lemma LevelRead(rules: Rules, d: Mirror, n: nat)
    requires DiskOk(d)
    ensures Read(rules, d, UpTo(Shown(rules, d), n), Level(n + 1)) == UpTo(Shown(rules, d), n + 1)
  {
    var m, up := Shown(rules, d), UpTo(Shown(rules, d), n);
    forall p | p in d && |p| == n + 1 ensures Scannable(rules, d, up, p) <==> p in m {
      var a := Parent(p);
      assert IsDirectory(up, a) <==> IsDirectory(m, a);
      assert p in m <==> Mirrored(rules, d, p);
      assert a == [] ==> IsDirectory(m, a) && Mirrored(rules, d, a);
      assert a != [] ==> (IsDirectory(m, a) <==> IsDirectory(d, a) && Mirrored(rules, d, a));
    }
  }

  lemma VisitLevel(rules: Rules, run: seq<State>, s: State, n: nat)
    requires DiskOk(s.disk) && Scanned(rules, run, s, n)
    ensures Scanned(rules, run, s, n + 1)
  {
    var d := s.disk;
    LevelRead(rules, d, n);
    assert Levels(n) + Level(n + 1) == Levels(n + 1);
    var t := During(s, Scanning(s.generation, UpTo(Shown(rules, d), n), Levels(n), [], false));
    var u := During(s, Scanning(s.generation, UpTo(Shown(rules, d), n + 1), Levels(n + 1), [], false));
    assert Visit(rules, t, u, Level(n + 1));
    Go(rules, run, t, u);
  }

  lemma {:induction false} ScanLevels(rules: Rules, run: seq<State>, s: State, k: nat, n: nat)
    requires DiskOk(s.disk) && k <= n && Scanned(rules, run, s, k)
    ensures Scanned(rules, run, s, n)
    decreases n - k
  {
    if k < n {
      VisitLevel(rules, run, s, k);
      ScanLevels(rules, run, s, k + 1, n);
    }
  }

  lemma {:induction false} Depth(ps: set<Location>) returns (n: nat)
    ensures forall p :: p in ps ==> |p| < n
  {
    if ps == {} {
      n := 0;
    } else {
      var p :| p in ps;
      var m := Depth(ps - {p});
      n := if m > |p| then m else |p| + 1;
    }
  }

  lemma ScanEnds(rules: Rules, run: seq<State>, s: State, n: nat)
    requires Extends(rules, run, During(s, Scanning(s.generation, Shown(rules, s.disk), Levels(n), [], false)))
    requires n > 0 && forall p :: p in Shown(rules, s.disk) ==> |p| < n
    ensures Extends(rules, run, During(s, Ready(s.generation, Shown(rules, s.disk), [], false)))
  {
    var m := Shown(rules, s.disk);
    var t, u := During(s, Scanning(s.generation, m, Levels(n), [], false)), During(s, Ready(s.generation, m, [], false));
    forall p: Location | p != [] ensures Settled(t.fetch, p) {
      var k := if |p| <= n then |p| else n;
      assert p[..k] in t.fetch.seen;
      assert k == n ==> p[..k] !in m;
    }
    assert FinishScan(t, u);
    Go(rules, run, t, u);
  }

  /** Everything the client knows is fresh: its mirror shows the disk, and nothing has gone wrong. */
  ghost function Refreshed(rules: Rules, s: State): State {
    s.(mirror := Shown(rules, s.disk), stale := false, refused := {}, struck := {}, stranded := {}, missed := {})
  }

  lemma NothingAhead(s: State, g: nat)
    requires s.channel == [] && s.flusher.Idle?
    ensures Older(s, g) == [] && Ahead(s) == []
  {
    assert Before(s.channel, g) == [] && All(s.channel) == [] && Unsent(s.flusher) == [];
  }

  lemma InstallFresh(rules: Rules, run: seq<State>, s: State)
    requires Extends(rules, run, During(s, Ready(s.generation, Shown(rules, s.disk), [], false)))
    requires s.fetch.NoFetch? && s.channel == [] && s.flusher.Idle? && !s.sawRescan && !s.rescanRequested && !s.overflow
    ensures Extends(rules, run, Refreshed(rules, s))
  {
    var m := Shown(rules, s.disk);
    var t := During(s, Ready(s.generation, m, [], false));
    var u := Refreshed(rules, s).(fetch := Finishing(false));
    NothingAhead(t, s.generation);
    assert Install(t, u) by {
      assert RefusedAfter(m, {}, [], []) == {};
      assert StillStranded(t) == {};
    }
    Go(rules, run, t, u);
    assert FinishFetch(u, Refreshed(rules, s));
    Go(rules, run, u, Refreshed(rules, s));
  }

  /** With nothing else going on, fetching a snapshot shows everything on disk that is neither excluded nor special. */
  lemma FetchRun(rules: Rules, run: seq<State>, s: State)
    requires DiskOk(s.disk) && Extends(rules, run, s)
    requires s.fetch.NoFetch? && s.channel == [] && s.flusher.Idle? && !s.sawRescan && !s.rescanRequested && !s.overflow
    ensures Extends(rules, run, Refreshed(rules, s))
  {
    var m := Shown(rules, s.disk);
    var n := Depth(m.Keys);
    assert [] in m.Keys;
    assert forall p :: p in m ==> p in m.Keys;
    ScanStarts(rules, run, s);
    ScanLevels(rules, run, s, 0, n);
    assert UpTo(m, n) == m;
    ScanEnds(rules, run, s, n);
    InstallFresh(rules, run, s);
  }

  /** A client that has mounted `d` and shows exactly what it should. */
  function Mounted(rules: Rules, d: Mirror, mode: LookupMode): State {
    State(d, {}, map[], map[], false, 0, Idle, [], Shown(rules, d), mode, false, false, NoFetch, false, {}, {}, {}, {})
  }

  /** Mounting a disk that nobody touches shows everything on it that is neither excluded nor special. */
  lemma MountRun(rules: Rules, d: Mirror, mode: LookupMode)
    requires DiskOk(d)
    ensures Reached(rules, Mounted(rules, d, mode))
  {
    var s := State(d, {}, map[], map[], false, 0, Idle, [], Rooted(), mode, false, false, NoFetch, true, {}, {}, {}, {});
    assert Extends(rules, [s], s) by {
      assert Trace(rules, [s]) && [s] <= [s];
    }
    FetchRun(rules, [s], s);
    var run :| Trace(rules, run) && [s] <= run && run[|run| - 1] == Mounted(rules, d, mode);
  }

  /** `q` itself is neither excluded nor special. */
  predicate Passable(rules: Rules, d: Mirror, q: Location) {
    q in d && !d[q].kind.Other? && !rules(q, d[q].kind.Directory?)
  }

  lemma {:induction false} MirroredIff(rules: Rules, d: Mirror, p: Location)
    requires TreeClosed(d) && p in d
    ensures Mirrored(rules, d, p) <==> forall k {:trigger p[..k]} :: 0 < k <= |p| ==> Passable(rules, d, p[..k])
    decreases |p|
  {
    if p != [] {
      var a := Parent(p);
      assert IsDirectory(d, a);
      MirroredIff(rules, d, a);
      assert p[..|p|] == p;
      forall k | 0 < k < |p| ensures p[..k] == a[..k] {
      }
      if forall k :: 0 < k <= |a| ==> Passable(rules, d, a[..k]) {
        assert forall k :: 0 < k < |p| ==> Passable(rules, d, p[..k]);
      }
      if forall k :: 0 < k <= |p| ==> Passable(rules, d, p[..k]) {
        forall k | 0 < k <= |a| ensures Passable(rules, d, a[..k]) {
          assert a[..k] == p[..k];
        }
      }
    }
  }

  /** What is shown, spelt out: every path on disk on the way to which nothing is excluded or special. */
  lemma ShownIff(rules: Rules, d: Mirror, p: Location)
    requires TreeClosed(d) && p != []
    ensures p in Shown(rules, d) <==>
              && p in d
              && forall k :: 0 < k <= |p| ==>
                   p[..k] in d && !d[p[..k]].kind.Other? && !rules(p[..k], d[p[..k]].kind.Directory?)
    ensures p in Shown(rules, d) ==> Shown(rules, d)[p] == d[p]
  {
    if p in d {
      MirroredIff(rules, d, p);
      assert forall k :: 0 < k <= |p| ==>
               (Passable(rules, d, p[..k]) <==>
                  p[..k] in d && !d[p[..k]].kind.Other? && !rules(p[..k], d[p[..k]].kind.Directory?));
    }
  }

  // --- one batch ----------------------------------------------------------------------

  /** What the client holds. */
  datatype Client = Client(mirror: Mirror, mode: LookupMode, refused: set<Location>, struck: set<Location>)

  /** A client that is up to date with what has been sent. */
  ghost function Now(disk: Mirror, owed: set<Location>, pending: map<Location, Event>, carried: map<Location, Location>,
                     generation: nat, flusher: Flusher, c: Client, stranded: set<Location>): State {
    State(disk, owed, pending, carried, false, generation, flusher, [], c.mirror, c.mode, false, false, NoFetch, false,
          c.refused, c.struck, stranded, stranded)
  }

  lemma Rewrite(rules: Rules, d: Mirror, d': Mirror, owed: set<Location>, pending: map<Location, Event>,
                carried: map<Location, Location>, c: Client)
    requires Reached(rules, Now(d, owed, pending, carried, 0, Idle, c, {})) && DiskOk(d')
    ensures Reached(rules, Now(d', owed + Changed(d, d'), pending, carried, 0, Idle, c, {}))
  {
    var s := Now(d, owed, pending, carried, 0, Idle, c, {});
    var t := Now(d', owed + Changed(d, d'), pending, carried, 0, Idle, c, {});
    assert ChangeDisk(s, t);
    Step(rules, s, t);
  }

  lemma Notice(rules: Rules, d: Mirror, owed: set<Location>, pending: map<Location, Event>, carried: map<Location, Location>,
               g: nat, c: Client, stranded: set<Location>,
               p: Location, event: Event, under: set<Location>, owed': set<Location>, carried': map<Location, Location>)
    requires Reached(rules, Now(d, owed, pending, carried, g, Idle, c, stranded))
    requires Path.AllValid(p) && forall q :: q in under ==> p < q
    requires owed' == owed - {p} - under && carried' == carried + (map q | q in under :: p)
    ensures Reached(rules, Now(d, owed', pending[p := event], carried', g, Idle, c, stranded))
  {
    var s := Now(d, owed, pending, carried, g, Idle, c, stranded);
    var t := Now(d, owed', pending[p := event], carried', g, Idle, c, stranded);
    assert Report(s, t, p, event, under);
    Step(rules, s, t);
  }

  lemma Plan(rules: Rules, d: Mirror, owed: set<Location>, pending: map<Location, Event>, carried: map<Location, Location>,
             g: nat, c: Client, stranded: set<Location>,
             planned: seq<Planned>, pruned: map<Location, Location>, brought: map<Location, Location>)
    requires Reached(rules, Now(d, owed, pending, carried, g, Idle, c, stranded))
    requires PrunedOk(planned, pruned) && BroughtOk(planned, brought)
    requires forall k :: 0 <= k < |planned| ==> planned[k].path in pending
    requires forall p :: p in pending ==> IsPlanned(planned, p)
    requires forall p :: p in carried ==> (p in pruned || p in brought) && CoveredAbove(planned, p)
    ensures Reached(rules, Now(d, owed, map[], map[], g + 1, Resolving(planned, pruned, brought, []), c, stranded))
  {
    var s := Now(d, owed, pending, carried, g, Idle, c, stranded);
    var t := Now(d, owed, map[], map[], g, Taken(planned, pruned, brought, false), c, stranded);
    var u := Now(d, owed, map[], map[], g + 1, Resolving(planned, pruned, brought, []), c, stranded);
    assert Take(s, t, planned, pruned, brought) by {
      var left := set p | p in s.carried && p !in s.owed && !IsPlanned(planned, p) && !CoveredAbove(planned, p);
      assert left == {};
      assert s.stranded + left == s.stranded;
    }
    Step(rules, s, t);
    assert AssignGeneration(t, u);
    Step(rules, t, u);
  }

  /** Stats the next path; nothing below it was waiting. */
  lemma Stat(rules: Rules, d: Mirror, owed: set<Location>, g: nat, next: Planned, rest: seq<Planned>,
             cs: seq<Change>, cs': seq<Change>, c: Client, stranded: set<Location>)
    requires Reached(rules, Now(d, owed, map[], map[], g, Resolving([next] + rest, map[], map[], cs), c, stranded))
    requires cs' == cs + Resolved(rules, d, next.path) && Undecided(stranded, Resolved(rules, d, next.path)) == stranded
    ensures Reached(rules, Now(d, owed, map[], map[], g, Resolving(rest, map[], map[], cs'), c, stranded))
  {
    var s := Now(d, owed, map[], map[], g, Resolving([next] + rest, map[], map[], cs), c, stranded);
    var t := s.(flusher := Resolving(rest, map[], map[], cs'));
    var none: map<Location, Location> := map[];
    assert ([next] + rest)[1..] == rest;
    assert Below(none, next.path) == {};
    assert Under(s.flusher) == {} && Along(s.flusher, d) == {};
    assert LeftBehind(s, Resolved(rules, d, next.path)) == {};
    assert stranded + {} == stranded && none - {} == none;
    assert Resolve(rules, s, t);
    Step(rules, s, t);
  }

  lemma Send(rules: Rules, s: State)
    requires Reached(rules, s) && s.flusher.Sending? && s.flusher.changes != [] && s.channel == []
    ensures Reached(rules, s.(channel := [Chunk(s.generation, s.flusher.changes)], flusher := Sending([])))
  {
    var cs := s.flusher.changes;
    var t := s.(channel := [Chunk(s.generation, cs)], flusher := Sending([]));
    assert cs[..|cs|] == cs && cs[|cs|..] == [];
    assert SendChunk(s, t, |cs|);
    Step(rules, s, t);
  }

  lemma Finish(rules: Rules, s: State)
    requires Reached(rules, s) && s.flusher == Sending([])
    ensures Reached(rules, s.(flusher := Idle))
  {
    assert FinishSending(s, s.(flusher := Idle));
    Step(rules, s, s.(flusher := Idle));
  }

  /** The client after a frame has been applied as the lookups resolved it. */
  function Updated(c: Client, cs: seq<Change>, hits: seq<Change>): Client
    requires |hits| == |cs|
  {
    Client(ApplyAll(c.mirror, hits), c.mode,
           RefusedAfter(c.mirror, c.refused, cs, hits), StruckAfter(c.mirror, c.struck, cs, hits))
  }

  lemma Accept(rules: Rules, d: Mirror, owed: set<Location>, g: nat, cs: seq<Change>, hits: seq<Change>, c: Client,
               stranded: set<Location>)
    requires Reached(rules, Now(d, owed, map[], map[], g, Sending([]), c, stranded).(channel := [Chunk(g, cs)]))
    requires Rescan !in cs && Aimed(c.mode, c.mirror, cs, hits)
    ensures Reached(rules, Now(d, owed, map[], map[], g, Sending([]), Updated(c, cs, hits), stranded))
  {
    var s := Now(d, owed, map[], map[], g, Sending([]), c, stranded).(channel := [Chunk(g, cs)]);
    var t := Now(d, owed, map[], map[], g, Sending([]), Updated(c, cs, hits), stranded);
    assert Receive(s, t, hits);
    Step(rules, s, t);
  }

  lemma NothingSent(c: Client)
    ensures Updated(c, [], []) == c
  {
  }

  lemma Deliver(rules: Rules, d: Mirror, owed: set<Location>, g: nat, cs: seq<Change>, hits: seq<Change>, c: Client,
                stranded: set<Location>)
    requires Reached(rules, Now(d, owed, map[], map[], g, Resolving([], map[], map[], cs), c, stranded))
    requires Rescan !in cs && Aimed(c.mode, c.mirror, cs, hits)
    ensures Reached(rules, Now(d, owed, map[], map[], g, Idle, Updated(c, cs, hits), stranded))
  {
    var s := Now(d, owed, map[], map[], g, Resolving([], map[], map[], cs), c, stranded);
    var t := s.(flusher := Sending(cs));
    assert StartSending(s, t);
    Step(rules, s, t);
    if cs == [] {
      NothingSent(c);
    } else {
      Send(rules, t);
      Accept(rules, d, owed, g, cs, hits, c, stranded);
    }
    Finish(rules, Now(d, owed, map[], map[], g, Sending([]), Updated(c, cs, hits), stranded));
  }
}
