/** Which names travel through the coherence protocol, and when a case-insensitive client can mistake one for another. */
module CoherenceSpelling {
  import opened Types
  import opened PathMap
  import opened CaseFold
  import opened Cell
  import opened Coherence
  import opened CoherenceProof
  import Path
  import TreeSnapshot

  /** Removals name paths in `P`, upserts paths in `Q`. */
  predicate Fits(P: Location -> bool, Q: Location -> bool, c: Change) {
    match c
    case Upsert(q, _) => Q(q)
    case Remove(q) => P(q)
    case Rescan => true
  }

  predicate AllFit(P: Location -> bool, Q: Location -> bool, cs: seq<Change>) {
    forall k {:trigger cs[k]} :: 0 <= k < |cs| ==> Fits(P, Q, cs[k])
  }

  predicate PendingIn(P: Location -> bool, s: State) {
    forall q :: q in s.pending ==> P(q)
  }

  predicate PlannedIn(P: Location -> bool, f: Flusher) {
    f.Taken? || f.Resolving? ==> forall k :: 0 <= k < |f.planned| ==> P(f.planned[k].path)
  }

  ghost predicate DiskIn(Q: Location -> bool, d: Mirror) {
    forall q {:trigger Q(q)} :: q in d ==> Q(q)
  }

  ghost predicate Within(P: Location -> bool, Q: Location -> bool) {
    forall q {:trigger P(q)} :: P(q) ==> Q(q)
  }

  /** Everything on its way to the client names paths of those two kinds. */
  ghost predicate Spelt(P: Location -> bool, Q: Location -> bool, s: State) {
    PendingIn(P, s) && PlannedIn(P, s.flusher) && AllFit(P, Q, Ahead(s))
  }

  lemma AllFitConcat(P: Location -> bool, Q: Location -> bool, a: seq<Change>, b: seq<Change>)
    ensures AllFit(P, Q, a + b) <==> AllFit(P, Q, a) && AllFit(P, Q, b)
  {
    if AllFit(P, Q, a + b) {
      assert forall k :: 0 <= k < |a| ==> a[k] == (a + b)[k];
      assert forall k :: 0 <= k < |b| ==> b[k] == (a + b)[|a| + k];
    }
  }

  lemma AheadFits(P: Location -> bool, Q: Location -> bool, s: State)
    ensures AllFit(P, Q, Ahead(s)) <==> AllFit(P, Q, All(s.channel)) && AllFit(P, Q, Unsent(s.flusher))
  {
    AllFitConcat(P, Q, All(s.channel), Unsent(s.flusher));
  }

  // --- what each component leaves alone -------------------------------------------------

  /** What the disk, the watcher and the coalescer do not touch. */
  predicate Aloof(s: State, t: State) {
    t.channel == s.channel && t.struck == s.struck
  }

  lemma ChangeFrame(s: State, t: State)
    requires ChangeDisk(s, t)
    ensures Aloof(s, t) && t.flusher == s.flusher && t.pending == s.pending && DiskOk(t.disk)
  {
  }

  lemma ReportFrame(s: State, t: State, q: Location, event: Event, under: set<Location>)
    requires Report(s, t, q, event, under)
    ensures Aloof(s, t) && t.flusher == s.flusher && t.disk == s.disk && Path.AllValid(q)
    ensures forall x :: x in t.pending ==> x in s.pending || x == q
  {
  }

  lemma OverflowFrame(s: State, t: State, lost: set<Location>)
    requires Overflow(s, t, lost)
    ensures Aloof(s, t) && t.flusher == s.flusher && t.disk == s.disk && t.pending == map[]
  {
  }

  lemma TakeFrame(s: State, t: State, planned: seq<Planned>, pruned: map<Location, Location>, brought: map<Location, Location>)
    requires Take(s, t, planned, pruned, brought)
    ensures Aloof(s, t) && t.disk == s.disk && t.pending == map[] && s.flusher.Idle? && t.flusher.Taken?
    ensures forall k :: 0 <= k < |t.flusher.planned| ==> t.flusher.planned[k].path in s.pending
  {
  }

  lemma AssignFrame(s: State, t: State)
    requires AssignGeneration(s, t)
    ensures Aloof(s, t) && t.disk == s.disk && t.pending == s.pending
    ensures t.flusher.Resolving? && s.flusher.Taken? && t.flusher.planned == s.flusher.planned
    ensures t.flusher.changes == [Rescan] || t.flusher.changes == []
  {
  }

  lemma DiskAloof(s: State, t: State)
    requires FromDisk(s, t)
    ensures Aloof(s, t)
  {
    if ChangeDisk(s, t) {
      ChangeFrame(s, t);
    } else if q, event, under :| Report(s, t, q, event, under) {
      ReportFrame(s, t, q, event, under);
    } else if lost :| Overflow(s, t, lost) {
      OverflowFrame(s, t, lost);
    } else if planned, pruned, brought :| Take(s, t, planned, pruned, brought) {
      TakeFrame(s, t, planned, pruned, brought);
    } else {
      AssignFrame(s, t);
    }
  }

  lemma ResolveFrame(rules: Rules, s: State, t: State)
    requires Resolve(rules, s, t)
    ensures t.pending == s.pending && t.struck == s.struck && t.disk == s.disk
  {
  }

  lemma ExpandFrame(rules: Rules, s: State, t: State, q: Location)
    requires Expand(rules, s, t, q) || Miss(rules, s, t, q)
    ensures t.pending == s.pending && t.struck == s.struck && t.disk == s.disk
  {
  }

  lemma GiveUpFrame(s: State, t: State, keep: nat)
    requires GiveUpExpansion(s, t, keep)
    ensures t.pending == s.pending && t.struck == s.struck && t.disk == s.disk
  {
  }

  lemma ChunkFrame(s: State, t: State, n: nat)
    requires SendChunk(s, t, n)
    ensures t.pending == s.pending && t.struck == s.struck && t.disk == s.disk
  {
  }

  lemma SendingFrame(s: State, t: State)
    requires StartSending(s, t) || FinishSending(s, t)
    ensures t.pending == s.pending && t.struck == s.struck && t.disk == s.disk
  {
  }

  lemma FlusherFrame(rules: Rules, s: State, t: State)
    requires FromFlusher(rules, s, t)
    ensures t.pending == s.pending && t.struck == s.struck && t.disk == s.disk
  {
    if Resolve(rules, s, t) {
      ResolveFrame(rules, s, t);
    } else if q :| Expand(rules, s, t, q) || Miss(rules, s, t, q) {
      ExpandFrame(rules, s, t, q);
    } else if keep :| GiveUpExpansion(s, t, keep) {
      GiveUpFrame(s, t, keep);
    } else if n :| SendChunk(s, t, n) {
      ChunkFrame(s, t, n);
    } else {
      SendingFrame(s, t);
    }
  }

  lemma ReceiveFrame(s: State, t: State, hits: seq<Change>)
    requires Receive(s, t, hits)
    ensures t.pending == s.pending && t.disk == s.disk && t.flusher == s.flusher
  {
  }

  /** What the client does without touching the channel. */
  predicate Inward(s: State, t: State) {
    t.pending == s.pending && t.disk == s.disk && t.flusher == s.flusher && t.channel == s.channel && t.struck <= s.struck
  }

  lemma VisitFrame(rules: Rules, s: State, t: State, ps: iset<Location>)
    requires Visit(rules, s, t, ps)
    ensures Inward(s, t)
  {
  }

  lemma InstallFrame(s: State, t: State)
    requires Install(s, t)
    ensures Inward(s, t)
  {
  }

  lemma ScanFrame(s: State, t: State)
    requires Stamp(s, t) || FinishScan(s, t)
    ensures Inward(s, t)
  {
  }

  lemma EndFrame(s: State, t: State)
    requires RaiseRescan(s, t) || FailFetch(s, t) || FinishFetch(s, t)
    ensures Inward(s, t)
  {
  }

  lemma RequestFrame(s: State, t: State, forRescan: bool)
    requires StartFetch(s, t, forRescan)
    ensures Inward(s, t)
  {
  }

  lemma ModeFrame(s: State, t: State, mode: LookupMode)
    requires SetMode(s, t, mode)
    ensures Inward(s, t)
  {
  }

  lemma ClientFrame(rules: Rules, s: State, t: State)
    requires FromClient(rules, s, t)
    ensures t.pending == s.pending && t.disk == s.disk && t.flusher == s.flusher
    ensures (exists hits :: Receive(s, t, hits)) || Inward(s, t)
  {
    if hits :| Receive(s, t, hits) {
      ReceiveFrame(s, t, hits);
    } else if mode :| SetMode(s, t, mode) {
      ModeFrame(s, t, mode);
    } else if ps :| Visit(rules, s, t, ps) {
      VisitFrame(rules, s, t, ps);
    } else if forRescan :| StartFetch(s, t, forRescan) {
      RequestFrame(s, t, forRescan);
    } else if Install(s, t) {
      InstallFrame(s, t);
    } else if Stamp(s, t) || FinishScan(s, t) {
      ScanFrame(s, t);
    } else {
      EndFrame(s, t);
    }
  }

  // --- what the client is sent ----------------------------------------------------------

  lemma SameAhead(P: Location -> bool, Q: Location -> bool, s: State, t: State)
    requires Spelt(P, Q, s) && PendingIn(P, t) && t.channel == s.channel && t.flusher == s.flusher
    ensures Spelt(P, Q, t)
  {
    assert Ahead(t) == Ahead(s);
  }

  lemma TakeSpelt(P: Location -> bool, Q: Location -> bool, s: State, t: State,
                  planned: seq<Planned>, pruned: map<Location, Location>, brought: map<Location, Location>)
    requires Spelt(P, Q, s) && Take(s, t, planned, pruned, brought)
    ensures Spelt(P, Q, t)
  {
    TakeFrame(s, t, planned, pruned, brought);
    assert Ahead(t) == Ahead(s);
  }

  lemma AssignSpelt(P: Location -> bool, Q: Location -> bool, s: State, t: State)
    requires Spelt(P, Q, s) && AssignGeneration(s, t)
    ensures Spelt(P, Q, t)
  {
    AssignFrame(s, t);
    AheadFits(P, Q, s);
    AheadFits(P, Q, t);
  }

  lemma DiskSpelt(P: Location -> bool, Q: Location -> bool, s: State, t: State)
    requires Spelt(P, Q, s) && FromDisk(s, t) && PendingIn(P, t)
    ensures Spelt(P, Q, t)
  {
    if planned, pruned, brought :| Take(s, t, planned, pruned, brought) {
      TakeSpelt(P, Q, s, t, planned, pruned, brought);
    } else if AssignGeneration(s, t) {
      AssignSpelt(P, Q, s, t);
    } else {
      if ChangeDisk(s, t) {
        ChangeFrame(s, t);
      } else if q, event, under :| Report(s, t, q, event, under) {
        ReportFrame(s, t, q, event, under);
      } else if lost :| Overflow(s, t, lost) {
        OverflowFrame(s, t, lost);
      }
      SameAhead(P, Q, s, t);
    }
  }

  lemma ResolveSpelt(P: Location -> bool, Q: Location -> bool, rules: Rules, s: State, t: State)
    requires Spelt(P, Q, s) && Within(P, Q) && Resolve(rules, s, t)
    ensures Spelt(P, Q, t)
  {
    var q := s.flusher.planned[0].path;
    assert P(q);
    AheadFits(P, Q, s);
    AheadFits(P, Q, t);
    AllFitConcat(P, Q, s.flusher.changes, Resolved(rules, s.disk, q));
    assert forall k :: 0 <= k < |t.flusher.planned| ==> t.flusher.planned[k] == s.flusher.planned[k + 1];
  }

  lemma ExpandSpelt(P: Location -> bool, Q: Location -> bool, rules: Rules, s: State, t: State, q: Location)
    requires Spelt(P, Q, s) && DiskIn(Q, s.disk) && (Expand(rules, s, t, q) || Miss(rules, s, t, q))
    ensures Spelt(P, Q, t)
  {
    AheadFits(P, Q, s);
    AheadFits(P, Q, t);
    if Expand(rules, s, t, q) {
      assert Q(q);
      AllFitConcat(P, Q, s.flusher.changes, [Upsert(q, s.disk[q])]);
    }
  }

  lemma GiveUpSpelt(P: Location -> bool, Q: Location -> bool, s: State, t: State, keep: nat)
    requires Spelt(P, Q, s) && GiveUpExpansion(s, t, keep)
    ensures Spelt(P, Q, t)
  {
    AheadFits(P, Q, s);
    AheadFits(P, Q, t);
    AllFitConcat(P, Q, s.flusher.changes[..keep], [Rescan]);
  }

  lemma SendSpelt(P: Location -> bool, Q: Location -> bool, s: State, t: State, n: nat)
    requires Spelt(P, Q, s) && SendChunk(s, t, n)
    ensures Spelt(P, Q, t)
  {
    Queued(s.channel, 0, s.generation, s.flusher.changes, n, []);
  }

  lemma FlusherSpelt(P: Location -> bool, Q: Location -> bool, rules: Rules, s: State, t: State)
    requires Spelt(P, Q, s) && Within(P, Q) && DiskIn(Q, s.disk) && FromFlusher(rules, s, t)
    ensures Spelt(P, Q, t)
  {
    if Resolve(rules, s, t) {
      ResolveSpelt(P, Q, rules, s, t);
    } else if q :| Expand(rules, s, t, q) || Miss(rules, s, t, q) {
      ExpandSpelt(P, Q, rules, s, t, q);
    } else if keep :| GiveUpExpansion(s, t, keep) {
      GiveUpSpelt(P, Q, s, t, keep);
    } else if n :| SendChunk(s, t, n) {
      SendSpelt(P, Q, s, t, n);
    } else {
      SendingSpelt(P, Q, s, t);
    }
  }

  lemma SendingSpelt(P: Location -> bool, Q: Location -> bool, s: State, t: State)
    requires Spelt(P, Q, s) && (StartSending(s, t) || FinishSending(s, t))
    ensures Spelt(P, Q, t)
  {
    assert Ahead(t) == Ahead(s);
  }

  lemma ReceiveSpelt(P: Location -> bool, Q: Location -> bool, s: State, t: State, hits: seq<Change>)
    requires Spelt(P, Q, s) && Receive(s, t, hits)
    ensures Spelt(P, Q, t) && AllFit(P, Q, s.channel[0].changes)
  {
    AheadSplit(s.channel, Unsent(s.flusher));
    AllFitConcat(P, Q, s.channel[0].changes, Ahead(t));
  }

  lemma ClientSpelt(P: Location -> bool, Q: Location -> bool, rules: Rules, s: State, t: State)
    requires Spelt(P, Q, s) && FromClient(rules, s, t)
    ensures Spelt(P, Q, t)
  {
    ClientFrame(rules, s, t);
    if hits :| Receive(s, t, hits) {
      ReceiveSpelt(P, Q, s, t, hits);
    }
  }

  /** Along a run the client is sent only what was reported or found on disk. */
  lemma {:induction false} RunSpelt(P: Location -> bool, Q: Location -> bool, rules: Rules, run: seq<State>, k: nat)
    requires Trace(rules, run) && k < |run| && Within(P, Q)
    requires forall j {:trigger run[j]} :: 0 <= j <= k ==> PendingIn(P, run[j]) && DiskIn(Q, run[j].disk)
    ensures Spelt(P, Q, run[k])
  {
    if k == 0 {
      assert Init(run[0]);
      assert PendingIn(P, run[0]);
    } else {
      RunSpelt(P, Q, rules, run, k - 1);
      var s, t := run[k - 1], run[k - 1 + 1];
      assert Next(rules, s, t) && PendingIn(P, t);
      if FromDisk(s, t) {
        DiskSpelt(P, Q, s, t);
      } else if FromFlusher(rules, s, t) {
        FlusherSpelt(P, Q, rules, s, t);
      } else {
        ClientSpelt(P, Q, rules, s, t);
      }
    }
  }

  // --- names that can be held -----------------------------------------------------------

  lemma DiskValid(s: State, t: State)
    requires FromDisk(s, t) && PendingIn(Path.AllValid, s) && DiskIn(Path.AllValid, s.disk)
    ensures PendingIn(Path.AllValid, t) && DiskIn(Path.AllValid, t.disk)
  {
    if ChangeDisk(s, t) {
      ChangeFrame(s, t);
    } else if q, event, under :| Report(s, t, q, event, under) {
      ReportFrame(s, t, q, event, under);
    } else if lost :| Overflow(s, t, lost) {
      OverflowFrame(s, t, lost);
    } else if planned, pruned, brought :| Take(s, t, planned, pruned, brought) {
      TakeFrame(s, t, planned, pruned, brought);
    } else {
      AssignFrame(s, t);
    }
  }

  lemma {:induction false} NamesValid(rules: Rules, run: seq<State>, k: nat)
    requires Trace(rules, run) && k < |run|
    ensures PendingIn(Path.AllValid, run[k]) && DiskIn(Path.AllValid, run[k].disk)
  {
    if k > 0 {
      NamesValid(rules, run, k - 1);
      var s, t := run[k - 1], run[k - 1 + 1];
      assert Next(rules, s, t);
      if FromDisk(s, t) {
        DiskValid(s, t);
      } else if FromFlusher(rules, s, t) {
        FlusherFrame(rules, s, t);
      } else {
        ClientFrame(rules, s, t);
      }
    }
  }

  /** Every path on its way to the client is read back from its text exactly as it was meant. */
  lemma TextIsFaithful(rules: Rules, run: seq<State>, k: nat, n: nat)
    requires Trace(rules, run) && k < |run| && n < |Ahead(run[k])| && !Ahead(run[k])[n].Rescan?
    ensures var p := Ahead(run[k])[n].path;
            Path.AllValid(p) && Path.Components(Path.Join(p)) == p
  {
    forall j | 0 <= j <= k ensures PendingIn(Path.AllValid, run[j]) && DiskIn(Path.AllValid, run[j].disk) {
      NamesValid(rules, run, j);
    }
    RunSpelt(Path.AllValid, Path.AllValid, rules, run, k);
    assert Fits(Path.AllValid, Path.AllValid, Ahead(run[k])[n]);
    Path.ComponentsOfJoin(Ahead(run[k])[n].path);
  }

  /** `x\y`, a legal name on the agent's side. */
  const BACKSLASHED: Name := [120, 92, 121]

  lemma BackslashedDropped(a: Attributes)
    ensures !Path.ValidName(BACKSLASHED)
    ensures TreeSnapshot.Load([TreeSnapshot.SnapshotEntry(0, BACKSLASHED, a)]).view == map[[] := IMPLICIT_DIRECTORY]
  {
    var e := TreeSnapshot.SnapshotEntry(0, BACKSLASHED, a);
    assert Path.IsSeparator(BACKSLASHED[1]);
    assert [e][..0] == [] && TreeSnapshot.Load([]) == TreeSnapshot.EMPTY_TREE;
  }

  lemma BackslashedText()
    ensures Path.Components(Path.Join([BACKSLASHED])) == [[120], [121]]
  {
    Path.ComponentsCons([120], [92, 121]);
    Path.ComponentsCons([121], []);
    assert [120] + [92, 121] == BACKSLASHED && [92, 121][1..] == [121] && [121] + [] == [121];
  }

  lemma PhantomMade(a: Attributes)
    ensures var q: Location := [[120], [121]];
            var m := Upserted(map[[] := IMPLICIT_DIRECTORY], q, a);
            At(m, q) == Some(a) && [BACKSLASHED] !in m
  {
    var q: Location := [[120], [121]];
    assert q[..0] == [] && q[..1] == [[120]];
    assert Parent(q) == [[120]] && |BACKSLASHED| == 3;
    forall x | x in Ancestors(Parent(q)) ensures x == [] || (|x| == 1 && x[0] == [120]) {
    }
  }

  /**
   * Why the disk is assumed to hold valid names only. Loading a snapshot drops `x\y`, and an event on
   * it makes the client create a file `y` in a directory `x` that nobody ever made.
   */
  lemma BackslashedName(a: Attributes)
    ensures !Path.ValidName(BACKSLASHED)
    ensures TreeSnapshot.Load([TreeSnapshot.SnapshotEntry(0, BACKSLASHED, a)]).view == map[[] := IMPLICIT_DIRECTORY]
    ensures var q := Path.Components(Path.Join([BACKSLASHED]));
            var m := Upserted(map[[] := IMPLICIT_DIRECTORY], q, a);
            q == [[120], [121]] && At(m, q) == Some(a) && [BACKSLASHED] !in m
  {
    BackslashedDropped(a);
    BackslashedText();
    PhantomMade(a);
  }

  // --- names that fold alike ------------------------------------------------------------

  /** A path is struck only when a removal that folds like a prefix of it arrives in a case-insensitive mount. */
  lemma StruckStep(rules: Rules, s: State, t: State, p: Location)
    requires Next(rules, s, t) && p in t.struck && p !in s.struck
    ensures s.mode.CaseInsensitive? && s.channel != []
    ensures exists q {:trigger FoldsAbove(q, p)} :: Remove(q) in s.channel[0].changes && FoldsAbove(q, p)
  {
    if FromDisk(s, t) {
      DiskAloof(s, t);
    } else if FromFlusher(rules, s, t) {
      FlusherFrame(rules, s, t);
    } else {
      ClientFrame(rules, s, t);
    }
    var hits :| Receive(s, t, hits);
    StruckByFolding(s.mode, s.mirror, s.struck, s.channel[0].changes, hits, p);
  }

  /** No event is ever reported for a path that folds like a prefix of `p` and is spelt otherwise. */
  ghost predicate Spared(run: seq<State>, p: Location) {
    forall k, q {:trigger FoldsAbove(q, p), run[k]} :: 0 <= k < |run| && q in run[k].pending ==> !FoldsAbove(q, p)
  }

  ghost predicate AlwaysExact(run: seq<State>) {
    forall k :: 0 <= k < |run| ==> run[k].mode.Exact?
  }

  lemma {:induction false} NeverStruck(rules: Rules, run: seq<State>, k: nat, p: Location)
    requires Trace(rules, run) && k < |run| && (AlwaysExact(run) || Spared(run, p))
    ensures p !in run[k].struck
  {
    if k > 0 {
      NeverStruck(rules, run, k - 1, p);
      var s, t := run[k - 1], run[k - 1 + 1];
      assert Next(rules, s, t);
      if p in t.struck {
        StruckStep(rules, s, t, p);
        SparedRemovals(rules, run, k - 1, p);
      }
    }
  }

  lemma SparedRemovals(rules: Rules, run: seq<State>, k: nat, p: Location)
    requires Trace(rules, run) && k < |run| && run[k].channel != [] && Spared(run, p)
    ensures forall q {:trigger FoldsAbove(q, p)} :: Remove(q) in run[k].channel[0].changes ==> !FoldsAbove(q, p)
  {
    var P, Q := q => !FoldsAbove(q, p), q => true;
    RunSpelt(P, Q, rules, run, k);
    var s := run[k];
    AheadSplit(s.channel, Unsent(s.flusher));
    AllFitConcat(P, Q, s.channel[0].changes, All(s.channel[1..]) + Unsent(s.flusher));
  }

  /** Convergence in either lookup mode: matched by spelling, or where no reported path folds like a prefix of `p`. */
  lemma ConvergenceSpared(rules: Rules, run: seq<State>, s: State, p: Location)
    requires Downward(rules) && Trace(rules, run) && s == run[|run| - 1]
    requires || (forall k :: 0 <= k < |run| ==> run[k].mode.Exact?)
             || (forall k, q {:trigger q in run[k].pending} :: 0 <= k < |run| && q in run[k].pending && |q| <= |p| ==>
                   p[..|q|] == q || exists j :: 0 <= j < |q| && Fold(p[j]) != Fold(q[j]))
    requires s.owed == {} && s.pending == map[] && s.carried == map[] && !s.overflow && s.flusher.Idle? && s.channel == []
    requires s.fetch.NoFetch? && !s.rescanRequested && !s.sawRescan && !s.stale
    requires p != [] && !rules(p, false) && !rules(p, true) && (p in s.disk ==> !s.disk[p].kind.Other?)
    requires p !in s.stranded && p !in s.refused
    ensures p in s.mirror <==> p in s.disk
    ensures p in s.disk ==> s.mirror[p] == s.disk[p]
  {
    if !AlwaysExact(run) {
      forall k, q | 0 <= k < |run| && q in run[k].pending ensures !FoldsAbove(q, p) {
      }
    }
    NeverStruck(rules, run, |run| - 1, p);
    Convergence(rules, run, s, p);
  }
}
