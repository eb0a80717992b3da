/** How a path comes to be stranded: exactly which steps of the protocol lose track of a change. */
module CoherenceStranded {
  import opened Types
  import opened PathMap
  import opened Cell
  import opened Coherence
  import opened CoherenceProof

  // --- what the snapshot may lack -----------------------------------------------------------

  /** What the snapshot may lack is stranded, and a batch older than the snapshot adds nothing to it. */
  predicate MissedOk(s: State) {
    && s.missed <= s.stranded
    && (s.flusher.Resolving? && !Fresh(s) ==> s.missed == {})
  }

  /** A step that leaves alone what is stranded, and how the flusher and the snapshot stand to each other. */
  predicate Idles(s: State, t: State) {
    && t.stranded == s.stranded && t.missed == s.missed
    && (t.flusher.Resolving? && !Fresh(t) ==> s.flusher.Resolving? && !Fresh(s))
  }

  lemma ChangeDiskIdles(s: State, t: State)
    requires ChangeDisk(s, t)
    ensures Idles(s, t)
  {
  }

  lemma ReportIdles(s: State, t: State, q: Location, event: Event, under: set<Location>)
    requires Report(s, t, q, event, under)
    ensures Idles(s, t)
  {
  }

  lemma OverflowIdles(s: State, t: State, lost: set<Location>)
    requires Overflow(s, t, lost)
    ensures Idles(s, t)
  {
  }

  /** A batch that gets its number now is newer than any snapshot stamped so far. */
  lemma AssignIdles(s: State, t: State)
    requires AssignGeneration(s, t) && (s.fetch.Scanning? || s.fetch.Ready? ==> s.fetch.generation <= s.generation)
    ensures Idles(s, t)
  {
  }

  lemma TakeMissed(s: State, t: State, planned: seq<Planned>, pruned: map<Location, Location>, brought: map<Location, Location>)
    requires MissedOk(s) && Take(s, t, planned, pruned, brought)
    ensures MissedOk(t)
  {
  }

  lemma ExtendedMissed(s: State, cs: seq<Change>, left: set<Location>)
    requires MissedOk(s) && s.flusher.Resolving?
    ensures var t := Extended(s, cs, left); t.missed <= t.stranded && (!Fresh(s) ==> t.missed == {})
  {
  }

  lemma ResolveMissed(rules: Rules, s: State, t: State)
    requires MissedOk(s) && Resolve(rules, s, t)
    ensures MissedOk(t)
  {
    var cs := Resolved(rules, s.disk, s.flusher.planned[0].path);
    ExtendedMissed(s, cs, LeftBehind(s, cs));
  }

  lemma ExpandMissed(rules: Rules, s: State, t: State, q: Location)
    requires MissedOk(s) && Expand(rules, s, t, q)
    ensures MissedOk(t) && t.stranded <= s.stranded
  {
    ExtendedMissed(s, [Upsert(q, s.disk[q])], {});
  }

  lemma MissMissed(rules: Rules, s: State, t: State, q: Location)
    requires MissedOk(s) && Miss(rules, s, t, q)
    ensures MissedOk(t)
  {
    ExtendedMissed(s, [], if Unreported(s, q) then {q} else {});
  }

  lemma GiveUpIdles(s: State, t: State, keep: nat)
    requires GiveUpExpansion(s, t, keep)
    ensures Idles(s, t)
  {
  }

  lemma SendIdles(s: State, t: State, n: nat)
    requires SendChunk(s, t, n)
    ensures Idles(s, t)
  {
  }

  lemma SendingIdles(s: State, t: State)
    requires StartSending(s, t) || FinishSending(s, t)
    ensures Idles(s, t)
  {
  }

  lemma ReceiveIdles(s: State, t: State, hits: seq<Change>)
    requires Receive(s, t, hits)
    ensures Idles(s, t)
  {
  }

  lemma StampMissed(s: State, t: State)
    requires Stamp(s, t)
    ensures MissedOk(t) && t.stranded == s.stranded
  {
  }

  lemma InstallMissed(s: State, t: State)
    requires MissedOk(s) && Install(s, t)
    ensures MissedOk(t) && t.stranded <= s.stranded
  {
  }

  lemma VisitIdles(rules: Rules, s: State, t: State, ps: iset<Location>)
    requires Visit(rules, s, t, ps)
    ensures Idles(s, t)
  {
  }

  lemma StartIdles(s: State, t: State, forRescan: bool)
    requires StartFetch(s, t, forRescan)
    ensures Idles(s, t)
  {
  }

  lemma ModeIdles(s: State, t: State, mode: LookupMode)
    requires SetMode(s, t, mode)
    ensures Idles(s, t)
  {
  }

  lemma ScanIdles(s: State, t: State)
    requires FinishScan(s, t) || RaiseRescan(s, t)
    ensures Idles(s, t)
  {
  }

  lemma EndIdles(s: State, t: State)
    requires FailFetch(s, t) || FinishFetch(s, t)
    ensures Idles(s, t)
  {
  }

  lemma DiskMissed(s: State, t: State)
    requires Base(s) && MissedOk(s) && FromDisk(s, t)
    ensures MissedOk(t)
    ensures t.stranded == s.stranded || exists planned, pruned, brought :: Take(s, t, planned, pruned, brought)
  {
    if planned, pruned, brought :| Take(s, t, planned, pruned, brought) {
      TakeMissed(s, t, planned, pruned, brought);
    } else if ChangeDisk(s, t) {
      ChangeDiskIdles(s, t);
    } else if q, event, under :| Report(s, t, q, event, under) {
      ReportIdles(s, t, q, event, under);
    } else if lost :| Overflow(s, t, lost) {
      OverflowIdles(s, t, lost);
    } else {
      AssignIdles(s, t);
    }
  }

  lemma FlusherMissed(rules: Rules, s: State, t: State)
    requires MissedOk(s) && FromFlusher(rules, s, t)
    ensures MissedOk(t)
    ensures t.stranded <= s.stranded || Resolve(rules, s, t) || exists q :: Miss(rules, s, t, q)
  {
    if Resolve(rules, s, t) {
      ResolveMissed(rules, s, t);
    } else if q :| Miss(rules, s, t, q) {
      MissMissed(rules, s, t, q);
    } else if q :| Expand(rules, s, t, q) {
      ExpandMissed(rules, s, t, q);
    } else if keep :| GiveUpExpansion(s, t, keep) {
      GiveUpIdles(s, t, keep);
    } else if n :| SendChunk(s, t, n) {
      SendIdles(s, t, n);
    } else {
      SendingIdles(s, t);
    }
  }

  lemma ClientMissed(rules: Rules, s: State, t: State)
    requires MissedOk(s) && FromClient(rules, s, t)
    ensures MissedOk(t) && t.stranded <= s.stranded
  {
    if hits :| Receive(s, t, hits) {
      ReceiveIdles(s, t, hits);
    } else if Install(s, t) {
      InstallMissed(s, t);
    } else if Stamp(s, t) {
      StampMissed(s, t);
    } else if ps :| Visit(rules, s, t, ps) {
      VisitIdles(rules, s, t, ps);
    } else if forRescan :| StartFetch(s, t, forRescan) {
      StartIdles(s, t, forRescan);
    } else if mode :| SetMode(s, t, mode) {
      ModeIdles(s, t, mode);
    } else if FinishScan(s, t) || RaiseRescan(s, t) {
      ScanIdles(s, t);
    } else {
      EndIdles(s, t);
    }
  }

  lemma {:induction false} MissedAlways(rules: Rules, run: seq<State>, k: nat)
    requires Downward(rules) && Trace(rules, run) && k < |run|
    ensures MissedOk(run[k])
  {
    if k > 0 {
      MissedAlways(rules, run, k - 1);
      Reachable(rules, run, k - 1);
      var s, t := run[k - 1], run[k - 1 + 1];
      assert Next(rules, s, t);
      if FromDisk(s, t) {
        DiskMissed(s, t);
      } else if FromFlusher(rules, s, t) {
        FlusherMissed(rules, s, t);
      } else {
        ClientMissed(rules, s, t);
      }
    }
  }

  // --- how a path is stranded ---------------------------------------------------------------

  /** Carried along with a directory, with nothing removed or enumerated above it in this batch. */
  lemma TakeStrands(s: State, t: State, planned: seq<Planned>, pruned: map<Location, Location>,
                    brought: map<Location, Location>, p: Location)
    requires Take(s, t, planned, pruned, brought) && p in t.stranded && p !in s.stranded
    ensures s.flusher.Idle? && t.flusher.Taken? && p in s.carried && p !in s.owed
    ensures forall k, e :: 0 <= k < |p| && Planned(p[..k], e) in t.flusher.planned ==> e.Touched?
  {
    assert !CoveredAbove(planned, p);
    forall k, e | 0 <= k < |p| && Planned(p[..k], e) in planned ensures e.Touched? {
      assert !IsPlannedAs(planned, p[..k], Vanished) && !IsPlannedAs(planned, p[..k], Appeared);
    }
  }

  lemma RemovalDecides(rules: Rules, d: Mirror, q: Location, p: Location)
    requires q < p && q != [] && !Skipped(rules, q)
    ensures q !in d ==> Decides(Resolved(rules, d, q), p)
    ensures q in d && !d[q].kind.Directory? && !d[q].kind.Other? ==> Decides(Resolved(rules, d, q), p)
  {
    var cs := Resolved(rules, d, q);
    assert |cs| == 1 ==> (Decides(cs, p) <==> ActionOf(cs[0], p).Set?);
  }

  /** What a stat leaves behind is below something that is there, and no file whose upsert would clear it away. */
  lemma LeftBelow(rules: Rules, s: State, p: Location)
    requires Downward(rules) && Base(s) && s.flusher.Resolving? && s.flusher.planned != [] && Clean(rules, p)
    requires p in LeftBehind(s, Resolved(rules, s.disk, s.flusher.planned[0].path))
    ensures var q := s.flusher.planned[0].path;
            q < p && q in s.disk && (s.disk[q].kind.Directory? || s.disk[q].kind.Other?)
    ensures !s.flusher.planned[0].event.Touched? && p !in s.owed && p !in s.pending
  {
    var f, q := s.flusher, s.flusher.planned[0].path;
    assert (p in f.pruned && f.pruned[p] == q) || (p in f.brought && f.brought[p] == q);
    assert q < p;
    if q != [] {
      assert !Skipped(rules, q);
      RemovalDecides(rules, s.disk, q, p);
    }
  }

  /**
   * In every run, a path is stranded only while no event of its own is outstanding, and only in one of
   * three ways: it was carried along with a directory and the batch neither removes nor enumerates one
   * above it; it waited for a directory above it, taken for gone or for new, that is there or special; or
   * an enumeration should have come across it and it was not there to be found.
   */
  lemma StrandedStep(rules: Rules, run: seq<State>, k: nat, s: State, t: State, p: Location)
    requires Downward(rules) && Trace(rules, run) && k + 1 < |run| && s == run[k] && t == run[k + 1]
    requires p in t.stranded && p !in s.stranded && p != [] && !rules(p, false) && !rules(p, true)
    ensures p !in s.owed
    ensures || (&& s.flusher.Idle? && t.flusher.Taken? && p in s.carried
                && forall i, e :: 0 <= i < |p| && Planned(p[..i], e) in t.flusher.planned ==> e.Touched?)
            || (&& s.flusher.Resolving? && s.flusher.planned != [] && p !in s.pending
                && var q := s.flusher.planned[0].path;
                   && q < p && q in s.disk && (s.disk[q].kind.Directory? || s.disk[q].kind.Other?)
                   && !s.flusher.planned[0].event.Touched?)
            || (&& s.flusher.Resolving? && s.flusher.planned == [] && p !in s.pending && p in s.flusher.brought
                && (p !in s.disk || s.disk[p].kind.Other?))
  {
    Reachable(rules, run, k);
    MissedAlways(rules, run, k);
    assert Next(rules, s, t);
    if FromDisk(s, t) {
      DiskMissed(s, t);
      var planned, pruned, brought :| Take(s, t, planned, pruned, brought);
      TakeStrands(s, t, planned, pruned, brought, p);
    } else if FromFlusher(rules, s, t) {
      FlusherMissed(rules, s, t);
      if Resolve(rules, s, t) {
        LeftBelow(rules, s, p);
      } else {
        var q :| Miss(rules, s, t, q);
        MissStrands(rules, s, t, q, p);
      }
    } else {
      ClientMissed(rules, s, t);
    }
  }

  lemma MissStrands(rules: Rules, s: State, t: State, q: Location, p: Location)
    requires Miss(rules, s, t, q) && p in t.stranded && p !in s.stranded && !Skipped(rules, p)
    ensures p == q && s.flusher.planned == [] && p in s.flusher.brought && p !in s.owed && p !in s.pending
    ensures p !in s.disk || s.disk[p].kind.Other?
  {
  }
}
