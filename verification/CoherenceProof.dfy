/** Every step of the coherence protocol keeps the invariant, hence convergence. */
module CoherenceProof {
  import opened Types
  import opened PathMap
  import opened Cell
  import opened Coherence

  /** A step that leaves the client's cell at `p` alone and keeps everything known about it. */
  ghost predicate Kept(s: State, t: State, p: Location) {
    && t.mirror == s.mirror && t.refused == s.refused && t.struck == s.struck
    && t.stranded == s.stranded && t.missed == s.missed
    && (forall v {:trigger Heads(t, p, v)} :: Heads(s, p, v) ==> Heads(t, p, v))
    && (SnapshotAgrees(s, p) ==> SnapshotAgrees(t, p))
    && (TailAgrees(s, p) ==> TailAgrees(t, p))
  }

  lemma KeptAgrees(s: State, t: State, p: Location)
    requires Kept(s, t, p) && Agrees(s, p)
    ensures Agrees(t, p)
  {
    var v :| Standing(s, p, v) && (p in s.stranded || Heads(s, p, v));
    assert Standing(t, p, v);
    assert Heads(s, p, v) ==> Heads(t, p, v);
  }

  // --- lists of changes -------------------------------------------------------------

  lemma {:induction false} AllConcat(a: seq<Chunk>, b: seq<Chunk>)
    ensures All(a + b) == All(a) + All(b)
  {
    if b == [] {
      assert a + b == a;
    } else {
      assert (a + b)[..|a + b| - 1] == a + b[..|b| - 1];
      AllConcat(a, b[..|b| - 1]);
    }
  }

  lemma {:induction false} AfterConcat(a: seq<Chunk>, b: seq<Chunk>, g: nat)
    ensures After(a + b, g) == After(a, g) + After(b, g)
  {
    if b == [] {
      assert a + b == a;
    } else {
      assert (a + b)[..|a + b| - 1] == a + b[..|b| - 1];
      AfterConcat(a, b[..|b| - 1], g);
    }
  }

  lemma Regroup(a: seq<Change>, b: seq<Change>, c: seq<Change>)
    ensures (a + b) + c == a + (b + c)
  {
  }

  lemma {:induction false} One(c: Chunk, g: nat)
    ensures All([c]) == c.changes && After([c], g) == if c.generation > g then c.changes else []
  {
    assert [c][..0] == [];
  }

  lemma {:induction false} FirstChunk(cs: seq<Chunk>, g: nat)
    requires cs != []
    ensures All(cs) == cs[0].changes + All(cs[1..])
    ensures After(cs, g) == (if cs[0].generation > g then cs[0].changes else []) + After(cs[1..], g)
  {
    assert cs == [cs[0]] + cs[1..];
    AllConcat([cs[0]], cs[1..]);
    AfterConcat([cs[0]], cs[1..], g);
    One(cs[0], g);
  }

  lemma {:induction false} NoneAfter(cs: seq<Chunk>, g: nat)
    requires forall k :: 0 <= k < |cs| ==> cs[k].generation <= g
    ensures After(cs, g) == []
  {
    if cs != [] {
      NoneAfter(cs[..|cs| - 1], g);
    }
  }

  lemma {:induction false} AllAfter(cs: seq<Chunk>, g: nat)
    requires forall k :: 0 <= k < |cs| ==> cs[k].generation > g
    ensures After(cs, g) == All(cs)
  {
    if cs != [] {
      AllAfter(cs[..|cs| - 1], g);
    }
  }

  /** In order of generation the older changes come first. */
  lemma {:induction false} OldThenNew(cs: seq<Chunk>, g: nat)
    requires forall j, k :: 0 <= j < k < |cs| ==> cs[j].generation <= cs[k].generation
    ensures All(cs) == Before(cs, g) + After(cs, g)
    ensures (forall k :: 0 <= k < |cs| ==> cs[k].generation > g) ==> Before(cs, g) == []
  {
    if cs != [] {
      var n := |cs| - 1;
      OldThenNew(cs[..n], g);
      assert forall k :: 0 <= k < n ==> cs[..n][k] == cs[k];
      if cs[n].generation <= g {
        NoneAfter(cs[..n], g);
      } else {
        Regroup(Before(cs[..n], g), After(cs[..n], g), cs[n].changes);
      }
    }
  }

  lemma {:induction false} TailConcat(a: seq<Change>, b: seq<Change>, p: Location)
    ensures Rescan in b ==> TailAction(a + b, p) == TailAction(b, p)
    ensures Rescan !in b ==> TailAction(a + b, p) == Then(TailAction(a, p), ActionOfAll(b, p))
  {
    if b == [] {
      assert a + b == a;
    } else {
      var n := |b| - 1;
      assert (a + b)[..|a + b| - 1] == a + b[..n];
      assert b == b[..n] + [b[n]];
      TailConcat(a, b[..n], p);
    }
  }

  lemma {:induction false} TailIsAll(cs: seq<Change>, p: Location)
    requires Rescan !in cs
    ensures TailAction(cs, p) == ActionOfAll(cs, p)
  {
    TailConcat([], cs, p);
    assert [] + cs == cs;
    assert forall x :: Then(Keep, x) == x || x.Fill?;
  }

  /** Dropping what has been applied keeps the rest truthful. */
  lemma {:induction false} TruthfulRest(d: Mirror, p: Location, a: seq<Change>, b: seq<Change>)
    requires Truthful(d, p, TailAction(a + b, p))
    ensures Truthful(d, p, TailAction(b, p))
  {
    TailConcat(a, b, p);
    if Rescan !in b {
      TailIsAll(b, p);
    }
  }

  // --- resolving -------------------------------------------------------------------

  /** A change that says of `p` nothing but what the disk says now. */
  ghost predicate Sound(d: Mirror, p: Location, a: Action) {
    match a
    case Keep => true
    case Fill => IsDirectory(d, p)
    case Set(v) => Matches(d, p, v)
  }

  /** Upserting what the disk holds tells the truth about every path. */
  lemma FoundSound(d: Mirror, q: Location, p: Location)
    requires DiskOk(d) && q in d && p != []
    ensures Sound(d, p, ActionOf(Upsert(q, d[q]), p))
  {
    if p < q {
      PrefixHeld(d, q, |p|);
      assert q[..|p|] == p;
    } else if q < p && p in d {
      PrefixHeld(d, p, |q|);
      assert p[..|q|] == q;
    }
  }

  /** A stat tells the truth about every path. */
  lemma ResolvedSound(rules: Rules, d: Mirror, q: Location, p: Location)
    requires DiskOk(d) && p != []
    ensures |Resolved(rules, d, q)| <= 1
    ensures forall c :: c in Resolved(rules, d, q) ==> !c.Rescan? && Sound(d, p, ActionOf(c, p))
  {
    if q in d {
      FoundSound(d, q, p);
    } else if q <= p {
      AbsentBelow(d, q, p);
    }
  }

  /** `cs` settles `p`, or nothing can: special files are never mirrored. */
  ghost predicate Decisive(d: Mirror, p: Location, cs: seq<Change>) {
    || (p in d && d[p].kind.Other?)
    || (|cs| == 1 && ActionOf(cs[0], p).Set? && Matches(d, p, ActionOf(cs[0], p).value))
  }

  lemma {:induction false} SnocAction(cs: seq<Change>, more: seq<Change>, p: Location)
    requires |more| <= 1
    ensures more == [] ==> cs + more == cs
    ensures |more| == 1 ==> ActionOfAll(cs + more, p) == Then(ActionOfAll(cs, p), ActionOf(more[0], p))
    ensures |more| == 1 && !more[0].Rescan? ==> TailAction(cs + more, p) == Then(TailAction(cs, p), ActionOf(more[0], p))
  {
    if |more| == 1 {
      assert more == [more[0]];
      assert (cs + more)[..|cs|] == cs && (cs + more)[|cs|] == more[0];
    }
  }

  lemma {:induction false} SoundMore(d: Mirror, p: Location, cs: seq<Change>, more: seq<Change>, v: Option<Attributes>)
    requires |more| <= 1 && forall c :: c in more ==> !c.Rescan? && Sound(d, p, ActionOf(c, p))
    ensures Matches(d, p, Run(ActionOfAll(cs, p), v)) ==> Matches(d, p, Run(ActionOfAll(cs + more, p), v))
    ensures Truthful(d, p, TailAction(cs, p)) ==> Truthful(d, p, TailAction(cs + more, p))
    ensures Rescan in cs + more <==> Rescan in cs
  {
    SnocAction(cs, more, p);
    if |more| == 1 {
      assert more[0] in more;
      RunThen(ActionOfAll(cs, p), ActionOf(more[0], p), v);
    }
  }

  lemma {:induction false} DecisiveMore(d: Mirror, p: Location, cs: seq<Change>, more: seq<Change>, v: Option<Attributes>)
    requires |more| <= 1 && (forall c :: c in more ==> !c.Rescan?) && Decisive(d, p, more)
    ensures Matches(d, p, Run(ActionOfAll(cs + more, p), v))
    ensures Truthful(d, p, TailAction(cs + more, p))
  {
    SnocAction(cs, more, p);
    if |more| == 1 {
      assert more[0] in more;
    }
  }

  /** More changes at the end of what is unsent. */
  lemma AheadMore(s: State, t: State, more: seq<Change>)
    requires t.channel == s.channel && t.generation == s.generation
    requires Unsent(t.flusher) == Unsent(s.flusher) + more
    ensures Ahead(t) == Ahead(s) + more
    ensures forall g: nat, r: seq<Chunk> :: Newer(t, g, r) == if s.generation > g then Newer(s, g, r) + more else Newer(s, g, r)
  {
    assert All(s.channel) + (Unsent(s.flusher) + more) == (All(s.channel) + Unsent(s.flusher)) + more;
    forall g: nat, r: seq<Chunk>
      ensures Newer(t, g, r) == if s.generation > g then Newer(s, g, r) + more else Newer(s, g, r)
    {
      assert After(r, g) + After(s.channel, g) + (Unsent(s.flusher) + more)
          == (After(r, g) + After(s.channel, g) + Unsent(s.flusher)) + more;
    }
  }

  /** The flusher appended `more`, which is true of `p`, and decides it if `p` was waiting for it. */
  ghost predicate Appended(s: State, t: State, p: Location, more: seq<Change>) {
    && s.flusher.Resolving? && t.flusher.Resolving?
    && t == s.(flusher := t.flusher, stranded := t.stranded, missed := t.missed)
    && Ahead(t) == Ahead(s) + more
    && |more| <= 1 && (forall c :: c in more ==> !c.Rescan? && Sound(s.disk, p, ActionOf(c, p)))
    && (Awaited(t.flusher, p) ==> Awaited(s.flusher, p))
  }

  /** `p` is decided by `more`, or was not stranded before and waits on. */
  ghost predicate Accounted(s: State, t: State, p: Location, more: seq<Change>, out: set<Location>) {
    || (Decisive(s.disk, p, more) && Decides(more, p))
    || (p !in out && (Decisive(s.disk, p, more) || (Dirty(s, p) ==> Dirty(t, p))))
  }

  lemma AppendHeads(s: State, t: State, p: Location, more: seq<Change>, v: Option<Attributes>)
    requires Appended(s, t, p, more)
    requires Decisive(s.disk, p, more) || ((Dirty(s, p) ==> Dirty(t, p)) && Heads(s, p, v))
    ensures Heads(t, p, v)
  {
    SoundMore(s.disk, p, Ahead(s), more, v);
    if Decisive(s.disk, p, more) {
      DecisiveMore(s.disk, p, Ahead(s), more, v);
    }
  }

  lemma AppendTail(s: State, t: State, p: Location, more: seq<Change>)
    requires Appended(s, t, p, more)
    requires Decisive(s.disk, p, more) || ((Dirty(s, p) ==> Dirty(t, p)) && TailAgrees(s, p))
    ensures TailAgrees(t, p)
  {
    SoundMore(s.disk, p, Ahead(s), more, None);
    if Decisive(s.disk, p, more) {
      DecisiveMore(s.disk, p, Ahead(s), more, None);
    }
  }

  /** In a batch newer than the snapshot. */
  lemma AppendNewer(s: State, t: State, p: Location, more: seq<Change>)
    requires Appended(s, t, p, more) && (s.fetch.Scanning? || s.fetch.Ready?) && s.generation > s.fetch.generation
    requires var g, r := s.fetch.generation, s.fetch.recorded; Newer(t, g, r) == Newer(s, g, r) + more
    requires Decisive(s.disk, p, more) || ((Dirty(s, p) ==> Dirty(t, p)) && SnapshotAgrees(s, p))
    ensures SnapshotAgrees(t, p)
  {
    var newer := Newer(s, s.fetch.generation, s.fetch.recorded);
    SoundMore(s.disk, p, Ahead(s), more, None);
    SoundMore(s.disk, p, newer, more, SnapshotAt(s, p));
    if Decisive(s.disk, p, more) {
      DecisiveMore(s.disk, p, newer, more, SnapshotAt(s, p));
    }
    assert SnapshotAt(t, p) == SnapshotAt(s, p);
  }

  /** In a batch the snapshot was stamped after. */
  lemma AppendOlder(s: State, t: State, p: Location, more: seq<Change>)
    requires Appended(s, t, p, more) && (s.fetch.Scanning? || s.fetch.Ready?) && s.generation <= s.fetch.generation
    requires var g, r := s.fetch.generation, s.fetch.recorded; Newer(t, g, r) == Newer(s, g, r)
    requires SnapshotAgrees(s, p)
    ensures SnapshotAgrees(t, p)
  {
    SoundMore(s.disk, p, Ahead(s), more, None);
    assert SnapshotAt(t, p) == SnapshotAt(s, p);
  }

  lemma AppendSnapshot(s: State, t: State, p: Location, more: seq<Change>)
    requires Appended(s, t, p, more) && (p in s.missed || SnapshotAgrees(s, p))
    requires forall g: nat, r: seq<Chunk> ::
               Newer(t, g, r) == if s.generation > g then Newer(s, g, r) + more else Newer(s, g, r)
    requires if Fresh(s) then Accounted(s, t, p, more, s.missed) else t.missed == s.missed
    ensures p in t.missed || SnapshotAgrees(t, p)
  {
    if s.fetch.Scanning? || s.fetch.Ready? {
      if s.generation > s.fetch.generation {
        AppendNewer(s, t, p, more);
      } else if p !in s.missed {
        AppendOlder(s, t, p, more);
      }
    }
  }

  lemma AppendMirror(s: State, t: State, p: Location, more: seq<Change>)
    requires Appended(s, t, p, more) && MirrorAgrees(s, p) && (p in s.stranded || TailAgrees(s, p))
    requires p in t.stranded || Accounted(s, t, p, more, s.stranded)
    ensures MirrorAgrees(t, p) && (p in t.stranded || TailAgrees(t, p))
  {
    var v :| Standing(s, p, v) && (p in s.stranded || Heads(s, p, v));
    assert Standing(t, p, v);
    if p !in t.stranded {
      AppendHeads(s, t, p, more, v);
      AppendTail(s, t, p, more);
    }
  }

  /** A change that decides a path and is true of it is decisive there. */
  lemma DecidesDecisive(d: Mirror, p: Location, more: seq<Change>)
    requires |more| <= 1 && (forall c :: c in more ==> Sound(d, p, ActionOf(c, p))) && Decides(more, p)
    ensures Decisive(d, p, more)
  {
    assert more[0] in more;
  }

  lemma ResolveAppended(rules: Rules, s: State, t: State, p: Location)
    requires DiskOk(s.disk) && p != [] && Resolve(rules, s, t)
    ensures var more := Resolved(rules, s.disk, s.flusher.planned[0].path);
            && Appended(s, t, p, more)
            && forall g: nat, r: seq<Chunk> ::
                 Newer(t, g, r) == if s.generation > g then Newer(s, g, r) + more else Newer(s, g, r)
  {
    var more := Resolved(rules, s.disk, s.flusher.planned[0].path);
    ResolvedSound(rules, s.disk, s.flusher.planned[0].path, p);
    AheadMore(s, t, more);
    StillAwaited(rules, s, t, p);
  }

  lemma ResolveAccounts(rules: Rules, s: State, t: State, p: Location, out: set<Location>)
    requires DiskOk(s.disk) && Resolve(rules, s, t) && Clean(rules, p)
    requires var more := Resolved(rules, s.disk, s.flusher.planned[0].path);
             Appended(s, t, p, more) && p !in Undecided(out, more) + LeftBehind(s, more)
    ensures Accounted(s, t, p, Resolved(rules, s.disk, s.flusher.planned[0].path), out)
  {
    var more := Resolved(rules, s.disk, s.flusher.planned[0].path);
    if Decides(more, p) {
      DecidesDecisive(s.disk, p, more);
    } else if Awaited(s.flusher, p) && !Awaited(t.flusher, p) && Unreported(s, p) {
      SettledNow(rules, s, t, p);
    }
  }

  lemma ResolveAgrees(rules: Rules, s: State, t: State, p: Location)
    requires DiskOk(s.disk) && Resolve(rules, s, t) && Clean(rules, p) && Agrees(s, p)
    ensures Agrees(t, p)
  {
    var more := Resolved(rules, s.disk, s.flusher.planned[0].path);
    ResolveAppended(rules, s, t, p);
    if p !in t.stranded {
      ResolveAccounts(rules, s, t, p, s.stranded);
    }
    AppendMirror(s, t, p, more);
    if Fresh(s) && p !in t.missed {
      ResolveAccounts(rules, s, t, p, s.missed);
    }
    if p !in t.missed {
      AppendSnapshot(s, t, p, more);
    }
  }

  lemma StillAwaited(rules: Rules, s: State, t: State, p: Location)
    requires Resolve(rules, s, t)
    ensures Awaited(t.flusher, p) ==> Awaited(s.flusher, p)
    ensures IsPlanned(s.flusher.planned, p) && s.flusher.planned[0].path != p ==> Awaited(t.flusher, p)
  {
    var planned := s.flusher.planned;
    if IsPlanned(planned, p) {
      var k :| 0 <= k < |planned| && planned[k].path == p;
      assert k > 0 ==> planned[1..][k - 1].path == p;
    }
    if IsPlanned(planned[1..], p) {
      var k :| 0 <= k < |planned[1..]| && planned[1..][k].path == p;
      assert planned[k + 1].path == p;
    }
  }

  /** Whoever stops being awaited, and is not left behind, has just been decided. */
  lemma SettledNow(rules: Rules, s: State, t: State, p: Location)
    requires DiskOk(s.disk) && Resolve(rules, s, t) && Clean(rules, p)
    requires Awaited(s.flusher, p) && !Awaited(t.flusher, p) && Unreported(s, p)
    requires p !in LeftBehind(s, Resolved(rules, s.disk, s.flusher.planned[0].path))
    ensures Decisive(s.disk, p, Resolved(rules, s.disk, s.flusher.planned[0].path))
  {
    var f, q := s.flusher, s.flusher.planned[0].path;
    var more := Resolved(rules, s.disk, q);
    StillAwaited(rules, s, t, p);
    if q != p {
      assert p in Under(f) + Along(f, s.disk);
      ResolvedSound(rules, s.disk, q, p);
      DecidesDecisive(s.disk, p, more);
    }
  }

  // --- the disk, the watcher and the coalescer ---------------------------------------

  lemma ChangeDiskBase(s: State, t: State)
    requires Base(s) && ChangeDisk(s, t)
    ensures Base(t)
  {
  }

  lemma ChangeDiskAgrees(s: State, t: State, p: Location)
    requires ChangeDisk(s, t)
    ensures Kept(s, t, p)
  {
    if p !in Changed(s.disk, t.disk) {
      assert At(s.disk, p) == At(t.disk, p) by {
        assert p in s.disk.Keys + t.disk.Keys || (p !in s.disk && p !in t.disk);
      }
    }
  }

  lemma QueueBase(s: State, t: State)
    requires Base(s)
    requires (exists p, event, under :: Report(s, t, p, event, under)) || (exists lost :: Overflow(s, t, lost))
    ensures Base(t)
  {
  }

  lemma TakeBase(s: State, t: State, planned: seq<Planned>, pruned: map<Location, Location>, brought: map<Location, Location>)
    requires Base(s) && Take(s, t, planned, pruned, brought)
    ensures Base(t)
  {
  }

  lemma AssignGenerationBase(s: State, t: State)
    requires Base(s) && AssignGeneration(s, t)
    ensures Base(t)
  {
  }

  lemma ReportAgrees(s: State, t: State, q: Location, event: Event, under: set<Location>, p: Location)
    requires Report(s, t, q, event, under)
    ensures Kept(s, t, p)
  {
  }

  lemma OverflowAgrees(s: State, t: State, lost: set<Location>, p: Location)
    requires Overflow(s, t, lost)
    ensures Kept(s, t, p)
  {
  }

  lemma TakeAgrees(s: State, t: State, planned: seq<Planned>, pruned: map<Location, Location>,
                   brought: map<Location, Location>, p: Location)
    requires Take(s, t, planned, pruned, brought) && Agrees(s, p)
    ensures Agrees(t, p)
  {
    var v :| Standing(s, p, v) && (p in s.stranded || Heads(s, p, v));
    assert Standing(t, p, v);
    if p !in t.stranded || p !in t.missed {
      assert Dirty(s, p) && !s.overflow ==> Dirty(t, p);
    }
  }

  lemma AssignGenerationAgrees(s: State, t: State, p: Location)
    requires AssignGeneration(s, t) && (s.fetch.Scanning? || s.fetch.Ready? ==> s.fetch.generation <= s.generation)
    ensures Kept(s, t, p)
  {
    if s.flusher.rescan {
      assert Ahead(t)[|Ahead(t)| - 1].Rescan?;
    } else {
      PlainBatchAgrees(s, t, p);
    }
  }

  lemma PlainBatchAgrees(s: State, t: State, p: Location)
    requires AssignGeneration(s, t) && !s.flusher.rescan
    requires s.fetch.Scanning? || s.fetch.Ready? ==> s.fetch.generation <= s.generation
    ensures Kept(s, t, p)
  {
    assert Ahead(t) == Ahead(s);
    assert Dirty(t, p) == Dirty(s, p) && RescanDue(t) == RescanDue(s);
    if s.fetch.Scanning? || s.fetch.Ready? {
      assert Newer(t, s.fetch.generation, s.fetch.recorded) == Newer(s, s.fetch.generation, s.fetch.recorded);
      assert SnapshotAt(t, p) == SnapshotAt(s, p);
    }
  }

  // --- the flusher -------------------------------------------------------------------

  lemma ResolveBase(rules: Rules, s: State, t: State)
    requires Base(s) && Resolve(rules, s, t)
    ensures Base(t)
  {
    var f := s.flusher;
    forall x | x in t.flusher.pruned
      ensures t.flusher.pruned[x] < x && IsPlannedAs(t.flusher.planned, t.flusher.pruned[x], Vanished)
    {
      assert f.pruned[x] < x;
      var k :| 0 <= k < |f.planned| && f.planned[k] == Planned(f.pruned[x], Vanished);
      assert k > 0;
      assert f.planned[1..][k - 1] == f.planned[k];
    }
    assert forall x :: x in t.flusher.brought ==> t.flusher.brought[x] == f.brought[x];
  }

  lemma ExpandBase(rules: Rules, s: State, t: State, q: Location)
    requires Base(s) && (Expand(rules, s, t, q) || Miss(rules, s, t, q))
    ensures Base(t)
  {
    assert forall x :: x in t.flusher.brought ==> t.flusher.brought[x] == s.flusher.brought[x];
  }

  lemma ExpandAgrees(rules: Rules, s: State, t: State, q: Location, p: Location)
    requires DiskOk(s.disk) && Expand(rules, s, t, q) && p != [] && Agrees(s, p)
    ensures Agrees(t, p)
  {
    var more := [Upsert(q, s.disk[q])];
    AheadMore(s, t, more);
    FoundSound(s.disk, q, p);
    if Decides(more, p) {
      DecidesDecisive(s.disk, p, more);
    } else {
      assert !ActionOf(more[0], p).Set?;
      assert p != q;
    }
    AppendMirror(s, t, p, more);
    if p !in t.missed {
      AppendSnapshot(s, t, p, more);
    }
  }

  lemma MissAgrees(rules: Rules, s: State, t: State, q: Location, p: Location)
    requires Miss(rules, s, t, q) && Agrees(s, p)
    ensures Agrees(t, p)
  {
    AheadMore(s, t, []);
    assert !Decides([], p);
    AppendMirror(s, t, p, []);
    if p !in t.missed {
      AppendSnapshot(s, t, p, []);
    }
  }

  lemma GiveUpAgrees(s: State, t: State, keep: nat, p: Location)
    requires GiveUpExpansion(s, t, keep)
    ensures Kept(s, t, p)
  {
    assert Ahead(t)[|Ahead(t)| - 1].Rescan?;
  }

  lemma GiveUpBase(s: State, t: State, keep: nat)
    requires Base(s) && GiveUpExpansion(s, t, keep)
    ensures Base(t)
  {
  }

  lemma SendingBase(s: State, t: State)
    requires Base(s) && (StartSending(s, t) || FinishSending(s, t))
    ensures Base(t)
  {
  }

  lemma SendingAgrees(s: State, t: State, p: Location)
    requires s.flusher.Resolving? ==> PrunedOk(s.flusher.planned, s.flusher.pruned)
    requires StartSending(s, t) || FinishSending(s, t)
    ensures Kept(s, t, p)
  {
    assert StartSending(s, t) ==> s.flusher.pruned == map[];
  }

  lemma SendChunkBase(s: State, t: State, n: nat)
    requires Base(s) && SendChunk(s, t, n)
    ensures Base(t)
  {
    var c := Chunk(s.generation, s.flusher.changes[..n]);
    assert RecordedOf(t.fetch) + t.channel == (RecordedOf(s.fetch) + s.channel) + [c];
  }

  /** A frame put on the channel leaves what is ahead, and what is newer, as it was. */
  lemma {:induction false} Queued(channel: seq<Chunk>, g: nat, top: nat, changes: seq<Change>, n: nat, before: seq<Change>)
    requires n <= |changes|
    ensures var c := Chunk(top, changes[..n]);
            && All(channel + [c]) + changes[n..] == All(channel) + changes
            && before + After(channel + [c], g) + (if top > g then changes[n..] else [])
               == before + After(channel, g) + (if top > g then changes else [])
  {
    var c := Chunk(top, changes[..n]);
    AllConcat(channel, [c]);
    AfterConcat(channel, [c], g);
    One(c, g);
    assert changes[..n] + changes[n..] == changes;
    Regroup(All(channel), changes[..n], changes[n..]);
    if top > g {
      Regroup(before, After(channel, g), changes[..n]);
      Regroup(before + After(channel, g), changes[..n], changes[n..]);
    }
  }

  lemma SendChunkAgrees(s: State, t: State, n: nat, p: Location)
    requires SendChunk(s, t, n)
    ensures Kept(s, t, p)
  {
    Queued(s.channel, 0, s.generation, s.flusher.changes, n, []);
    assert Ahead(t) == Ahead(s);
    if s.fetch.Scanning? || s.fetch.Ready? {
      var g, r := s.fetch.generation, s.fetch.recorded;
      Queued(s.channel, g, s.generation, s.flusher.changes, n, After(r, g));
      assert Newer(t, g, r) == Newer(s, g, r);
    }
  }

  // --- the client --------------------------------------------------------------------

  lemma OrderedMove(r: seq<Chunk>, channel: seq<Chunk>, top: nat)
    requires channel != [] && Ordered(r + channel, top)
    ensures Ordered((r + [channel[0]]) + channel[1..], top) && Ordered(r + channel[1..], top)
  {
    var all, rest := r + channel, r + channel[1..];
    assert (r + [channel[0]]) + channel[1..] == all;
    forall k | 0 <= k < |rest| ensures rest[k] == all[if k < |r| then k else k + 1] {
    }
  }

  lemma ReceiveBase(s: State, t: State, hits: seq<Change>)
    requires Base(s) && Receive(s, t, hits)
    ensures Base(t)
  {
    OrderedMove(RecordedOf(s.fetch), s.channel, s.generation);
    ChangesTree(s.mirror, hits);
  }

  lemma {:induction false} ReceiveHeads(s: State, t: State, hits: seq<Change>, p: Location, v: Option<Attributes>)
    requires Receive(s, t, hits) && Heads(s, p, v)
    ensures Heads(t, p, Run(ActionOfAll(s.channel[0].changes, p), v))
  {
    var c := s.channel[0];
    AheadSplit(s.channel, Unsent(s.flusher));
    ActionConcat(c.changes, Ahead(t), p);
    RunThen(ActionOfAll(c.changes, p), ActionOfAll(Ahead(t), p), v);
  }

  lemma ReceiveMirror(s: State, t: State, hits: seq<Change>, p: Location)
    requires TreeClosed(s.mirror) && Receive(s, t, hits) && p != [] && MirrorAgrees(s, p)
    ensures MirrorAgrees(t, p)
  {
    var c := s.channel[0];
    var v :| Standing(s, p, v) && (p in s.stranded || Heads(s, p, v));
    CellChanges(s.mode, s.mirror, s.refused, s.struck, c.changes, hits, p, v);
    assert Standing(t, p, Run(ActionOfAll(c.changes, p), v));
    if p !in s.stranded {
      ReceiveHeads(s, t, hits, p, v);
    }
  }

  lemma {:induction false} AheadSplit(channel: seq<Chunk>, unsent: seq<Change>)
    requires channel != []
    ensures All(channel) + unsent == channel[0].changes + (All(channel[1..]) + unsent)
  {
    FirstChunk(channel, 0);
  }

  /** What is recorded on arrival moves from the channel to the record. */
  lemma {:induction false} NewerMove(r: seq<Chunk>, channel: seq<Chunk>, g: nat, rest: seq<Change>)
    requires channel != []
    ensures After(r + [channel[0]], g) + After(channel[1..], g) + rest == After(r, g) + After(channel, g) + rest
  {
    AfterConcat(r, [channel[0]], g);
    One(channel[0], g);
    FirstChunk(channel, g);
    Regroup(After(r, g), if channel[0].generation > g then channel[0].changes else [], After(channel[1..], g));
  }

  lemma ReceiveNewer(s: State, t: State, hits: seq<Change>)
    requires Receive(s, t, hits) && (s.fetch.Scanning? || s.fetch.Ready?) && !t.fetch.lost
    ensures Newer(t, s.fetch.generation, t.fetch.recorded) == Newer(s, s.fetch.generation, s.fetch.recorded)
  {
    var g := s.fetch.generation;
    NewerMove(s.fetch.recorded, s.channel, g, if s.generation > g then Unsent(s.flusher) else []);
  }

  lemma ReceiveDue(s: State, t: State, hits: seq<Change>)
    requires Receive(s, t, hits)
    ensures RescanDue(s) ==> RescanDue(t)
  {
    AheadSplit(s.channel, Unsent(s.flusher));
  }

  lemma ReceiveSnapshot(s: State, t: State, hits: seq<Change>, p: Location)
    requires Receive(s, t, hits) && SnapshotAgrees(s, p)
    ensures SnapshotAgrees(t, p)
  {
    ReceiveDue(s, t, hits);
    if (s.fetch.Scanning? || s.fetch.Ready?) && !t.fetch.lost {
      ReceiveNewer(s, t, hits);
      assert SnapshotAt(t, p) == SnapshotAt(s, p);
    }
  }

  lemma ReceiveTail(s: State, t: State, hits: seq<Change>, p: Location)
    requires Receive(s, t, hits) && TailAgrees(s, p)
    ensures TailAgrees(t, p)
  {
    AheadSplit(s.channel, Unsent(s.flusher));
    if Truthful(s.disk, p, TailAction(Ahead(s), p)) {
      TruthfulRest(s.disk, p, s.channel[0].changes, Ahead(t));
    }
  }

  lemma ReceiveAgrees(s: State, t: State, hits: seq<Change>, p: Location)
    requires TreeClosed(s.mirror) && Receive(s, t, hits) && p != [] && Agrees(s, p)
    ensures Agrees(t, p)
  {
    ReceiveMirror(s, t, hits, p);
    if p !in s.missed {
      ReceiveSnapshot(s, t, hits, p);
    }
    if p !in s.stranded {
      ReceiveTail(s, t, hits, p);
    }
  }

  lemma OrderedChannel(r: seq<Chunk>, channel: seq<Chunk>, top: nat)
    requires Ordered(r + channel, top)
    ensures Ordered([] + channel, top)
  {
    assert [] + channel == channel;
    assert forall k :: 0 <= k < |channel| ==> channel[k] == (r + channel)[|r| + k];
  }

  lemma SetModeBase(s: State, t: State, mode: LookupMode)
    requires Base(s) && SetMode(s, t, mode)
    ensures Base(t)
  {
  }

  lemma RequestBase(s: State, t: State)
    requires Base(s)
    requires RaiseRescan(s, t) || FailFetch(s, t) || FinishFetch(s, t) || exists forRescan :: StartFetch(s, t, forRescan)
    ensures Base(t)
  {
    OrderedChannel(RecordedOf(s.fetch), s.channel, s.generation);
  }

  lemma StartFetchAgrees(s: State, t: State, forRescan: bool, p: Location)
    requires StartFetch(s, t, forRescan)
    ensures Kept(s, t, p)
  {
  }

  lemma RaiseRescanAgrees(s: State, t: State, p: Location)
    requires RaiseRescan(s, t) || (exists mode :: SetMode(s, t, mode))
    ensures Kept(s, t, p)
  {
  }

  lemma EndFetchAgrees(s: State, t: State, p: Location)
    requires FailFetch(s, t) || FinishFetch(s, t)
    ensures Kept(s, t, p)
  {
  }

  lemma StampBase(s: State, t: State)
    requires Base(s) && Stamp(s, t)
    ensures Base(t)
  {
  }

  /** Nothing sent so far is newer than the stamp ... */
  lemma StampNewer(s: State, t: State)
    requires Ordered(RecordedOf(s.fetch) + s.channel, s.generation) && Stamp(s, t)
    ensures Newer(t, s.generation, s.fetch.recorded) == []
  {
    var r := s.fetch.recorded;
    assert forall k :: 0 <= k < |r| ==> r[k] == (r + s.channel)[k];
    assert forall k :: 0 <= k < |s.channel| ==> s.channel[k] == (r + s.channel)[|r| + k];
    NoneAfter(r, s.generation);
    NoneAfter(s.channel, s.generation);
  }

  /** ... and whatever the scan has yet to read is on disk now. */
  lemma StampSnapshot(s: State, t: State, p: Location)
    requires Stamp(s, t) && Newer(t, s.generation, s.fetch.recorded) == []
    ensures SnapshotAgrees(t, p)
  {
    assert !Settled(t.fetch, p);
  }

  lemma StampAgrees(s: State, t: State, p: Location)
    requires Ordered(RecordedOf(s.fetch) + s.channel, s.generation) && Stamp(s, t) && Agrees(s, p)
    ensures Agrees(t, p)
  {
    StampNewer(s, t);
    StampSnapshot(s, t, p);
    var v :| Standing(s, p, v) && (p in s.stranded || Heads(s, p, v));
    assert Standing(t, p, v);
    assert Heads(s, p, v) ==> Heads(t, p, v);
  }

  // --- the snapshot ------------------------------------------------------------------

  lemma VisitBase(rules: Rules, s: State, t: State, ps: iset<Location>)
    requires Base(s) && Visit(rules, s, t, ps)
    ensures Base(t)
    ensures forall q :: q in s.fetch.seen ==> At(t.fetch.snapshot, q) == At(s.fetch.snapshot, q)
  {
    var m, m' := s.fetch.snapshot, t.fetch.snapshot;
    forall q | q in m' ensures q != [] ==> IsDirectory(m', Parent(q)) {
      if q != [] {
        assert IsDirectory(m, Parent(q));
        assert Parent(q) == [] || Parent(q) in s.fetch.seen;
      }
    }
  }

  /** A path read just now is in the snapshot exactly as it is on disk. */
  lemma ReadNow(rules: Rules, s: State, t: State, ps: iset<Location>, p: Location)
    requires Base(s) && Visit(rules, s, t, ps) && p in ps && !Skipped(rules, p)
    requires |p| > 1 ==> IsDirectory(s.fetch.snapshot, Parent(p))
    ensures Visible(s.disk, p) ==> At(t.fetch.snapshot, p) == At(s.disk, p)
    ensures p !in s.disk ==> p !in t.fetch.snapshot
  {
    assert Parent(p) == [] || |p| > 1;
  }

  /** A visit settles a path at what the disk holds then. */
  lemma NewlySettled(rules: Rules, s: State, t: State, ps: iset<Location>, p: Location)
    requires Downward(rules) && Base(s) && Visit(rules, s, t, ps) && Clean(rules, p)
    requires !Settled(s.fetch, p) && Settled(t.fetch, p)
    ensures (p in s.disk && s.disk[p].kind.Other?) || At(t.fetch.snapshot, p) == At(s.disk, p)
  {
    VisitBase(rules, s, t, ps);
    var k :| 0 < k <= |p| && p[..k] in t.fetch.seen && (k == |p| || !IsDirectory(t.fetch.snapshot, p[..k]));
    var q := p[..k];
    assert q in ps;
    assert !Skipped(rules, q) by {
      assert q <= p;
    }
    if k > 1 {
      assert Parent(q) == p[..k - 1];
      assert Parent(q) in s.fetch.seen;
    }
    ReadNow(rules, s, t, ps, q);
    if k == |p| {
      assert q == p;
    } else {
      NonePast(s.disk, t.fetch.snapshot, p, k);
    }
  }

  lemma NonePast(d: Mirror, m: Mirror, p: Location, k: nat)
    requires TreeClosed(d) && TreeClosed(m) && k < |p| && !IsDirectory(m, p[..k])
    requires IsDirectory(d, p[..k]) ==> At(m, p[..k]) == At(d, p[..k])
    ensures p !in m && p !in d
  {
    if p in m {
      PrefixHeld(m, p, k);
    }
    if p in d {
      PrefixHeld(d, p, k);
    }
  }

  /** A visit leaves what the snapshot holds, or will hold, at `p` as it was, or reads it from the disk. */
  lemma VisitedAt(rules: Rules, s: State, t: State, ps: iset<Location>, p: Location)
    requires Downward(rules) && Base(s) && Visit(rules, s, t, ps) && Clean(rules, p)
    ensures SnapshotAt(t, p) == SnapshotAt(s, p) || (p in s.disk && s.disk[p].kind.Other?)
  {
    VisitBase(rules, s, t, ps);
    if Settled(s.fetch, p) {
      var k :| 0 < k <= |p| && p[..k] in s.fetch.seen && (k == |p| || !IsDirectory(s.fetch.snapshot, p[..k]));
      assert At(t.fetch.snapshot, p[..k]) == At(s.fetch.snapshot, p[..k]);
      assert Settled(t.fetch, p);
      if k < |p| {
        SettledAbsent(s.fetch.snapshot, t.fetch.snapshot, p, k);
      } else {
        assert p[..k] == p;
      }
    } else if Settled(t.fetch, p) {
      NewlySettled(rules, s, t, ps, p);
    }
  }

  lemma VisitAgrees(rules: Rules, s: State, t: State, ps: iset<Location>, p: Location)
    requires Downward(rules) && Base(s) && Visit(rules, s, t, ps) && Clean(rules, p)
    ensures Kept(s, t, p)
  {
    VisitedAt(rules, s, t, ps, p);
    assert Newer(t, t.fetch.generation, t.fetch.recorded) == Newer(s, s.fetch.generation, s.fetch.recorded);
  }

  lemma SettledAbsent(m: Mirror, n: Mirror, p: Location, k: nat)
    requires TreeClosed(m) && TreeClosed(n) && k < |p| && !IsDirectory(m, p[..k]) && !IsDirectory(n, p[..k])
    ensures p !in m && p !in n
  {
    NonePast(m, n, p, k);
  }

  lemma FinishScanBase(s: State, t: State)
    requires Base(s) && FinishScan(s, t)
    ensures Base(t)
  {
  }

  lemma FinishScanAgrees(s: State, t: State, p: Location)
    requires FinishScan(s, t) && p != []
    ensures Kept(s, t, p)
  {
    assert Settled(s.fetch, p);
    assert SnapshotAt(t, p) == SnapshotAt(s, p);
    assert Newer(t, t.fetch.generation, t.fetch.recorded) == Newer(s, s.fetch.generation, s.fetch.recorded);
  }

  lemma InstallBase(s: State, t: State)
    requires Base(s) && Install(s, t)
    ensures Base(t)
  {
    ChangesTree(s.fetch.snapshot, After(s.fetch.recorded, s.fetch.generation));
    OrderedChannel(s.fetch.recorded, s.channel, s.generation);
  }

  /**
   * Changes the scan has already seen come back before the newer ones. They do no harm:
   * what they claim, the newer ones included, is true of the disk.
   */
  lemma ReplayedTwice(d: Mirror, p: Location, x: Action, n: Action, v: Option<Attributes>)
    requires Matches(d, p, Run(n, v)) && Truthful(d, p, Then(x, n))
    ensures Matches(d, p, Run(Then(x, n), v))
  {
  }

  /** Either nothing recorded is newer than the snapshot, or everything ahead is. */
  lemma {:induction false} AheadOfSnapshot(recorded: seq<Chunk>, channel: seq<Chunk>, g: nat, top: nat)
    requires Ordered(recorded + channel, top)
    ensures All(channel) == Before(channel, g) + After(channel, g)
    ensures After(recorded, g) != [] ==> Before(channel, g) == [] && top > g
    ensures top <= g ==> After(channel, g) == []
  {
    var all := recorded + channel;
    assert forall k :: 0 <= k < |channel| ==> channel[k] == all[|recorded| + k];
    OldThenNew(channel, g);
    if After(recorded, g) != [] {
      var j := SomeNewer(recorded, g);
      assert all[j] == recorded[j];
    }
    if top <= g {
      NoneAfter(channel, g);
    }
  }

  /** The changes still unsent belong to the newest batch. */
  lemma SplitAhead(before: seq<Change>, after: seq<Change>, unsent: seq<Change>, newer: bool)
    requires newer || after == []
    ensures (before + after) + unsent
            == (before + (if newer then [] else unsent)) + (after + (if newer then unsent else []))
  {
    if newer {
      Regroup(before, after, unsent);
    }
  }

  lemma SomeNewer(cs: seq<Chunk>, g: nat) returns (k: nat)
    requires After(cs, g) != []
    ensures k < |cs| && cs[k].generation > g
  {
    if forall k :: 0 <= k < |cs| ==> cs[k].generation <= g {
      NoneAfter(cs, g);
    }
    k :| 0 <= k < |cs| && cs[k].generation > g;
  }

  /** What the channel and the flusher still hold, against what the snapshot lacks. */
  lemma InstallSplit(s: State) returns (newer: seq<Change>)
    requires s.fetch.Ready? && Ordered(s.fetch.recorded + s.channel, s.generation) && s.fetch.generation <= s.generation
    ensures Ahead(s) == Older(s, s.fetch.generation) + newer
    ensures Newer(s, s.fetch.generation, s.fetch.recorded) == After(s.fetch.recorded, s.fetch.generation) + newer
    ensures After(s.fetch.recorded, s.fetch.generation) != [] ==> Older(s, s.fetch.generation) == []
  {
    var g := s.fetch.generation;
    AheadOfSnapshot(s.fetch.recorded, s.channel, g, s.generation);
    SplitAhead(Before(s.channel, g), After(s.channel, g), Unsent(s.flusher), s.generation > g);
    newer := After(s.channel, g) + (if s.generation > g then Unsent(s.flusher) else []);
  }

  lemma {:induction false} Installed(d: Mirror, p: Location, replay: seq<Change>, older: seq<Change>, newer: seq<Change>, v: Option<Attributes>)
    requires Matches(d, p, Run(ActionOfAll(replay + newer, p), v)) && Truthful(d, p, ActionOfAll(older + newer, p))
    requires replay != [] ==> older == []
    ensures Matches(d, p, Run(ActionOfAll(older + newer, p), Run(ActionOfAll(replay, p), v)))
  {
    ActionConcat(replay, newer, p);
    ActionConcat(older, newer, p);
    RunThen(ActionOfAll(replay, p), ActionOfAll(newer, p), v);
    if replay == [] {
      assert replay + newer == newer;
      ReplayedTwice(d, p, ActionOfAll(older, p), ActionOfAll(newer, p), v);
    } else {
      assert older + newer == newer;
    }
  }

  /** Where no older change is on its way the snapshot vouches for the newer ones. */
  lemma {:induction false} Restored(d: Mirror, p: Location, replay: seq<Change>, older: seq<Change>, newer: seq<Change>, v: Option<Attributes>)
    requires Matches(d, p, Run(ActionOfAll(replay + newer, p), v)) && ActionOfAll(older, p).Keep?
    ensures Truthful(d, p, ActionOfAll(older + newer, p))
  {
    ActionConcat(replay, newer, p);
    ActionConcat(older, newer, p);
    RunThen(ActionOfAll(replay, p), ActionOfAll(newer, p), v);
  }

  /** Whatever is not stranded after an install was not before, or is restored by it. */
  lemma InstallTail(s: State, t: State, p: Location)
    requires Base(s) && Install(s, t) && p !in t.stranded && Agrees(s, p)
    ensures TailAgrees(t, p)
  {
    assert Ahead(t) == Ahead(s);
    if p in s.stranded && !Dirty(s, p) {
      var newer := InstallSplit(s);
      var replay := After(s.fetch.recorded, s.fetch.generation);
      Restored(s.disk, p, replay, Older(s, s.fetch.generation), newer, At(s.fetch.snapshot, p));
      TailIsAll(Ahead(s), p);
    }
  }

  lemma {:induction false} InstallHeads(s: State, t: State, p: Location)
    requires Base(s) && Install(s, t) && p !in t.stranded && Agrees(s, p)
    ensures Heads(t, p, Run(ActionOfAll(After(s.fetch.recorded, s.fetch.generation), p), At(s.fetch.snapshot, p)))
  {
    assert Ahead(t) == Ahead(s);
    if !RescanDue(s) && !s.fetch.lost && !Dirty(s, p) {
      InstallTail(s, t, p);
      var newer := InstallSplit(s);
      TailIsAll(Ahead(s), p);
      Installed(s.disk, p, After(s.fetch.recorded, s.fetch.generation), Older(s, s.fetch.generation), newer, At(s.fetch.snapshot, p));
    }
  }

  /** Installing the snapshot and replaying leaves the mirror right once what is ahead has been applied. */
  lemma InstallAgrees(s: State, t: State, p: Location)
    requires Base(s) && Install(s, t) && p != [] && Agrees(s, p)
    ensures Agrees(t, p)
  {
    var replay := After(s.fetch.recorded, s.fetch.generation);
    var v := At(s.fetch.snapshot, p);
    ExactStrikesNothing(s.fetch.snapshot, {}, replay);
    CellChanges(Exact, s.fetch.snapshot, {}, {}, replay, replay, p, v);
    assert Standing(t, p, Run(ActionOfAll(replay, p), v));
    if p !in t.stranded {
      InstallHeads(s, t, p);
      InstallTail(s, t, p);
    }
  }

  /**
   * A snapshot installed with nothing in flight wipes the slate clean, but for what was stranded
   * after it was stamped and for upserts that found no room when it was replayed upon.
   */
  lemma InstallRecovers(s: State, t: State)
    requires Install(s, t) && Ahead(s) == [] && !RescanDue(s) && !s.fetch.lost
    ensures t.stranded == s.missed && t.struck == {}
    ensures After(s.fetch.recorded, s.fetch.generation) == [] ==> t.refused == {}
  {
    var g := s.fetch.generation;
    NothingBefore(s.channel, g);
    assert Older(s, g) == [];
  }

  lemma {:induction false} NothingBefore(cs: seq<Chunk>, g: nat)
    requires All(cs) == []
    ensures Before(cs, g) == []
  {
    if cs != [] {
      NothingBefore(cs[..|cs| - 1], g);
    }
  }

  // --- every step, every run ----------------------------------------------------------

  lemma DiskBase(s: State, t: State)
    requires FromDisk(s, t) && Base(s)
    ensures Base(t)
  {
    if ChangeDisk(s, t) {
      ChangeDiskBase(s, t);
    } else if AssignGeneration(s, t) {
      AssignGenerationBase(s, t);
    } else if planned, pruned, brought :| Take(s, t, planned, pruned, brought) {
      TakeBase(s, t, planned, pruned, brought);
    } else {
      QueueBase(s, t);
    }
  }

  lemma DiskStep(s: State, t: State, p: Location)
    requires FromDisk(s, t) && Base(s) && Agrees(s, p)
    ensures Agrees(t, p)
  {
    if planned, pruned, brought :| Take(s, t, planned, pruned, brought) {
      TakeAgrees(s, t, planned, pruned, brought, p);
    } else {
      if ChangeDisk(s, t) {
        ChangeDiskAgrees(s, t, p);
      } else if q, event, under :| Report(s, t, q, event, under) {
        ReportAgrees(s, t, q, event, under, p);
      } else if lost :| Overflow(s, t, lost) {
        OverflowAgrees(s, t, lost, p);
      } else {
        AssignGenerationAgrees(s, t, p);
      }
      KeptAgrees(s, t, p);
    }
  }

  lemma FlusherBase(rules: Rules, s: State, t: State)
    requires FromFlusher(rules, s, t) && Base(s)
    ensures Base(t)
  {
    if Resolve(rules, s, t) {
      ResolveBase(rules, s, t);
    } else if q :| Expand(rules, s, t, q) || Miss(rules, s, t, q) {
      ExpandBase(rules, s, t, q);
    } else if keep :| GiveUpExpansion(s, t, keep) {
      GiveUpBase(s, t, keep);
    } else if n :| SendChunk(s, t, n) {
      SendChunkBase(s, t, n);
    } else {
      SendingBase(s, t);
    }
  }

  lemma FlusherStep(rules: Rules, s: State, t: State, p: Location)
    requires FromFlusher(rules, s, t) && Base(s) && Clean(rules, p) && Agrees(s, p)
    ensures Agrees(t, p)
  {
    if Resolve(rules, s, t) {
      ResolveAgrees(rules, s, t, p);
    } else if q :| Expand(rules, s, t, q) {
      ExpandAgrees(rules, s, t, q, p);
    } else if q :| Miss(rules, s, t, q) {
      MissAgrees(rules, s, t, q, p);
    } else {
      if keep :| GiveUpExpansion(s, t, keep) {
        GiveUpAgrees(s, t, keep, p);
      } else if n :| SendChunk(s, t, n) {
        SendChunkAgrees(s, t, n, p);
      } else {
        SendingAgrees(s, t, p);
      }
      KeptAgrees(s, t, p);
    }
  }

  lemma ClientBase(rules: Rules, s: State, t: State)
    requires FromClient(rules, s, t) && Base(s)
    ensures Base(t)
  {
    if hits :| Receive(s, t, hits) {
      ReceiveBase(s, t, hits);
    } else if Stamp(s, t) {
      StampBase(s, t);
    } else if ps :| Visit(rules, s, t, ps) {
      VisitBase(rules, s, t, ps);
    } else if FinishScan(s, t) {
      FinishScanBase(s, t);
    } else if Install(s, t) {
      InstallBase(s, t);
    } else if mode :| SetMode(s, t, mode) {
      SetModeBase(s, t, mode);
    } else {
      RequestBase(s, t);
    }
  }

  /** The steps of the client that leave its mirror alone. */
  lemma QuietStep(rules: Rules, s: State, t: State, p: Location)
    requires Downward(rules) && FromClient(rules, s, t) && Base(s) && Clean(rules, p)
    requires !Stamp(s, t) && !Install(s, t) && !(exists hits :: Receive(s, t, hits))
    ensures Kept(s, t, p)
  {
    if ps :| Visit(rules, s, t, ps) {
      VisitAgrees(rules, s, t, ps, p);
    } else if FinishScan(s, t) {
      FinishScanAgrees(s, t, p);
    } else if forRescan :| StartFetch(s, t, forRescan) {
      StartFetchAgrees(s, t, forRescan, p);
    } else if FailFetch(s, t) || FinishFetch(s, t) {
      EndFetchAgrees(s, t, p);
    } else {
      RaiseRescanAgrees(s, t, p);
    }
  }

  lemma ClientStep(rules: Rules, s: State, t: State, p: Location)
    requires Downward(rules) && FromClient(rules, s, t) && Base(s) && Clean(rules, p) && Agrees(s, p)
    ensures Agrees(t, p)
  {
    if hits :| Receive(s, t, hits) {
      ReceiveAgrees(s, t, hits, p);
    } else if Stamp(s, t) {
      StampAgrees(s, t, p);
    } else if Install(s, t) {
      InstallAgrees(s, t, p);
    } else {
      QuietStep(rules, s, t, p);
      KeptAgrees(s, t, p);
    }
  }

  lemma InitInv(rules: Rules, s: State)
    requires Init(s)
    ensures Inv(rules, s)
  {
    forall p ensures Agrees(s, p) {
      assert Standing(s, p, At(s.mirror, p));
    }
  }

  /** Every step of every component keeps the invariant. */
  lemma NextInv(rules: Rules, s: State, t: State)
    requires Downward(rules) && Inv(rules, s) && Next(rules, s, t)
    ensures Inv(rules, t)
  {
    if FromDisk(s, t) {
      DiskBase(s, t);
    } else if FromFlusher(rules, s, t) {
      FlusherBase(rules, s, t);
    } else {
      ClientBase(rules, s, t);
    }
    forall p | Clean(rules, p) ensures Agrees(t, p) {
      assert Agrees(s, p);
      if FromDisk(s, t) {
        DiskStep(s, t, p);
      } else if FromFlusher(rules, s, t) {
        FlusherStep(rules, s, t, p);
      } else {
        ClientStep(rules, s, t, p);
      }
    }
  }

  /** A run of the whole system from a fresh mount. */
  ghost predicate Trace(rules: Rules, run: seq<State>) {
    run != [] && Init(run[0]) && forall k :: 0 <= k < |run| - 1 ==> Next(rules, run[k], run[k + 1])
  }

  lemma {:induction false} Reachable(rules: Rules, run: seq<State>, k: nat)
    requires Downward(rules) && Trace(rules, run) && k < |run|
    ensures Inv(rules, run[k])
  {
    if k == 0 {
      InitInv(rules, run[0]);
    } else {
      Reachable(rules, run, k - 1);
      NextInv(rules, run[k - 1], run[k - 1 + 1]);
    }
  }

  // --- what the flusher makes of a path -------------------------------------------------

  /** The next path is sent as it is on disk, sent as gone, or, ignored or special, not sent at all. */
  lemma ResolveSends(rules: Rules, s: State, t: State, p: Location)
    requires Resolve(rules, s, t) && s.flusher.planned[0].path == p
    ensures t.flusher.changes ==
              s.flusher.changes + (if rules(p, false) || rules(p, true) then []
                                   else if p !in s.disk then [Remove(p)]
                                   else if s.disk[p].kind.Other? then []
                                   else [Upsert(p, s.disk[p])])
    ensures t.flusher.planned == s.flusher.planned[1..] && t.disk == s.disk && t.channel == s.channel
  {
  }

  // --- convergence ----------------------------------------------------------------------

  /** At rest with no snapshot outstanding, what the client was told about a path is what the disk holds. */
  lemma ToldTruth(rules: Rules, run: seq<State>, s: State, p: Location) returns (v: Option<Attributes>)
    requires Downward(rules) && Trace(rules, run) && s == run[|run| - 1]
    requires s.owed == {} && s.pending == map[] && s.carried == map[] && !s.overflow && s.flusher.Idle? && s.channel == []
    requires s.fetch.NoFetch? && !s.rescanRequested && !s.sawRescan && !s.stale
    requires p != [] && !rules(p, false) && !rules(p, true) && p !in s.stranded
    ensures if p in s.refused + s.struck then v.Some? && (p in s.mirror ==> s.mirror[p] == IMPLICIT_DIRECTORY)
            else v == if p in s.mirror then Some(s.mirror[p]) else None
    ensures (p in s.disk && s.disk[p].kind.Other?) || v == if p in s.disk then Some(s.disk[p]) else None
  {
    Reachable(rules, run, |run| - 1);
    assert Agrees(s, p);
    assert Ahead(s) == [];
    v :| Standing(s, p, v) && Heads(s, p, v);
  }

  /**
   * Convergence. Whenever the system comes to rest with no snapshot outstanding, the mirror holds at
   * every path exactly what the disk holds, unless that is a special file, the rules exclude the path as
   * a file or as a directory, or one of the changes that should have brought it there was stranded,
   * refused or aimed at another path.
   */
  lemma Convergence(rules: Rules, run: seq<State>, s: State, p: Location)
    requires Downward(rules) && Trace(rules, run) && s == run[|run| - 1]
    requires s.owed == {} && s.pending == map[] && s.carried == map[] && !s.overflow && s.flusher.Idle? && s.channel == []
    requires s.fetch.NoFetch? && !s.rescanRequested && !s.sawRescan && !s.stale
    requires p != [] && !rules(p, false) && !rules(p, true) && (p in s.disk ==> !s.disk[p].kind.Other?)
    requires p !in s.stranded && p !in s.refused && p !in s.struck
    ensures p in s.mirror <==> p in s.disk
    ensures p in s.disk ==> s.mirror[p] == s.disk[p]
  {
    var v := ToldTruth(rules, run, s, p);
  }

  /** Where a change went astray the mirror is wrong: the disk holds the path, the mirror lacks it or made it up. */
  lemma AstrayIsWrong(rules: Rules, run: seq<State>, s: State, p: Location)
    requires Downward(rules) && Trace(rules, run) && s == run[|run| - 1]
    requires s.owed == {} && s.pending == map[] && s.carried == map[] && !s.overflow && s.flusher.Idle? && s.channel == []
    requires s.fetch.NoFetch? && !s.rescanRequested && !s.sawRescan && !s.stale
    requires p != [] && !rules(p, false) && !rules(p, true)
    requires p !in s.stranded && (p in s.refused || p in s.struck)
    ensures p in s.disk && (p in s.mirror ==> s.mirror[p] == IMPLICIT_DIRECTORY)
  {
    var v := ToldTruth(rules, run, s, p);
  }

  /** So at any path that is not a directory with default attributes, convergence fails exactly there. */
  lemma ConvergenceExactly(rules: Rules, run: seq<State>, s: State, p: Location)
    requires Downward(rules) && Trace(rules, run) && s == run[|run| - 1]
    requires s.owed == {} && s.pending == map[] && s.carried == map[] && !s.overflow && s.flusher.Idle? && s.channel == []
    requires s.fetch.NoFetch? && !s.rescanRequested && !s.sawRescan && !s.stale
    requires p != [] && !rules(p, false) && !rules(p, true)
    requires p in s.disk ==> !s.disk[p].kind.Other? && s.disk[p] != IMPLICIT_DIRECTORY
    requires p !in s.stranded
    ensures (p in s.mirror <==> p in s.disk) && (p in s.disk && p in s.mirror ==> s.mirror[p] == s.disk[p])
            <==> p !in s.refused && p !in s.struck
  {
    if p in s.refused || p in s.struck {
      AstrayIsWrong(rules, run, s, p);
    } else {
      Convergence(rules, run, s, p);
    }
  }
}
