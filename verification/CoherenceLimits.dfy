/** Runs that come to rest with a mirror that differs from the disk: each condition of convergence is needed. */
module CoherenceLimits {
  import opened Types
  import opened PathMap
  import opened CaseFold
  import opened Cell
  import opened Coherence
  import opened CoherenceProof
  import opened CoherenceRuns
  import Glob
  import Ignore
  import Path

  const A: Name := [97]
  const B: Name := [98]
  const CAPITAL: Name := [65]

  function Dir(): Attributes { IMPLICIT_DIRECTORY }
  function Plain(): Attributes { Attributes(1, 1, 420, File) }
  function Longer(): Attributes { Attributes(2, 2, 420, File) }
  function Pipe(): Attributes { Attributes(0, 1, 420, Other) }

  function NoRules(p: Location, directory: bool): bool { false }

  function OneFile(): Mirror { map[[] := Dir(), [A] := Plain()] }
  function Grown(): Mirror { map[[] := Dir(), [A] := Longer()] }
  function TwoFiles(): Mirror { map[[] := Dir(), [A] := Plain(), [CAPITAL] := Plain()] }
  function OneDirectory(): Mirror { map[[] := Dir(), [A] := Dir()] }
  function FileInDirectory(): Mirror { map[[] := Dir(), [A] := Dir(), [A, B] := Plain()] }
  function OnePipe(): Mirror { map[[] := Dir(), [A] := Pipe()] }

  function Faithful(m: Mirror): Client { Client(m, Exact, {}, {}) }

  lemma NamesOk(p: Location)
    ensures p == [A] || p == [A, B] || p == [CAPITAL] || p == [] ==> Path.AllValid(p)
  {
  }

  /** A tree of the names used here is a disk. */
  lemma Good(d: Mirror)
    requires TreeClosed(d) && IsDirectory(d, []) && d.Keys <= {[], [A], [CAPITAL], [A, B]}
    ensures DiskOk(d)
  {
    forall p | p in d ensures Path.AllValid(p) {
      NamesOk(p);
    }
  }

  /** A disk at most two levels deep, with nothing special on it, is shown as it is. */
  lemma ShownAsIs(rules: Rules, d: Mirror)
    requires DiskOk(d) && d[[]] == Dir()
    requires forall p :: p in d ==> |p| <= 2 && (p != [] ==> Visible(d, p) && !rules(p, d[p].kind.Directory?))
    ensures Shown(rules, d) == d
  {
    forall p | p in d && p != [] ensures Mirrored(rules, d, p) {
      assert IsDirectory(d, Parent(p));
      if |p| == 2 {
        assert Parent(Parent(p)) == [];
        assert Mirrored(rules, d, Parent(p));
      }
    }
  }

  lemma FileMounted(rules: Rules, mode: LookupMode)
    requires !rules([A], false)
    ensures Reached(rules, Now(OneFile(), {}, map[], map[], 0, Idle, Client(OneFile(), mode, {}, {}), {}))
  {
    assert Parent([A]) == [];
    Good(OneFile());
    ShownAsIs(rules, OneFile());
    MountRun(rules, OneFile(), mode);
  }

  lemma DirectoryMounted()
    ensures Reached(NoRules, Now(FileInDirectory(), {}, map[], map[], 0, Idle, Faithful(FileInDirectory()), {}))
  {
    assert Parent([A]) == [] && Parent([A, B]) == [A];
    Good(FileInDirectory());
    ShownAsIs(NoRules, FileInDirectory());
    MountRun(NoRules, FileInDirectory(), Exact);
  }

  /** Matched by spelling every change is applied as it is. */
  lemma AimedExactly(m: Mirror, cs: seq<Change>)
    ensures Aimed(Exact, m, cs, cs)
  {
  }

  lemma SingleUpdate(c: Client, x: Change, hit: Change)
    ensures Updated(c, [x], [hit]) == Client(Apply(c.mirror, hit), c.mode, Unsettled(c.refused, x) + Refused(c.mirror, x),
                                             Unsettled(c.struck, x) + Struck(c.mirror, x, hit))
  {
    var m, none := c.mirror, [x][..0];
    assert none == [] && [hit][..0] == [];
    assert ApplyAll(m, [hit][..0]) == m;
    assert RefusedAfter(m, c.refused, none, [hit][..0]) == c.refused;
    assert StruckAfter(m, c.struck, none, [hit][..0]) == c.struck;
    assert RefusedAfter(m, c.refused, [x], [hit]) == Unsettled(c.refused, x) + Refused(m, x);
    assert StruckAfter(m, c.struck, [x], [hit]) == Unsettled(c.struck, x) + Struck(m, x, hit);
  }

  lemma NoMoreDirectories(m: Mirror)
    requires [] in m
    ensures Parent([A]) == [] && WithDirectories(m, []) == m
  {
    assert [A][..0] == [];
    forall q | q in Ancestors([]) ensures q == [] {
    }
  }

  // --- special files ------------------------------------------------------------------

  lemma FileBecomesPipe()
    ensures DiskOk(OnePipe()) && {} + Changed(OneFile(), OnePipe()) == {[A]} && Path.AllValid([A])
  {
    assert Parent([A]) == [];
    Good(OnePipe());
    NamesOk([A]);
  }

  lemma PipeReported()
    ensures Reached(NoRules, Now(OnePipe(), {}, map[[A] := Touched], map[], 0, Idle, Faithful(OneFile()), {}))
  {
    FileMounted(NoRules, Exact);
    FileBecomesPipe();
    Rewrite(NoRules, OneFile(), OnePipe(), {}, map[], map[], Faithful(OneFile()));
    Notice(NoRules, OnePipe(), {[A]}, map[], map[], 0, Faithful(OneFile()), {}, [A], Touched, {}, {}, map[]);
  }

  lemma PipePlanned()
    ensures Reached(NoRules, Now(OnePipe(), {}, map[], map[], 1, Resolving([Planned([A], Touched)] + [], map[], map[], []),
                                 Faithful(OneFile()), {}))
  {
    var planned := [Planned([A], Touched)] + [];
    PipeReported();
    assert IsPlanned(planned, planned[0].path);
    Plan(NoRules, OnePipe(), {}, map[[A] := Touched], map[], 0, Faithful(OneFile()), {}, planned, map[], map[]);
  }

  /** A file replaced by a pipe stays in the mirror as a file. */
  lemma PipeKeepsOldFile() returns (s: State)
    ensures Reached(NoRules, s) && Quiescent(s) && !s.stale && Clean(NoRules, [A]) && s.stranded == {} && !Astray(s, [A])
    ensures [A] in s.disk && s.disk[[A]].kind.Other? && At(s.mirror, [A]) == Some(Plain())
  {
    var c := Faithful(OneFile());
    PipePlanned();
    assert Resolved(NoRules, OnePipe(), [A]) == [] && Undecided({}, []) == {};
    Stat(NoRules, OnePipe(), {}, 1, Planned([A], Touched), [], [], [], c, {});
    EmptyBatch(NoRules, OnePipe(), c);
    s := Now(OnePipe(), {}, map[], map[], 1, Idle, c, {});
  }

  // --- paths the rules exclude as directories -------------------------------------------

  /** The rule `a/`: directories of that name, at any depth. */
  function DirectoryRule(): seq<Ignore.Pattern> { [Ignore.Pattern([A], false, true)] }

  function SlashRules(): Rules { Ignore.Rules(DirectoryRule()) }

  /** Rules that exclude `a` as a directory and not as a file. */
  predicate KindMatters(rules: Rules) {
    !rules([A], false) && rules([A], true)
  }

  lemma RuleOnFile()
    ensures KindMatters(SlashRules()) && Downward(SlashRules())
  {
    var pat := DirectoryRule()[0];
    assert Glob.Matches(A, [A][0]);
    assert Ignore.FloatingHit(pat, [A], true);
    assert Ignore.Hit(pat, [A], true);
    assert Ignore.Excluded(DirectoryRule(), [A], true);
    assert !Ignore.FloatingHit(pat, [A], false);
    Ignore.RulesDownward(DirectoryRule());
  }

  lemma FileGrows()
    ensures DiskOk(Grown()) && {} + Changed(OneFile(), Grown()) == {[A]} && Path.AllValid([A])
  {
    assert Parent([A]) == [];
    Good(Grown());
    NamesOk([A]);
  }

  lemma GrowthReported(rules: Rules)
    requires KindMatters(rules)
    ensures Reached(rules, Now(Grown(), {}, map[[A] := Touched], map[], 0, Idle, Faithful(OneFile()), {}))
  {
    FileMounted(rules, Exact);
    FileGrows();
    Rewrite(rules, OneFile(), Grown(), {}, map[], map[], Faithful(OneFile()));
    Notice(rules, Grown(), {[A]}, map[], map[], 0, Faithful(OneFile()), {}, [A], Touched, {}, {}, map[]);
  }

  lemma GrowthPlanned(rules: Rules)
    requires KindMatters(rules)
    ensures Reached(rules, Now(Grown(), {}, map[], map[], 1, Resolving([Planned([A], Touched)] + [], map[], map[], []),
                               Faithful(OneFile()), {}))
  {
    var planned := [Planned([A], Touched)] + [];
    GrowthReported(rules);
    assert IsPlanned(planned, planned[0].path);
    Plan(rules, Grown(), {}, map[[A] := Touched], map[], 0, Faithful(OneFile()), {}, planned, map[], map[]);
  }

  /** Nothing to send: the batch is finished and the mirror as it was. */
  lemma EmptyBatch(rules: Rules, d: Mirror, c: Client)
    requires Reached(rules, Now(d, {}, map[], map[], 1, Resolving([], map[], map[], []), c, {}))
    ensures Reached(rules, Now(d, {}, map[], map[], 1, Idle, c, {}))
  {
    NothingSent(c);
    Deliver(rules, d, {}, 1, [], [], c, {});
  }

  lemma GrowthSkipped(rules: Rules)
    requires KindMatters(rules)
    ensures Reached(rules, Now(Grown(), {}, map[], map[], 1, Idle, Faithful(OneFile()), {}))
  {
    GrowthPlanned(rules);
    assert Resolved(rules, Grown(), [A]) == [] && Undecided({}, []) == {};
    Stat(rules, Grown(), {}, 1, Planned([A], Touched), [], [], [], Faithful(OneFile()), {});
    EmptyBatch(rules, Grown(), Faithful(OneFile()));
  }

  /** A file that the rules exclude only as a directory is in the snapshot, and its changes are never sent. */
  lemma ExcludedKindStaysStale() returns (s: State)
    ensures Reached(SlashRules(), s) && Quiescent(s) && !s.stale && s.stranded == {} && !Astray(s, [A])
    ensures Visible(s.disk, [A]) && !SlashRules()([A], s.disk[[A]].kind.Directory?) && SlashRules()([A], true)
    ensures At(s.disk, [A]) == Some(Longer()) && At(s.mirror, [A]) == Some(Plain())
  {
    RuleOnFile();
    GrowthSkipped(SlashRules());
    s := Now(Grown(), {}, map[], map[], 1, Idle, Faithful(OneFile()), {});
  }

  // --- names that fold alike ------------------------------------------------------------

  function Folding(): Client { Client(OneFile(), CaseInsensitive, {}, {}) }

  lemma CapitalComesAndGoes()
    ensures DiskOk(TwoFiles()) && DiskOk(OneFile()) && Path.AllValid([CAPITAL])
    ensures {} + Changed(OneFile(), TwoFiles()) == {[CAPITAL]} && {[CAPITAL]} + Changed(TwoFiles(), OneFile()) == {[CAPITAL]}
  {
    assert Parent([A]) == [] && Parent([CAPITAL]) == [];
    Good(OneFile());
    Good(TwoFiles());
    NamesOk([CAPITAL]);
  }

  /** A second file, its name in capitals, is made and deleted again before the batch is taken. */
  lemma CapitalGone()
    ensures Reached(NoRules, Now(OneFile(), {}, map[[CAPITAL] := Vanished], map[], 0, Idle, Folding(), {}))
  {
    FileMounted(NoRules, CaseInsensitive);
    CapitalComesAndGoes();
    Rewrite(NoRules, OneFile(), TwoFiles(), {}, map[], map[], Folding());
    Rewrite(NoRules, TwoFiles(), OneFile(), {[CAPITAL]}, map[], map[], Folding());
    Notice(NoRules, OneFile(), {[CAPITAL]}, map[], map[], 0, Folding(), {}, [CAPITAL], Vanished, {}, {}, map[]);
  }

  lemma CapitalFolds()
    ensures SameFolding([A], [CAPITAL]) && FoldsAbove([CAPITAL], [A])
  {
    assert Decode(A) == Scalar(97, 1) && Decode(CAPITAL) == Scalar(65, 1);
    assert A[1..] == [] && CAPITAL[1..] == [];
    assert Fold(A) == [97] && Fold(CAPITAL) == [97];
    assert [A][..1] == [A];
  }

  /** The lookup misses the capital, finds the other file by folding, and removes that. */
  lemma WrongFileRemoved()
    ensures Aimed(CaseInsensitive, OneFile(), [Remove([CAPITAL])], [Remove([A])])
    ensures Updated(Folding(), [Remove([CAPITAL])], [Remove([A])]) == Client(Rooted(), CaseInsensitive, {}, {[A]})
  {
    CapitalFolds();
    SingleUpdate(Folding(), Remove([CAPITAL]), Remove([A]));
    assert Struck(OneFile(), Remove([CAPITAL]), Remove([A])) == {[A]};
    assert Removed(OneFile(), [A]) == Rooted();
    assert [Remove([A])][..0] == [];
  }

  lemma CapitalResolved()
    ensures Reached(NoRules, Now(OneFile(), {}, map[], map[], 1, Resolving([], map[], map[], [Remove([CAPITAL])]), Folding(), {}))
  {
    var planned, cs := [Planned([CAPITAL], Vanished)], [Remove([CAPITAL])];
    CapitalGone();
    Plan(NoRules, OneFile(), {}, map[[CAPITAL] := Vanished], map[], 0, Folding(), {}, planned, map[], map[]);
    assert planned == [Planned([CAPITAL], Vanished)] + [];
    assert Resolved(NoRules, OneFile(), [CAPITAL]) == cs && [] + cs == cs;
    Stat(NoRules, OneFile(), {}, 1, Planned([CAPITAL], Vanished), [], [], cs, Folding(), {});
  }

  /** A removal can take a file of another spelling, which is on disk and stays missing from the mirror. */
  lemma FoldedRemovalTakesOther() returns (s: State)
    ensures Reached(NoRules, s) && Quiescent(s) && !s.stale && Clean(NoRules, [A]) && s.stranded == {} && s.refused == {}
    ensures At(s.disk, [A]) == Some(Plain()) && [A] !in s.mirror && [A] in s.struck && s.mode.CaseInsensitive?
  {
    var cs, hits := [Remove([CAPITAL])], [Remove([A])];
    CapitalResolved();
    WrongFileRemoved();
    Deliver(NoRules, OneFile(), {}, 1, cs, hits, Folding(), {});
    s := Now(OneFile(), {}, map[], map[], 1, Idle, Client(Rooted(), CaseInsensitive, {}, {[A]}), {});
  }

  // --- files that become directories --------------------------------------------------

  lemma FileBecomesDirectory()
    ensures DiskOk(FileInDirectory()) && Path.AllValid([A]) && Path.AllValid([A, B])
    ensures {} + Changed(OneFile(), FileInDirectory()) == {[A], [A, B]}
  {
    assert Parent([A]) == [] && Parent([A, B]) == [A];
    Good(FileInDirectory());
    NamesOk([A]);
    NamesOk([A, B]);
  }

  /** The file's own event comes last: the directory changed again when its child was made. */
  lemma DirectoryReported()
    ensures Reached(NoRules, Now(FileInDirectory(), {}, map[[A, B] := Appeared][[A] := Appeared], map[], 0, Idle,
                                 Faithful(OneFile()), {}))
  {
    var d, c := FileInDirectory(), Faithful(OneFile());
    FileMounted(NoRules, Exact);
    FileBecomesDirectory();
    Rewrite(NoRules, OneFile(), d, {}, map[], map[], c);
    Notice(NoRules, d, {[A], [A, B]}, map[], map[], 0, c, {}, [A, B], Appeared, {}, {[A]}, map[]);
    Notice(NoRules, d, {[A]}, map[[A, B] := Appeared], map[], 0, c, {}, [A], Appeared, {}, {}, map[]);
  }

  function ChildThenDirectory(): seq<Change> { [Upsert([A, B], Plain()), Upsert([A], Dir())] }

  lemma DirectoryPlanned()
    ensures Reached(NoRules, Now(FileInDirectory(), {}, map[], map[], 1,
                                 Resolving([Planned([A, B], Appeared)] + ([Planned([A], Appeared)] + []), map[], map[], []),
                                 Faithful(OneFile()), {}))
  {
    var planned := [Planned([A, B], Appeared)] + ([Planned([A], Appeared)] + []);
    DirectoryReported();
    assert IsPlanned(planned, planned[0].path) && IsPlanned(planned, planned[1].path);
    Plan(NoRules, FileInDirectory(), {}, map[[A, B] := Appeared][[A] := Appeared], map[], 0, Faithful(OneFile()), {},
         planned, map[], map[]);
  }

  lemma DirectoryResolved()
    ensures Reached(NoRules, Now(FileInDirectory(), {}, map[], map[], 1, Resolving([], map[], map[], ChildThenDirectory()),
                                 Faithful(OneFile()), {}))
  {
    var d, c, first, last := FileInDirectory(), Faithful(OneFile()), Planned([A, B], Appeared), Planned([A], Appeared);
    DirectoryPlanned();
    Stat(NoRules, d, {}, 1, first, [last] + [], [], [Upsert([A, B], Plain())], c, {});
    Stat(NoRules, d, {}, 1, last, [], [Upsert([A, B], Plain())], ChildThenDirectory(), c, {});
  }

  lemma ChildRefused()
    ensures var c := Updated(Faithful(OneFile()), ChildThenDirectory(), ChildThenDirectory());
            c.mirror == OneDirectory() && c.refused == {[A, B]} && c.struck == {}
  {
    var m, cs := OneFile(), ChildThenDirectory();
    assert [A, B][..1] == [A] && [A, B][..0] == [] && [A, B][..2] == [A, B];
    assert Blocked(m, [A, B]) && !Blocked(m, [A]) && !Blocked(m, []);
    assert Refused(m, cs[0]) == {[A, B]};
    assert [A][..0] == [] && [A][..1] == [A];
    assert Refused(m, cs[1]) == {};
    assert cs[..1] == [cs[0]];
    SingleUpdate(Faithful(m), cs[0], cs[0]);
    assert ApplyAll(m, cs[..1]) == m;
    NoMoreDirectories(m);
    assert Upserted(m, [A], Dir()) == OneDirectory();
    assert Unsettled({[A, B]}, cs[1]) == {[A, B]};
  }

  /** The child of a file that became a directory can stay missing from the mirror. */
  lemma ChildOfFormerFileLost() returns (s: State)
    ensures Reached(NoRules, s) && Quiescent(s) && !s.stale && s.stranded == {} && s.struck == {}
    ensures Visible(s.disk, [A, B]) && [A, B] !in s.mirror && s.refused == {[A, B]}
  {
    var c := Faithful(OneFile());
    DirectoryResolved();
    ChildRefused();
    AimedExactly(c.mirror, ChildThenDirectory());
    Deliver(NoRules, FileInDirectory(), {}, 1, ChildThenDirectory(), ChildThenDirectory(), c, {});
    s := Now(FileInDirectory(), {}, map[], map[], 1, Idle, Updated(c, ChildThenDirectory(), ChildThenDirectory()), {});
  }

  // --- directories that are replaced --------------------------------------------------

  lemma DirectoryReplaced()
    ensures DiskOk(Rooted()) && DiskOk(OneDirectory()) && Path.AllValid([A])
    ensures {} + Changed(FileInDirectory(), Rooted()) == {[A], [A, B]} && {} + Changed(Rooted(), OneDirectory()) == {[A]}
  {
    assert Parent([A]) == [];
    Good(Rooted());
    Good(OneDirectory());
    NamesOk([A]);
  }

  /** The directory is moved away, which is one event, and an empty one takes its place. */
  lemma EmptyInPlace()
    ensures Reached(NoRules, Now(OneDirectory(), {[A]}, map[[A] := Vanished], map[[A, B] := [A]], 0, Idle,
                                 Faithful(FileInDirectory()), {}))
  {
    var m, c := FileInDirectory(), Faithful(FileInDirectory());
    DirectoryMounted();
    DirectoryReplaced();
    Rewrite(NoRules, m, Rooted(), {}, map[], map[], c);
    Notice(NoRules, Rooted(), {[A], [A, B]}, map[], map[], 0, c, {}, [A], Vanished, {[A, B]}, {}, map[[A, B] := [A]]);
    Rewrite(NoRules, Rooted(), OneDirectory(), {}, map[[A] := Vanished], map[[A, B] := [A]], c);
  }

  lemma UndonePlanned()
    ensures Reached(NoRules, Now(OneDirectory(), {[A]}, map[], map[], 1,
                                 Resolving([Planned([A], Vanished)], map[[A, B] := [A]], map[], []),
                                 Faithful(FileInDirectory()), {}))
  {
    var planned := [Planned([A], Vanished)];
    EmptyInPlace();
    assert planned[0] in planned && IsPlanned(planned, planned[0].path) && [A, B][..1] == [A];
    assert CoveredAbove(planned, [A, B]);
    Plan(NoRules, OneDirectory(), {[A]}, map[[A] := Vanished], map[[A, B] := [A]], 0, Faithful(FileInDirectory()), {},
         planned, map[[A, B] := [A]], map[]);
  }

  /** Upserting a directory decides nothing below it. */
  lemma LeavesChild(ps: set<Location>)
    requires ps <= {[A, B]}
    ensures Undecided(ps, [Upsert([A], Dir())]) == ps
  {
  }

  /** The stat finds the new directory, so the removal turns into an upsert and the child is left behind. */
  lemma UndoneStep(s: State, t: State)
    requires s == Now(OneDirectory(), {[A]}, map[], map[], 1, Resolving([Planned([A], Vanished)], map[[A, B] := [A]], map[], []),
                      Faithful(FileInDirectory()), {})
    requires t == Now(OneDirectory(), {[A]}, map[], map[], 1, Resolving([], map[], map[], [Upsert([A], Dir())]),
                      Faithful(FileInDirectory()), {[A, B]})
    ensures Resolve(NoRules, s, t)
  {
    var d, cs := OneDirectory(), [Upsert([A], Dir())];
    var none: map<Location, Location> := map[];
    LeavesChild({[A, B]});
    assert Below(map[[A, B] := [A]], [A]) == {[A, B]} && Below(none, [A]) == {};
    assert [A, B] !in {[A]};
    assert Under(s.flusher) == {[A, B]} && Along(s.flusher, d) == {};
    assert Resolved(NoRules, d, [A]) == cs;
    assert [A, B] in Undecided({[A, B]}, cs);
    assert LeftBehind(s, cs) == {[A, B]};
    assert none - {} == none;
    assert map[[A, B] := [A]] - {[A, B]} == none;
    assert s.flusher.planned[1..] == [] && [] + cs == cs && Undecided({}, cs) + {[A, B]} == {[A, B]};
  }

  lemma UndoneResolved()
    ensures Reached(NoRules, Now(OneDirectory(), {[A]}, map[], map[], 1, Resolving([], map[], map[], [Upsert([A], Dir())]),
                                 Faithful(FileInDirectory()), {[A, B]}))
  {
    var d, c, cs := OneDirectory(), Faithful(FileInDirectory()), [Upsert([A], Dir())];
    var s := Now(d, {[A]}, map[], map[], 1, Resolving([Planned([A], Vanished)], map[[A, B] := [A]], map[], []), c, {});
    var t := Now(d, {[A]}, map[], map[], 1, Resolving([], map[], map[], cs), c, {[A, B]});
    UndonePlanned();
    UndoneStep(s, t);
    Step(NoRules, s, t);
  }

  lemma UpsertDirectory(m: Mirror)
    requires m == FileInDirectory()
    ensures Updated(Faithful(m), [Upsert([A], Dir())], [Upsert([A], Dir())]) == Faithful(m)
    ensures Aimed(Exact, m, [Upsert([A], Dir())], [Upsert([A], Dir())])
  {
    var c := Upsert([A], Dir());
    SingleUpdate(Faithful(m), c, c);
    AimedExactly(m, [c]);
    assert [A][..0] == [] && [A][..1] == [A] && !Blocked(m, [A]) && !Blocked(m, []);
    assert Refused(m, c) == {};
    NoMoreDirectories(m);
  }

  lemma UndoneDelivered()
    ensures Reached(NoRules, Now(OneDirectory(), {}, map[[A] := Appeared], map[], 1, Idle, Faithful(FileInDirectory()), {[A, B]}))
  {
    var d, c, cs := OneDirectory(), Faithful(FileInDirectory()), [Upsert([A], Dir())];
    UndoneResolved();
    UpsertDirectory(FileInDirectory());
    NamesOk([A]);
    Deliver(NoRules, d, {[A]}, 1, cs, cs, c, {[A, B]});
    Notice(NoRules, d, {[A]}, map[], map[], 1, c, {[A, B]}, [A], Appeared, {}, {}, map[]);
  }

  lemma UndonePlannedAgain()
    ensures Reached(NoRules, Now(OneDirectory(), {}, map[], map[], 2, Resolving([Planned([A], Appeared)] + [], map[], map[], []),
                                 Faithful(FileInDirectory()), {[A, B]}))
  {
    var planned := [Planned([A], Appeared)] + [];
    UndoneDelivered();
    assert planned[0] in planned && IsPlanned(planned, planned[0].path);
    Plan(NoRules, OneDirectory(), {}, map[[A] := Appeared], map[], 1, Faithful(FileInDirectory()), {[A, B]}, planned, map[], map[]);
  }

  lemma UndoneResolvedAgain()
    ensures Reached(NoRules, Now(OneDirectory(), {}, map[], map[], 2, Resolving([], map[], map[], [Upsert([A], Dir())]),
                                 Faithful(FileInDirectory()), {[A, B]}))
  {
    var d, cs := OneDirectory(), [Upsert([A], Dir())];
    UndonePlannedAgain();
    LeavesChild({[A, B]});
    assert Resolved(NoRules, d, [A]) == cs && [] + cs == cs;
    Stat(NoRules, d, {}, 2, Planned([A], Appeared), [], [], cs, Faithful(FileInDirectory()), {[A, B]});
  }

  /** What a removed directory held can stay in the mirror when the directory is there again at the stat. */
  lemma UndoneRemovalKeepsChild() returns (s: State)
    ensures Reached(NoRules, s) && Quiescent(s) && !s.stale && s.refused == {} && s.struck == {}
    ensures [A, B] !in s.disk && [A, B] in s.mirror && s.stranded == {[A, B]}
  {
    var d, c, cs := OneDirectory(), Faithful(FileInDirectory()), [Upsert([A], Dir())];
    UndoneResolvedAgain();
    UpsertDirectory(FileInDirectory());
    Deliver(NoRules, d, {}, 2, cs, cs, c, {[A, B]});
    s := Now(d, {}, map[], map[], 2, Idle, c, {[A, B]});
  }

  // --- directories that arrive while the old one's departure is pending ----------------

  lemma ReplacementPlanned()
    ensures Reached(NoRules, Now(OneDirectory(), {}, map[], map[], 1,
                                 Resolving([Planned([A], Appeared)], map[], map[[A, B] := [A]], []),
                                 Faithful(FileInDirectory()), {}))
  {
    var planned := [Planned([A], Appeared)];
    EmptyInPlace();
    NamesOk([A]);
    Notice(NoRules, OneDirectory(), {[A]}, map[[A] := Vanished], map[[A, B] := [A]], 0, Faithful(FileInDirectory()), {},
           [A], Appeared, {}, {}, map[[A, B] := [A]]);
    assert planned[0] in planned && IsPlanned(planned, planned[0].path) && [A, B][..1] == [A];
    assert CoveredAbove(planned, [A, B]);
    Plan(NoRules, OneDirectory(), {}, map[[A] := Vanished][[A] := Appeared], map[[A, B] := [A]], 0,
         Faithful(FileInDirectory()), {}, planned, map[], map[[A, B] := [A]]);
  }

  lemma ReplacementStat(s: State, t: State)
    requires s == Now(OneDirectory(), {}, map[], map[], 1, Resolving([Planned([A], Appeared)], map[], map[[A, B] := [A]], []),
                      Faithful(FileInDirectory()), {})
    requires t == Now(OneDirectory(), {}, map[], map[], 1, Resolving([], map[], map[[A, B] := [A]], [Upsert([A], Dir())]),
                      Faithful(FileInDirectory()), {})
    ensures Resolve(NoRules, s, t)
  {
    var d, brought, cs := OneDirectory(), map[[A, B] := [A]], [Upsert([A], Dir())];
    assert IsDirectory(d, [A]);
    assert Under(s.flusher) == {} && Along(s.flusher, d) == {} && LeftBehind(s, cs) == {};
    assert s.flusher.pruned - {} == map[] && brought - {} == brought;
    assert s.flusher.planned[1..] == [] && Resolved(NoRules, d, [A]) == cs && [] + cs == cs;
    assert Undecided({}, cs) + {} == {};
  }

  lemma ReplacementResolved()
    ensures Reached(NoRules, Now(OneDirectory(), {}, map[], map[], 1,
                                 Resolving([], map[], map[[A, B] := [A]], [Upsert([A], Dir())]), Faithful(FileInDirectory()), {}))
  {
    var d, c, brought, cs := OneDirectory(), Faithful(FileInDirectory()), map[[A, B] := [A]], [Upsert([A], Dir())];
    var s := Now(d, {}, map[], map[], 1, Resolving([Planned([A], Appeared)], map[], brought, []), c, {});
    var t := Now(d, {}, map[], map[], 1, Resolving([], map[], brought, cs), c, {});
    ReplacementPlanned();
    ReplacementStat(s, t);
    Step(NoRules, s, t);
  }

  /** The enumeration of the new directory does not come across the old one's child. */
  lemma ReplacementMisses(s: State, t: State)
    requires s == Now(OneDirectory(), {}, map[], map[], 1, Resolving([], map[], map[[A, B] := [A]], [Upsert([A], Dir())]),
                      Faithful(FileInDirectory()), {})
    requires t == Now(OneDirectory(), {}, map[], map[], 1, Resolving([], map[], map[], [Upsert([A], Dir())]),
                      Faithful(FileInDirectory()), {[A, B]})
    ensures Miss(NoRules, s, t, [A, B])
  {
    var none: map<Location, Location> := map[];
    assert map[[A, B] := [A]] - {[A, B]} == none;
    assert s.flusher.changes + [] == s.flusher.changes;
    assert Undecided({}, []) + {[A, B]} == {[A, B]};
    assert Unreported(s, [A, B]) && !Visible(s.disk, [A, B]);
  }

  lemma ReplacementScanned()
    ensures Reached(NoRules, Now(OneDirectory(), {}, map[], map[], 1, Resolving([], map[], map[], [Upsert([A], Dir())]),
                                 Faithful(FileInDirectory()), {[A, B]}))
  {
    var d, c, brought, cs := OneDirectory(), Faithful(FileInDirectory()), map[[A, B] := [A]], [Upsert([A], Dir())];
    var t := Now(d, {}, map[], map[], 1, Resolving([], map[], brought, cs), c, {});
    var u := Now(d, {}, map[], map[], 1, Resolving([], map[], map[], cs), c, {[A, B]});
    ReplacementResolved();
    ReplacementMisses(t, u);
    Step(NoRules, t, u);
  }

  /** Two renames onto one name in one batch: what only the first directory held stays in the mirror. */
  lemma ReplacedDirectoryKeepsChild() returns (s: State)
    ensures Reached(NoRules, s) && Quiescent(s) && !s.stale && s.refused == {} && s.struck == {}
    ensures [A, B] !in s.disk && [A, B] in s.mirror && s.stranded == {[A, B]}
  {
    var d, c, cs := OneDirectory(), Faithful(FileInDirectory()), [Upsert([A], Dir())];
    ReplacementScanned();
    UpsertDirectory(FileInDirectory());
    Deliver(NoRules, d, {}, 1, cs, cs, c, {[A, B]});
    s := Now(d, {}, map[], map[], 1, Idle, c, {[A, B]});
  }
}
