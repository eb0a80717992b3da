/**
 * The coherence protocol without local mutations: a disk that others change, a
 * watcher, the agent's flusher, the channel, and a client mirror that is
 * refreshed by batches and by snapshots fetched while batches keep arriving.
 * Every atomic section is one step; any step that is enabled may happen next.
 */
module Coherence {
  import opened Types
  import opened PathMap
  import opened Cell
  import Path

  /** kMaxSnapshotReplay. */
  const REPLAY_CAP: nat := 4096

  /** Ignore rules: whether a path is excluded, given whether it is a directory. */
  type Rules = (Location, bool) -> bool

  /** What the coalescer remembers of a path's events. */
  datatype Event = Touched | Appeared | Vanished

  /** A coalesced event on its way to be resolved. */
  datatype Planned = Planned(path: Location, event: Event)

  /** One broadcast frame: a slice of a batch under the batch's generation. */
  datatype Chunk = Chunk(generation: nat, changes: seq<Change>)

  datatype Flusher =
    | Idle
    | Taken(planned: seq<Planned>, pruned: map<Location, Location>, brought: map<Location, Location>, rescan: bool)
    | Resolving(planned: seq<Planned>, pruned: map<Location, Location>, brought: map<Location, Location>,
                changes: seq<Change>)
    | Sending(changes: seq<Change>)

  datatype Fetch =
    | NoFetch
    | Requested(recorded: seq<Chunk>, lost: bool)
    | Scanning(generation: nat, snapshot: Mirror, seen: iset<Location>, recorded: seq<Chunk>, lost: bool)
    | Ready(generation: nat, snapshot: Mirror, recorded: seq<Chunk>, lost: bool)
    | Finishing(lost: bool)

  datatype State = State(
    disk: Mirror,
    owed: set<Location>,             // changed on disk, event not delivered yet
    pending: map<Location, Event>,   // coalesced events
    carried: map<Location, Location>, // changed along with a directory above, which was reported instead
    overflow: bool,
    generation: nat,
    flusher: Flusher,
    channel: seq<Chunk>,
    mirror: Mirror,
    mode: LookupMode,                // how the client matches removed paths
    sawRescan: bool,                 // the reader met a Rescan and has not raised it yet
    rescanRequested: bool,
    fetch: Fetch,
    stale: bool,                     // the mirror waits for a snapshot that has not been installed
    refused: set<Location>,          // history: upserts the mirror had no room for, not made up for since
    struck: set<Location>,           // history: taken by a removal of another spelling, not made up for since
    stranded: set<Location>,         // history: changes that no later change of the mirror accounts for
    missed: set<Location>)           // history: those of them that the snapshot being taken may lack too

  // --- steps ----------------------------------------------------------------------

  predicate Visible(d: Mirror, p: Location) {
    p in d && !d[p].kind.Other?
  }

  predicate Skipped(rules: Rules, p: Location) {
    rules(p, false) || rules(p, true)
  }

  function Changed(d: Mirror, e: Mirror): set<Location> {
    set p | p in d.Keys + e.Keys && At(d, p) != At(e, p)
  }

  /** A tree whose every name the mirror can hold. */
  ghost predicate DiskOk(d: Mirror) {
    TreeClosed(d) && IsDirectory(d, []) && forall p {:trigger Path.AllValid(p)} :: p in d ==> Path.AllValid(p)
  }

  ghost predicate Init(s: State) {
    && DiskOk(s.disk) && s.owed == {} && s.pending == map[] && s.carried == map[] && !s.overflow && s.flusher.Idle?
    && s.channel == [] && s.mirror == map[[] := IMPLICIT_DIRECTORY] && !s.sawRescan && !s.rescanRequested
    && s.fetch.NoFetch? && s.stale && s.refused == {} && s.struck == {} && s.stranded == {} && s.missed == {}
  }

  /** Anybody changes the disk; every path that differs is owed an event. */
  ghost predicate ChangeDisk(s: State, t: State) {
    && DiskOk(t.disk)
    && t == s.(disk := t.disk, owed := s.owed + Changed(s.disk, t.disk))
  }

  /**
   * The watcher reports a path; after an overflow the report is dropped. A directory that is
   * moved is reported alone: `under` changed with it and gets no event of its own.
   */
  ghost predicate Report(s: State, t: State, p: Location, event: Event, under: set<Location>) {
    && Path.AllValid(p) && (forall q :: q in under ==> p < q)
    && t == s.(owed := s.owed - {p} - under,
               pending := if s.overflow then s.pending else s.pending[p := event],
               carried := if s.overflow then s.carried else s.carried + map q | q in under :: p)
  }

  /** The watcher loses events and says so. */
  ghost predicate Overflow(s: State, t: State, lost: set<Location>) {
    t == s.(owed := s.owed - lost, overflow := true, pending := map[], carried := map[])
  }

  predicate IsPlanned(planned: seq<Planned>, p: Location) {
    exists k :: 0 <= k < |planned| && planned[k].path == p
  }

  predicate IsPlannedAs(planned: seq<Planned>, p: Location, event: Event) {
    Planned(p, event) in planned
  }

  /** Each pruned path lies below a directory that is planned for removal. */
  ghost predicate PrunedOk(planned: seq<Planned>, pruned: map<Location, Location>) {
    forall p {:trigger pruned[p]} :: p in pruned ==> pruned[p] < p && IsPlannedAs(planned, pruned[p], Vanished)
  }

  /** A path brought along lies below a directory that has appeared. */
  ghost predicate BroughtOk(planned: seq<Planned>, brought: map<Location, Location>) {
    forall p {:trigger brought[p]} :: p in brought ==> brought[p] < p && IsPlannedAs(planned, brought[p], Appeared)
  }

  /** Some directory above `p` is planned for removal or for enumeration. */
  predicate CoveredAbove(planned: seq<Planned>, p: Location) {
    exists k :: 0 <= k < |p| && (IsPlannedAs(planned, p[..k], Vanished) || IsPlannedAs(planned, p[..k], Appeared))
  }

  /** Nothing else will resolve `p`. */
  predicate Unreported(s: State, p: Location) {
    p !in s.owed && p !in s.pending && p !in s.carried
  }

  /** The coalescer hands its batch over: one rescan, or every path planned, pruned or brought along. */
  ghost predicate Take(s: State, t: State, planned: seq<Planned>, pruned: map<Location, Location>, brought: map<Location, Location>) {
    && s.flusher.Idle?
    && if s.overflow
       then t == s.(overflow := false, pending := map[], carried := map[], flusher := Taken([], map[], map[], true))
       else
         var left := set p | p in s.carried && p !in s.owed && !IsPlanned(planned, p) && !CoveredAbove(planned, p);
         && (forall k :: 0 <= k < |planned| ==> planned[k].path in s.pending)
         && PrunedOk(planned, pruned) && BroughtOk(planned, brought)
         && (forall p :: p in s.pending ==> IsPlanned(planned, p) || p in pruned)
         && (forall p :: p in s.carried ==> IsPlanned(planned, p) || p in pruned || p in brought || p in s.owed || p in left)
         && t == s.(pending := map[], carried := map[], flusher := Taken(planned, pruned, brought, false),
                    stranded := s.stranded + left, missed := s.missed + left)
  }

  ghost predicate AssignGeneration(s: State, t: State) {
    && s.flusher.Taken?
    && t == s.(generation := s.generation + 1,
               flusher := Resolving(s.flusher.planned, s.flusher.pruned, s.flusher.brought,
                                    if s.flusher.rescan then [Rescan] else []))
  }

  /** What a stat of `p` turns into: nothing for ignored paths and special files. */
  function Resolved(rules: Rules, d: Mirror, p: Location): seq<Change> {
    if Skipped(rules, p) then []
    else if p !in d then [Remove(p)]
    else if d[p].kind.Other? then []
    else [Upsert(p, d[p])]
  }

  function Below(above: map<Location, Location>, q: Location): set<Location> {
    set p | p in above && above[p] == q
  }

  /** What was pruned below the removal planned next. */
  function Under(f: Flusher): set<Location>
    requires f.Resolving? && f.planned != []
  {
    if f.planned[0].event.Vanished? then Below(f.pruned, f.planned[0].path) else {}
  }

  /** What came along with the path planned next, unless that is a directory, which will be enumerated. */
  function Along(f: Flusher, d: Mirror): set<Location>
    requires f.Resolving? && f.planned != []
  {
    if f.planned[0].event.Appeared? && !IsDirectory(d, f.planned[0].path) then Below(f.brought, f.planned[0].path) else {}
  }

  /** A change among `cs` has a fixed outcome at `p`. */
  predicate Decides(cs: seq<Change>, p: Location) {
    exists k :: 0 <= k < |cs| && ActionOf(cs[k], p).Set?
  }

  function Undecided(ps: set<Location>, cs: seq<Change>): set<Location> {
    set p | p in ps && !Decides(cs, p)
  }

  /** Whatever waited for this stat, is not decided by it and will not be reported again. */
  function LeftBehind(s: State, cs: seq<Change>): set<Location>
    requires s.flusher.Resolving? && s.flusher.planned != []
  {
    set p | p in Under(s.flusher) + Along(s.flusher, s.disk) && Unreported(s, p) && !Decides(cs, p)
  }

  /** The batch in hand is newer than the snapshot being taken, if one is. */
  predicate Fresh(s: State) {
    s.fetch.Scanning? || s.fetch.Ready? ==> s.generation > s.fetch.generation
  }

  /** The flusher adds `cs` to its batch and strands `left`; what `cs` decides is stranded no longer. */
  function Extended(s: State, cs: seq<Change>, left: set<Location>): State
    requires s.flusher.Resolving?
  {
    s.(flusher := s.flusher.(changes := s.flusher.changes + cs),
       stranded := Undecided(s.stranded, cs) + left,
       missed := if Fresh(s) then Undecided(s.missed, cs) + left else s.missed)
  }

  /** The flusher stats the next planned path. */
  ghost predicate Resolve(rules: Rules, s: State, t: State) {
    && s.flusher.Resolving? && s.flusher.planned != []
    && var f := s.flusher;
       var cs := Resolved(rules, s.disk, f.planned[0].path);
       var u := Extended(s, cs, LeftBehind(s, cs));
       t == u.(flusher := Resolving(f.planned[1..], f.pruned - Under(f), f.brought - Along(f, s.disk), u.flusher.changes))
  }

  /** Subtree expansion adds a path it found by scanning. */
  ghost predicate Expand(rules: Rules, s: State, t: State, p: Location) {
    && s.flusher.Resolving? && s.flusher.planned == [] && Visible(s.disk, p) && !rules(p, s.disk[p].kind.Directory?)
    && var u := Extended(s, [Upsert(p, s.disk[p])], {});
       t == u.(flusher := u.flusher.(brought := s.flusher.brought - {p}))
  }

  /** ... and passes over one that is not there to be found. */
  ghost predicate Miss(rules: Rules, s: State, t: State, p: Location) {
    && s.flusher.Resolving? && s.flusher.planned == [] && p in s.flusher.brought
    && (!Visible(s.disk, p) || Skipped(rules, p))
    && var u := Extended(s, [], if Unreported(s, p) then {p} else {});
       t == u.(flusher := s.flusher.(brought := s.flusher.brought - {p}))
  }

  /** Too much to expand: what was added is dropped and a rescan asked for. */
  ghost predicate GiveUpExpansion(s: State, t: State, keep: nat) {
    && s.flusher.Resolving? && s.flusher.planned == [] && keep <= |s.flusher.changes|
    && t == s.(flusher := s.flusher.(brought := map[], changes := s.flusher.changes[..keep] + [Rescan]))
  }

  ghost predicate StartSending(s: State, t: State) {
    && s.flusher.Resolving? && s.flusher.planned == [] && s.flusher.brought == map[]
    && t == s.(flusher := Sending(s.flusher.changes))
  }

  ghost predicate SendChunk(s: State, t: State, n: nat) {
    && s.flusher.Sending? && 0 < n <= |s.flusher.changes|
    && t == s.(channel := s.channel + [Chunk(s.generation, s.flusher.changes[..n])],
               flusher := Sending(s.flusher.changes[n..]))
  }

  ghost predicate FinishSending(s: State, t: State) {
    s.flusher.Sending? && s.flusher.changes == [] && t == s.(flusher := Idle)
  }

  /** While a snapshot is in flight every frame is recorded, up to the cap. */
  function Recorded(f: Fetch, c: Chunk): Fetch {
    if f.NoFetch? || f.Finishing? then f
    else if |f.recorded| < REPLAY_CAP then f.(recorded := f.recorded + [c])
    else f.(lost := true)
  }

  /** The client applies a frame; `hits` are its changes as the lookup resolves them. */
  ghost predicate Receive(s: State, t: State, hits: seq<Change>) {
    && s.channel != [] && !s.sawRescan
    && var c := s.channel[0];
       && Aimed(s.mode, s.mirror, c.changes, hits)
       && t == s.(channel := s.channel[1..], mirror := ApplyAll(s.mirror, hits),
                  refused := RefusedAfter(s.mirror, s.refused, c.changes, hits),
                  struck := StruckAfter(s.mirror, s.struck, c.changes, hits),
                  sawRescan := Rescan in c.changes, fetch := Recorded(s.fetch, c))
  }

  ghost predicate SetMode(s: State, t: State, mode: LookupMode) {
    t == s.(mode := mode)
  }

  ghost predicate RaiseRescan(s: State, t: State) {
    s.sawRescan && t == s.(sawRescan := false, rescanRequested := true)
  }

  /** A fetch starts at mount time or because a rescan was requested. */
  ghost predicate StartFetch(s: State, t: State, forRescan: bool) {
    && s.fetch.NoFetch? && (forRescan ==> s.rescanRequested)
    && t == s.(fetch := Requested([], false), rescanRequested := s.rescanRequested && !forRescan,
               stale := s.stale || forRescan)
  }

  /** The agent stamps the snapshot with its generation before it scans. */
  ghost predicate Stamp(s: State, t: State) {
    && s.fetch.Requested?
    && t == s.(fetch := Scanning(s.generation, map[[] := IMPLICIT_DIRECTORY], iset{}, s.fetch.recorded, s.fetch.lost),
               missed := {})
  }

  predicate Scannable(rules: Rules, d: Mirror, snapshot: Mirror, p: Location) {
    p != [] && Visible(d, p) && !rules(p, d[p].kind.Directory?) && IsDirectory(snapshot, Parent(p))
  }

  /** At one moment the scan reads any set of paths whose directories it has already read. */
  ghost predicate Visit(rules: Rules, s: State, t: State, ps: iset<Location>) {
    && s.fetch.Scanning?
    && (forall p :: p in ps ==> p != [] && p !in s.fetch.seen && (Parent(p) == [] || Parent(p) in s.fetch.seen))
    && t == s.(fetch := s.fetch.(
         snapshot := s.fetch.snapshot
                     + map p | p in s.disk && p in ps && Scannable(rules, s.disk, s.fetch.snapshot, p) :: s.disk[p],
         seen := s.fetch.seen + ps))
  }

  /** `p` has been read, or lies below something read that is no directory of the snapshot. */
  ghost predicate Settled(f: Fetch, p: Location)
    requires f.Scanning?
  {
    exists k :: 0 < k <= |p| && p[..k] in f.seen && (k == |p| || !IsDirectory(f.snapshot, p[..k]))
  }

  ghost predicate FinishScan(s: State, t: State) {
    && s.fetch.Scanning? && (forall p: Location :: p != [] ==> Settled(s.fetch, p))
    && t == s.(fetch := Ready(s.fetch.generation, s.fetch.snapshot, s.fetch.recorded, s.fetch.lost))
  }

  ghost predicate FailFetch(s: State, t: State) {
    !s.fetch.NoFetch? && !s.fetch.Finishing? && t == s.(fetch := NoFetch)
  }

  /** The changes of the frames newer than `g`, in order. */
  function After(cs: seq<Chunk>, g: nat): seq<Change> {
    if cs == [] then []
    else After(cs[..|cs| - 1], g) + (if cs[|cs| - 1].generation > g then cs[|cs| - 1].changes else [])
  }

  /** ... and those of the rest. */
  function Before(cs: seq<Chunk>, g: nat): seq<Change> {
    if cs == [] then []
    else Before(cs[..|cs| - 1], g) + (if cs[|cs| - 1].generation > g then [] else cs[|cs| - 1].changes)
  }

  function All(cs: seq<Chunk>): seq<Change> {
    if cs == [] then [] else All(cs[..|cs| - 1]) + cs[|cs| - 1].changes
  }

  /** What is still on its way to the client although the snapshot was taken after it. */
  function Older(s: State, g: nat): seq<Change> {
    Before(s.channel, g) + (if s.generation > g then [] else Unsent(s.flusher))
  }

  /**
   * A snapshot recovers everything stranded before it was stamped, except where an older change
   * that is still on its way will be applied to it, or where it has to be fetched again anyway.
   */
  ghost function StillStranded(s: State): set<Location>
    requires s.fetch.Ready?
  {
    s.missed + if RescanDue(s) || s.fetch.lost then s.stranded
               else set p | p in s.stranded && !ActionOfAll(Older(s, s.fetch.generation), p).Keep?
  }

  /** The client loads the snapshot and replays, by exact spelling, what the scan may have missed. */
  ghost predicate Install(s: State, t: State) {
    && s.fetch.Ready?
    && var replay := After(s.fetch.recorded, s.fetch.generation);
       t == s.(mirror := ApplyAll(s.fetch.snapshot, replay), stale := false, fetch := Finishing(s.fetch.lost),
               refused := RefusedAfter(s.fetch.snapshot, {}, replay, replay), struck := {},
               stranded := StillStranded(s))
  }

  ghost predicate FinishFetch(s: State, t: State) {
    && s.fetch.Finishing?
    && t == s.(fetch := NoFetch, rescanRequested := s.rescanRequested || s.fetch.lost)
  }

  /** The disk, the watcher and the coalescer. */
  ghost predicate FromDisk(s: State, t: State) {
    || ChangeDisk(s, t)
    || (exists p, event, under :: Report(s, t, p, event, under))
    || (exists lost :: Overflow(s, t, lost))
    || (exists planned, pruned, brought :: Take(s, t, planned, pruned, brought))
    || AssignGeneration(s, t)
  }

  /** The flusher. */
  ghost predicate FromFlusher(rules: Rules, s: State, t: State) {
    || Resolve(rules, s, t)
    || (exists p :: Expand(rules, s, t, p))
    || (exists p :: Miss(rules, s, t, p))
    || (exists keep :: GiveUpExpansion(s, t, keep))
    || StartSending(s, t)
    || (exists n :: SendChunk(s, t, n))
    || FinishSending(s, t)
  }

  /** The client and the snapshots it fetches. */
  ghost predicate FromClient(rules: Rules, s: State, t: State) {
    || (exists hits :: Receive(s, t, hits))
    || (exists mode :: SetMode(s, t, mode))
    || RaiseRescan(s, t)
    || (exists forRescan :: StartFetch(s, t, forRescan))
    || Stamp(s, t)
    || (exists ps :: Visit(rules, s, t, ps))
    || FinishScan(s, t)
    || FailFetch(s, t)
    || Install(s, t)
    || FinishFetch(s, t)
  }

  ghost predicate Next(rules: Rules, s: State, t: State) {
    FromDisk(s, t) || FromFlusher(rules, s, t) || FromClient(rules, s, t)
  }

  // --- the invariant --------------------------------------------------------------

  /** Changes resolved but not sent yet. */
  function Unsent(f: Flusher): seq<Change> {
    if f.Resolving? || f.Sending? then f.changes else []
  }

  /** Everything the client has still to apply. */
  function Ahead(s: State): seq<Change> {
    All(s.channel) + Unsent(s.flusher)
  }

  /** The part of what was recorded or is still to come that an install would not discard. */
  function Newer(s: State, g: nat, recorded: seq<Chunk>): seq<Change> {
    After(recorded, g) + After(s.channel, g) + (if s.generation > g then Unsent(s.flusher) else [])
  }

  predicate Awaited(f: Flusher, p: Location)
    requires f.Taken? || f.Resolving?
  {
    IsPlanned(f.planned, p) || p in f.pruned || p in f.brought
  }

  /** A later change of this path is certain to be resolved. */
  predicate Dirty(s: State, p: Location) {
    || !Unreported(s, p)
    || ((s.flusher.Taken? || s.flusher.Resolving?) && Awaited(s.flusher, p))
  }

  /** ... and resolved in a batch newer than `g`. */
  predicate DirtySince(s: State, p: Location, g: nat) {
    || !Unreported(s, p)
    || ((s.flusher.Taken? || (s.flusher.Resolving? && s.generation > g)) && Awaited(s.flusher, p))
  }

  predicate RescanAhead(s: State) {
    Rescan in Ahead(s) || (s.flusher.Taken? && s.flusher.rescan)
  }

  /** Another snapshot is certain to be fetched. */
  predicate RescanDue(s: State) {
    s.sawRescan || s.rescanRequested || s.overflow || RescanAhead(s)
  }

  predicate Matches(d: Mirror, p: Location, v: Option<Attributes>) {
    (p in d && d[p].kind.Other?) || v == At(d, p)
  }

  /** Paths the theorem speaks of. */
  predicate Clean(rules: Rules, p: Location) {
    p != [] && !Skipped(rules, p)
  }

  /** `p` is where a received change was refused or aimed at another path, and nothing has made up for it. */
  predicate Astray(s: State, p: Location) {
    p in s.refused + s.struck
  }

  /** `v` is what the changes received so far make of `p`. */
  predicate Standing(s: State, p: Location, v: Option<Attributes>) {
    Stands(s.mirror, s.refused + s.struck, p, v)
  }

  /** A cell holding `v`, once what is ahead has been applied to it, agrees with the disk at `p`. */
  ghost predicate Heads(s: State, p: Location, v: Option<Attributes>) {
    || s.stale || RescanDue(s) || (s.fetch.Finishing? && s.fetch.lost) || Dirty(s, p)
    || Matches(s.disk, p, Run(ActionOfAll(Ahead(s), p), v))
  }

  /** What the client has been told about `p` leads to what the disk holds. */
  ghost predicate MirrorAgrees(s: State, p: Location) {
    exists v {:trigger Standing(s, p, v)} :: Standing(s, p, v) && (p in s.stranded || Heads(s, p, v))
  }

  /** What the snapshot holds, or will hold, at `p`. */
  ghost function SnapshotAt(s: State, p: Location): Option<Attributes>
    requires s.fetch.Scanning? || s.fetch.Ready?
  {
    if s.fetch.Ready? || Settled(s.fetch, p) then At(s.fetch.snapshot, p) else At(s.disk, p)
  }

  ghost predicate SnapshotAgrees(s: State, p: Location) {
    s.fetch.Scanning? || s.fetch.Ready? ==>
      || RescanDue(s) || s.fetch.lost || DirtySince(s, p, s.fetch.generation)
      || Matches(s.disk, p, Run(ActionOfAll(Newer(s, s.fetch.generation, s.fetch.recorded), p), SnapshotAt(s, p)))
  }

  /** The action of the changes after the last Rescan. */
  function TailAction(cs: seq<Change>, p: Location): Action {
    if cs == [] || cs[|cs| - 1].Rescan? then Keep
    else Then(TailAction(cs[..|cs| - 1], p), ActionOf(cs[|cs| - 1], p))
  }

  /** What the changes ahead claim about `p`, whatever they are applied to, is true. */
  ghost predicate Truthful(d: Mirror, p: Location, a: Action) {
    match a
    case Keep => true
    case Fill => p in d
    case Set(v) => Matches(d, p, v)
  }

  ghost predicate TailAgrees(s: State, p: Location) {
    || s.overflow || (s.flusher.Taken? && s.flusher.rescan) || Dirty(s, p)
    || Truthful(s.disk, p, TailAction(Ahead(s), p))
  }

  ghost predicate Agrees(s: State, p: Location) {
    MirrorAgrees(s, p) && (p in s.missed || SnapshotAgrees(s, p)) && (p in s.stranded || TailAgrees(s, p))
  }

  /** Generations never decrease along the recorded and queued frames, and none is ahead of the agent's. */
  predicate Ordered(cs: seq<Chunk>, top: nat) {
    && (forall k :: 0 <= k < |cs| ==> cs[k].generation <= top)
    && (forall j, k :: 0 <= j < k < |cs| ==> cs[j].generation <= cs[k].generation)
  }

  ghost predicate Above(brought: map<Location, Location>) {
    forall p {:trigger brought[p]} :: p in brought ==> brought[p] < p
  }

  function RecordedOf(f: Fetch): seq<Chunk> {
    if f.NoFetch? || f.Finishing? then [] else f.recorded
  }

  ghost predicate Base(s: State) {
    && DiskOk(s.disk) && TreeClosed(s.mirror)
    && Ordered(RecordedOf(s.fetch) + s.channel, s.generation)
    && (s.fetch.Scanning? || s.fetch.Ready? ==>
          s.fetch.generation <= s.generation && TreeClosed(s.fetch.snapshot) && IsDirectory(s.fetch.snapshot, []))
    && (s.fetch.Scanning? ==> forall p :: p in s.fetch.snapshot && p != [] ==> p in s.fetch.seen)
    && (s.flusher.Taken? || s.flusher.Resolving? ==> PrunedOk(s.flusher.planned, s.flusher.pruned) && Above(s.flusher.brought))
  }

  ghost predicate Inv(rules: Rules, s: State) {
    Base(s) && forall p {:trigger Agrees(s, p)} :: Clean(rules, p) ==> Agrees(s, p)
  }

  /** Nothing is waiting to be reported, flushed, delivered or fetched. */
  ghost predicate Quiescent(s: State) {
    && s.owed == {} && s.pending == map[] && s.carried == map[] && !s.overflow && s.flusher.Idle? && s.channel == []
    && s.fetch.NoFetch? && !s.rescanRequested && !s.sawRescan
  }

  /** Excluding a directory excludes everything below it. */
  ghost predicate Downward(rules: Rules) {
    forall a, p :: a <= p && a != [] && Skipped(rules, a) ==> Skipped(rules, p)
  }
}
