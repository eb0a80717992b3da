/**
 * Cached contents against concurrent writes, for one mirrored file. A read-ahead captures the
 * mirror's version, fetches, and caches what it got under that version; a write changes the
 * remote file and then moves the mirror's version on; a snapshot or an invalidation may set
 * that version to anything. A read takes the mirror's version and is served from the cache if
 * an entry carries the same one.
 */
module ReadVersions {
  import opened Types

  datatype Version = Version(mtimeNs: int, size: nat)

  /** Contents fetched at moment `at` and labelled with the version captured before. */
  datatype Fetched = Fetched(version: Version, at: nat)

  /** A read that took the mirror's version when every mutation up to `floor` had returned. */
  datatype Reader = Reader(version: Version, floor: int)

  datatype State = State(
    clock: nat,
    version: Version,              // in the mirror
    captured: set<Version>,        // by read-aheads that have not fetched yet
    fetched: set<Fetched>,         // not cached yet
    cache: Option<Fetched>,
    effects: set<nat>,             // moments at which writes took effect remotely
    floor: int,                    // latest effect of a write that has returned; -1 if none has
    readers: set<Reader>,
    floors: map<Version, int>)     // history: the floor when each version became current

  ghost predicate Init(s: State) {
    && s.captured == {} && s.fetched == {} && s.cache.None? && s.effects == {} && s.floor == -1 && s.readers == {}
    && s.floors == map[s.version := -1]
  }

  function Bumped(now: int, previous: int): (mtimeNs: int)
    ensures mtimeNs >= now && mtimeNs > previous && (mtimeNs == now || mtimeNs == previous + 1)
  {
    if now > previous + 1 then now else previous + 1
  }

  ghost predicate Capture(s: State, t: State) {
    t == s.(captured := s.captured + {s.version})
  }

  /** The agent reads the file. A capture may be used again, which covers several read-aheads. */
  ghost predicate Fetch(s: State, t: State, v: Version) {
    v in s.captured && t == s.(clock := s.clock + 1, fetched := s.fetched + {Fetched(v, s.clock)})
  }

  ghost predicate CachePut(s: State, t: State, f: Fetched) {
    f in s.fetched && t == s.(cache := Some(f))
  }

  /** drop_cached, an eviction, an invalidation. */
  ghost predicate Drop(s: State, t: State) {
    t == s.(cache := None)
  }

  /** A write or truncate takes effect remotely. */
  ghost predicate Effect(s: State, t: State) {
    t == s.(clock := s.clock + 1, effects := s.effects + {s.clock})
  }

  /** ... and returns, having moved the mirror's version on. */
  ghost predicate Return(s: State, t: State, e: nat, now: int, size: nat) {
    && e in s.effects
    && var mtime := Bumped(now, s.version.mtimeNs);
       var floor := if e > s.floor then e else s.floor;
       t == s.(version := Version(mtime, size), floor := floor, floors := s.floors[Version(mtime, size) := floor])
  }

  /** Something other than a write sets the mirror's version, as installing a snapshot does. */
  ghost predicate External(s: State, t: State, v: Version) {
    t == s.(version := v, floors := s.floors[v := s.floor])
  }

  ghost predicate Resolve(s: State, t: State) {
    t == s.(readers := s.readers + {Reader(s.version, s.floor)})
  }

  ghost predicate Next(s: State, t: State) {
    || Capture(s, t)
    || (exists v :: Fetch(s, t, v))
    || (exists f :: CachePut(s, t, f))
    || Drop(s, t)
    || Effect(s, t)
    || (exists e, now, size :: Return(s, t, e, now, size))
    || (exists v :: External(s, t, v))
    || Resolve(s, t)
  }

  /** The reader is served from the cache. */
  predicate Hits(s: State, r: Reader) {
    r in s.readers && s.cache.Some? && s.cache.value.version == r.version
  }

  ghost predicate Trace(run: seq<State>) {
    run != [] && Init(run[0]) && forall k :: 0 <= k < |run| - 1 ==> Next(run[k], run[k + 1])
  }

  // --- the invariant --------------------------------------------------------------------------

  /** A version that was current before becomes current again. */
  predicate Recurs(s: State, t: State) {
    t.version != s.version && t.version in s.floors
  }

  /** What is labelled with a version was fetched after every effect that version accounts for. */
  predicate FetchedAfter(s: State, f: Fetched) {
    f.version in s.floors && f.at > s.floors[f.version]
  }

  predicate ReaderKnown(s: State, r: Reader) {
    r.version in s.floors && r.floor == s.floors[r.version]
  }

  ghost predicate Inv(s: State) {
    && (forall e :: e in s.effects ==> e < s.clock)
    && (forall v :: v in s.floors ==> s.floors[v] < s.clock)
    && s.version in s.floors && s.floors[s.version] == s.floor
    && (forall v :: v in s.captured ==> v in s.floors)
    && (forall f {:trigger FetchedAfter(s, f)} :: f in s.fetched ==> FetchedAfter(s, f))
    && (s.cache.Some? ==> FetchedAfter(s, s.cache.value))
    && (forall r {:trigger ReaderKnown(s, r)} :: r in s.readers ==> ReaderKnown(s, r))
  }

  lemma FetchInv(s: State, t: State, v: Version)
    requires Inv(s) && Fetch(s, t, v)
    ensures Inv(t)
  {
    forall f | f in t.fetched ensures FetchedAfter(t, f) {
      assert f in s.fetched ==> FetchedAfter(s, f);
    }
    forall r | r in t.readers ensures ReaderKnown(t, r) {
      assert ReaderKnown(s, r);
    }
  }

  /** No label carries a version that has never been current, so nothing old can be mistaken for new. */
  lemma NewVersionInv(s: State, t: State)
    requires Inv(s) && !Recurs(s, t)
    requires (exists e, now, size :: Return(s, t, e, now, size)) || (exists v :: External(s, t, v))
    ensures Inv(t)
  {
    forall f | f in t.fetched ensures FetchedAfter(t, f) {
      assert FetchedAfter(s, f);
    }
    forall r | r in t.readers ensures ReaderKnown(t, r) {
      assert ReaderKnown(s, r);
    }
  }

  lemma OtherInv(s: State, t: State)
    requires Inv(s) && (Capture(s, t) || Drop(s, t) || Effect(s, t) || Resolve(s, t) || exists f :: CachePut(s, t, f))
    ensures Inv(t)
  {
    forall f | f in t.fetched ensures FetchedAfter(t, f) {
      assert FetchedAfter(s, f);
    }
    forall r | r in t.readers ensures ReaderKnown(t, r) {
      assert r in s.readers ==> ReaderKnown(s, r);
    }
    if t.cache.Some? && t.cache != s.cache {
      assert FetchedAfter(s, t.cache.value);
    }
  }

  lemma NextInv(s: State, t: State)
    requires Inv(s) && Next(s, t) && !Recurs(s, t)
    ensures Inv(t)
  {
    if v :| Fetch(s, t, v) {
      FetchInv(s, t, v);
    } else if Capture(s, t) || Drop(s, t) || Effect(s, t) || Resolve(s, t) || exists f :: CachePut(s, t, f) {
      OtherInv(s, t);
    } else {
      NewVersionInv(s, t);
    }
  }

  /** The step out of state `n` brings a version back. */
  predicate Back(run: seq<State>, n: nat) {
    n + 1 < |run| && Recurs(run[n], run[n + 1])
  }

  /** Up to state `k` no version has come back. */
  ghost predicate NeverBack(run: seq<State>, k: nat) {
    forall n: nat {:trigger Back(run, n)} :: n < k ==> !Back(run, n)
  }

  lemma {:induction false} Reachable(run: seq<State>, k: nat)
    requires Trace(run) && k < |run| && NeverBack(run, k)
    ensures Inv(run[k])
  {
    if k > 0 {
      Reachable(run, k - 1);
      assert !Back(run, k - 1);
      NextInv(run[k - 1], run[k - 1 + 1]);
    }
  }

  lemma {:induction false} FloorGrows(run: seq<State>, i: nat, j: nat)
    requires Trace(run) && i <= j < |run|
    ensures run[i].floor <= run[j].floor
    decreases j
  {
    if i < j {
      FloorGrows(run, i, j - 1);
      assert Next(run[j - 1], run[j - 1 + 1]);
    }
  }

  /** A hit is always on contents fetched after every write that had returned when the read began. */
  lemma HitAfterFloor(run: seq<State>, k: nat, r: Reader)
    requires Trace(run) && k < |run| && NeverBack(run, k) && Hits(run[k], r)
    ensures run[k].cache.value.at > r.floor
  {
    Reachable(run, k);
    assert ReaderKnown(run[k], r) && FetchedAfter(run[k], run[k].cache.value);
  }

  /**
   * A write returns, then a read begins, then it hits: its bytes were fetched after the write's effect,
   * in every run in which no version has come back.
   */
  lemma NoStaleHit(run: seq<State>, i: nat, j: nat, k: nat, e: nat, now: int, size: nat)
    requires Trace(run) && i < j < k < |run| && NeverBack(run, k)
    requires Return(run[i], run[i + 1], e, now, size) && Resolve(run[j], run[j + 1])
    requires Hits(run[k], Reader(run[j].version, run[j].floor))
    ensures run[k].cache.value.at > e
  {
    FloorGrows(run, i + 1, j);
    HitAfterFloor(run, k, Reader(run[j].version, run[j].floor));
  }

  /** So a hit on older bytes takes a version that was current before and became current again. */
  lemma StaleHitNeedsRecurrence(run: seq<State>, i: nat, j: nat, k: nat, e: nat, now: int, size: nat) returns (n: nat)
    requires Trace(run) && i < j < k < |run|
    requires Return(run[i], run[i + 1], e, now, size) && Resolve(run[j], run[j + 1])
    requires Hits(run[k], Reader(run[j].version, run[j].floor)) && run[k].cache.value.at <= e
    ensures n < k && Back(run, n)
  {
    if NeverBack(run, k) {
      NoStaleHit(run, i, j, k, e, now, size);
    }
    n :| n < k && Back(run, n);
  }

  // --- when versions cannot come back -----------------------------------------------------------

  /** Everything but a write leaves the version alone or moves the modification time on. */
  ghost predicate Rises(s: State, t: State) {
    forall v :: External(s, t, v) ==> v == s.version || v.mtimeNs > s.version.mtimeNs
  }

  ghost predicate Rising(run: seq<State>) {
    forall k {:trigger Back(run, k)} :: 0 <= k < |run| - 1 ==> Rises(run[k], run[k + 1])
  }

  predicate Newest(s: State) {
    && s.version in s.floors
    && forall v {:trigger v in s.floors} :: v in s.floors ==> v == s.version || v.mtimeNs < s.version.mtimeNs
  }

  /** A write bumps the modification time past every one that has been current. */
  lemma NewestKept(s: State, t: State)
    requires Newest(s) && Next(s, t) && Rises(s, t)
    ensures Newest(t) && !Recurs(s, t)
  {
    if e, now, size :| Return(s, t, e, now, size) {
      assert t.version.mtimeNs > s.version.mtimeNs;
    } else if v :| External(s, t, v) {
    } else {
      assert t.version == s.version && t.floors == s.floors;
    }
  }

  lemma {:induction false} RisingNeverBack(run: seq<State>, k: nat)
    requires Trace(run) && k < |run| && Rising(run)
    ensures Newest(run[k]) && NeverBack(run, k)
  {
    if k > 0 {
      RisingNeverBack(run, k - 1);
      var s, t := run[k - 1], run[k - 1 + 1];
      assert Back(run, k - 1) <==> Recurs(s, t);
      NewestKept(s, t);
    }
  }

  // --- what it rests on -----------------------------------------------------------------------

  const OLD := Version(5, 1)
  const NEW := Version(6, 1)

  /** A fetch before a write, cached after a snapshot has put the old version back. */
  function Reverted(): seq<State> {
    var s0 := State(0, OLD, {}, {}, None, {}, -1, {}, map[OLD := -1]);
    var s1 := s0.(captured := {OLD});
    var s2 := s1.(clock := 1, fetched := {Fetched(OLD, 0)});
    var s3 := s2.(clock := 2, effects := {1});
    var s4 := s3.(version := NEW, floor := 1, floors := map[OLD := -1, NEW := 1]);
    var s5 := s4.(version := OLD, floors := map[OLD := 1, NEW := 1]);
    var s6 := s5.(cache := Some(Fetched(OLD, 0)));
    [s0, s1, s2, s3, s4, s5, s6, s6.(readers := {Reader(OLD, 1)})]
  }

  lemma RevertedSteps()
    ensures var r := Reverted();
            && Next(r[0], r[1]) && Next(r[1], r[2]) && Next(r[2], r[3])
            && Return(r[3], r[4], 1, 0, 1) && External(r[4], r[5], OLD)
            && Next(r[5], r[6]) && Resolve(r[6], r[7])
  {
    var r := Reverted();
    assert Capture(r[0], r[1]);
    assert Fetch(r[1], r[2], OLD);
    assert Effect(r[2], r[3]);
    assert CachePut(r[5], r[6], Fetched(OLD, 0));
  }

  /** When the old version does come back, a hit can serve bytes older than a write that had returned. */
  lemma RevertedVersionServesStale()
    ensures var r := Reverted();
            && Trace(r) && Return(r[3], r[4], 1, 0, 1) && External(r[4], r[5], OLD) && Recurs(r[4], r[5])
            && Resolve(r[6], r[7]) && Hits(r[7], Reader(r[6].version, r[6].floor)) && r[7].cache.value.at < 1
  {
    var r := Reverted();
    RevertedSteps();
    forall k | 0 <= k < |r| - 1 ensures Next(r[k], r[k + 1]) {
      assert k == 0 || k == 1 || k == 2 || k == 3 || k == 4 || k == 5 || k == 6;
    }
  }
}
