/** The client's tree under a batch: each op does to it what the coherence protocol says a change does to the mirror. */
module ClientTree {
  import opened Types
  import opened PathMap
  import opened CaseFold
  import opened Cell
  import opened TreeModel
  import opened TreeIndex
  import opened TreeOps
  import opened MetadataTree
  import AckOrder
  import Path

  /** Changes whose paths are text the tree reads back as meant. */
  predicate Legal(c: Change) {
    c.Rescan? || Path.AllValid(c.path)
  }

  lemma {:induction false} LegalText(p: Location)
    requires Path.AllValid(p)
    ensures Path.Components(Path.Join(p)) == p && Path.NoDotDot(p)
  {
    Path.ComponentsOfJoin(p);
  }

  lemma RemovalMissed(r: Rep, exact: bool, p: Location)
    requires Consistent(r) && Path.NoDotDot(p) && Resolves(r, exact, p, None)
    ensures p !in View(r) && Removed(View(r), p) == View(r)
  {
    ConsistentTree(r);
    if exact {
      ResolvesExactly(r, p, None);
    }
    NothingBelow(View(r), p);
  }

  lemma Spelt(r: Rep, p: Location, id: int)
    requires Consistent(r) && p in r.at && r.at[p] == id
    ensures 0 <= id < |r.paths| && r.paths[id] == p
  {
    assert AtEntry(r.nodes, r.paths, r.at, p);
  }

  lemma Held(r: Rep, id: int)
    requires Consistent(r) && Live(r.nodes, id) && id < |r.paths|
    ensures r.paths[id] in View(r) && (id == 0 ==> r.paths[id] == [])
  {
    assert PathEntry(r.paths, r.at, id);
  }

  /** Whatever a lookup resolves a removal to is a path the removal may be aimed at. */
  lemma RemovalAims(r: Rep, mode: LookupMode, p: Location, id: int)
    requires Consistent(r) && Path.NoDotDot(p) && Resolves(r, mode.Exact?, p, Some(id))
    ensures Aims(mode, View(r), Remove(p), Remove(r.paths[id])) && (id == 0 ==> r.paths[id] == [])
  {
    Held(r, id);
    if mode.Exact? {
      ResolvesExactly(r, p, Some(id));
    }
    if p in r.at {
      Spelt(r, p, id);
    }
  }

  method ApplyRemove(t: Tree, p: Location, mode: LookupMode) returns (ghost hit: Change)
    requires t.Valid() && Path.AllValid(p)
    modifies t
    ensures t.Valid() && Aims(mode, old(t.Contents()), Remove(p), hit) && t.Contents() == Apply(old(t.Contents()), hit)
  {
    ghost var r0 := t.Fields();
    LegalText(p);
    var r, found := t.RemovePath(Path.Join(p), mode);
    if found.Some? {
      RemovalAims(r0, mode, p, found.value);
      hit := Remove(r0.paths[found.value]);
    } else {
      RemovalMissed(r0, mode.Exact?, p);
      hit := Remove(p);
    }
  }

  method ApplyOne(t: Tree, c: Change, mode: LookupMode) returns (ghost hit: Change)
    requires t.Valid() && Legal(c)
    modifies t
    ensures t.Valid() && Aims(mode, old(t.Contents()), c, hit) && t.Contents() == Apply(old(t.Contents()), hit)
  {
    hit := c;
    match c {
      case Upsert(p, attr) =>
        LegalText(p);
        var r := t.UpsertPath(Path.Join(p), attr);
      case Remove(p) =>
        hit := ApplyRemove(t, p, mode);
      case Rescan =>
    }
  }

  lemma {:induction false} AimsAgain(mode: LookupMode, m: Mirror, cs: seq<Change>, hits: seq<Change>, hit: Change, j: nat)
    requires Aimed(mode, m, cs, hits) && j < |cs|
    ensures Aims(mode, ApplyAll(m, (hits + [hit])[..j]), cs[j], (hits + [hit])[j])
  {
    assert (hits + [hit])[..j] == hits[..j] && (hits + [hit])[j] == hits[j];
  }

  lemma {:induction false} AimedMore(mode: LookupMode, m: Mirror, cs: seq<Change>, hits: seq<Change>, k: nat, hit: Change)
    requires k < |cs| && Aimed(mode, m, cs[..k], hits) && Aims(mode, ApplyAll(m, hits), cs[k], hit)
    ensures Aimed(mode, m, cs[..k + 1], hits + [hit]) && ApplyAll(m, hits + [hit]) == Apply(ApplyAll(m, hits), hit)
  {
    var all := hits + [hit];
    assert all[..k] == hits && all[k] == hit;
    forall j | 0 <= j < k + 1 ensures Aims(mode, ApplyAll(m, all[..j]), cs[..k + 1][j], all[j]) {
      if j < k {
        AimsAgain(mode, m, cs[..k], hits, hit, j);
        assert cs[..k][j] == cs[..k + 1][j];
      }
    }
  }

  /** The loop of apply_invalidation over one batch. */
  method ApplyBatch(t: Tree, cs: seq<Change>, mode: LookupMode) returns (ghost hits: seq<Change>)
    requires t.Valid() && forall k :: 0 <= k < |cs| ==> Legal(cs[k])
    modifies t
    ensures t.Valid() && Aimed(mode, old(t.Contents()), cs, hits) && t.Contents() == ApplyAll(old(t.Contents()), hits)
  {
    ghost var m := t.Contents();
    hits := [];
    assert cs[..0] == [];
    for k := 0 to |cs|
      invariant t.Valid() && Aimed(mode, m, cs[..k], hits) && t.Contents() == ApplyAll(m, hits)
    {
      ghost var hit := ApplyOne(t, cs[k], mode);
      AimedMore(mode, m, cs, hits, k, hit);
      hits := hits + [hit];
    }
    assert cs[..|cs|] == cs;
  }

  // --- a batch against the client's own mutations ---------------------------------------------

  /** Whether no record is as new as the batch; a rescan is never held back. */
  predicate Passes(r: AckOrder.Records, generation: nat, c: Change) {
    c.Rescan? || (Path.Join(c.path) in r ==> generation > r[Path.Join(c.path)])
  }

  /** Some change before place `n` speaks of the path with this text. */
  predicate Spoken(cs: seq<Change>, n: nat, text: Name) {
    exists k :: 0 <= k < n && k < |cs| && !cs[k].Rescan? && Path.Join(cs[k].path) == text
  }

  /** The records after the first `n` changes: overtaken ones are retired, the others as they were. */
  ghost predicate Retired(r: AckOrder.Records, now: AckOrder.Records, generation: nat, cs: seq<Change>, n: nat) {
    forall text {:trigger text in now} ::
      && (text in now <==> text in r && (generation <= r[text] || !Spoken(cs, n, text)))
      && (text in now ==> now[text] == r[text])
  }

  /** The changes at the given places. */
  function Picked(cs: seq<Change>, picks: seq<nat>): seq<Change>
    requires forall i :: 0 <= i < |picks| ==> picks[i] < |cs|
  {
    seq(|picks|, i requires 0 <= i < |picks| => cs[picks[i]])
  }

  /** `picks` are the places below `n` of the changes that pass, in order. */
  ghost predicate Chosen(r: AckOrder.Records, generation: nat, cs: seq<Change>, n: nat, picks: seq<nat>) {
    && (forall i, j :: 0 <= i < j < |picks| ==> picks[i] < picks[j])
    && (forall k: nat {:trigger k in picks} :: k in picks <==> k < n && k < |cs| && Passes(r, generation, cs[k]))
  }

  lemma ChosenBounds(r: AckOrder.Records, generation: nat, cs: seq<Change>, n: nat, picks: seq<nat>)
    requires Chosen(r, generation, cs, n, picks)
    ensures forall i :: 0 <= i < |picks| ==> picks[i] < n && picks[i] < |cs|
  {
    forall i | 0 <= i < |picks| ensures picks[i] < n && picks[i] < |cs| {
      assert picks[i] in picks;
    }
  }

  lemma ChosenMore(r: AckOrder.Records, generation: nat, cs: seq<Change>, n: nat, picks: seq<nat>)
    requires n < |cs| && Chosen(r, generation, cs, n, picks)
    ensures Chosen(r, generation, cs, n + 1, if Passes(r, generation, cs[n]) then picks + [n] else picks)
  {
    ChosenBounds(r, generation, cs, n, picks);
    forall k: nat ensures k in picks + [n] <==> k in picks || k == n {
    }
  }

  lemma SpokenMore(cs: seq<Change>, n: nat, text: Name)
    requires n < |cs|
    ensures Spoken(cs, n + 1, text) <==> Spoken(cs, n, text) || (!cs[n].Rescan? && Path.Join(cs[n].path) == text)
  {
  }

  /** An op is held back or let through by the records as they stood when the batch came in. */
  lemma SameVerdict(r: AckOrder.Records, now: AckOrder.Records, generation: nat, cs: seq<Change>, n: nat, text: Name)
    requires Retired(r, now, generation, cs, n)
    ensures (text in now ==> generation > now[text]) <==> (text in r ==> generation > r[text])
  {
    assert text in now <==> text in r && (generation <= r[text] || !Spoken(cs, n, text));
  }

  lemma RetiredMore(r: AckOrder.Records, now: AckOrder.Records, next: AckOrder.Records, generation: nat, cs: seq<Change>, n: nat)
    requires n < |cs| && Retired(r, now, generation, cs, n)
    requires if cs[n].Rescan? then next == now
             else next == if Passes(r, generation, cs[n]) then now - {Path.Join(cs[n].path)} else now
    ensures Retired(r, next, generation, cs, n + 1)
  {
    forall text ensures text in next <==> text in r && (generation <= r[text] || !Spoken(cs, n + 1, text))
                ensures text in next ==> next[text] == r[text]
    {
      SpokenMore(cs, n, text);
      assert text in now <==> text in r && (generation <= r[text] || !Spoken(cs, n, text));
    }
  }

  /** One op of the batch: held back, or applied to the tree. */
  method ApplyUnlessStale(t: Tree, table: AckOrder.Table, c: Change, generation: nat, mode: LookupMode)
    returns (passed: bool, ghost hit: Change)
    requires t.Valid() && Legal(c)
    modifies t, table
    ensures t.Valid() && passed == Passes(old(table.records), generation, c)
    ensures passed ==> Aims(mode, old(t.Contents()), c, hit) && t.Contents() == Apply(old(t.Contents()), hit)
    ensures !passed ==> t.Contents() == old(t.Contents())
    ensures table.records == if passed && !c.Rescan? then old(table.records) - {Path.Join(c.path)} else old(table.records)
  {
    hit := c;
    passed := true;
    if !c.Rescan? {
      passed := table.Admit(Path.Join(c.path), generation);
    }
    if passed {
      hit := ApplyOne(t, c, mode);
    }
  }

  /** Where the loop stands before change `n`, from a tree holding `m` and records `r`. */
  ghost predicate Reached(m: Mirror, r: AckOrder.Records, mode: LookupMode, generation: nat, cs: seq<Change>, n: nat,
                          m': Mirror, r': AckOrder.Records, picks: seq<nat>, hits: seq<Change>) {
    && n <= |cs| && Chosen(r, generation, cs, n, picks) && Retired(r, r', generation, cs, n)
    && (forall i :: 0 <= i < |picks| ==> picks[i] < |cs|) && Aimed(mode, m, Picked(cs, picks), hits)
    && m' == ApplyAll(m, hits)
  }

  lemma ReachedNext(m: Mirror, r: AckOrder.Records, mode: LookupMode, generation: nat, cs: seq<Change>, n: nat,
                    m': Mirror, r': AckOrder.Records, picks: seq<nat>, hits: seq<Change>,
                    passed: bool, hit: Change, m'': Mirror, r'': AckOrder.Records)
    requires n < |cs| && Reached(m, r, mode, generation, cs, n, m', r', picks, hits)
    requires passed == Passes(r', generation, cs[n])
    requires if passed then Aims(mode, m', cs[n], hit) && m'' == Apply(m', hit) else m'' == m'
    requires r'' == if passed && !cs[n].Rescan? then r' - {Path.Join(cs[n].path)} else r'
    ensures Reached(m, r, mode, generation, cs, n + 1, m'', r'',
                    if passed then picks + [n] else picks, if passed then hits + [hit] else hits)
  {
    if !cs[n].Rescan? {
      SameVerdict(r, r', generation, cs, n, Path.Join(cs[n].path));
    }
    ChosenMore(r, generation, cs, n, picks);
    RetiredMore(r, r', r'', generation, cs, n);
    if passed {
      AimedNext(mode, m, cs, picks, hits, n, hit);
    }
  }

  /** The loop over the batch. */
  method ApplyPassing(t: Tree, table: AckOrder.Table, cs: seq<Change>, generation: nat, mode: LookupMode)
    returns (ghost picks: seq<nat>, ghost hits: seq<Change>)
    requires t.Valid() && forall k :: 0 <= k < |cs| ==> Legal(cs[k])
    modifies t, table
    ensures t.Valid() && Reached(old(t.Contents()), old(table.records), mode, generation, cs, |cs|,
                                 t.Contents(), table.records, picks, hits)
  {
    ghost var m, r := t.Contents(), table.records;
    picks, hits := [], [];
    var k := 0;
    while k < |cs|
      invariant 0 <= k <= |cs| && t.Valid()
      invariant Reached(m, r, mode, generation, cs, k, t.Contents(), table.records, picks, hits)
    {
      ghost var m', r' := t.Contents(), table.records;
      var passed, hit := ApplyUnlessStale(t, table, cs[k], generation, mode);
      ReachedNext(m, r, mode, generation, cs, k, m', r', picks, hits, passed, hit, t.Contents(), table.records);
      if passed {
        picks, hits := picks + [k], hits + [hit];
      }
      k := k + 1;
    }
  }

  /** What is retired, spelt out. */
  lemma RetiredAll(r: AckOrder.Records, now: AckOrder.Records, generation: nat, cs: seq<Change>)
    requires Retired(r, now, generation, cs, |cs|)
    ensures forall text :: text in now <==>
              && text in r
              && (generation <= r[text] || forall k :: 0 <= k < |cs| && !cs[k].Rescan? ==> Path.Join(cs[k].path) != text)
    ensures forall text :: text in now ==> now[text] == r[text]
  {
    forall text
      ensures text in now <==>
              && text in r
              && (generation <= r[text] || forall k :: 0 <= k < |cs| && !cs[k].Rescan? ==> Path.Join(cs[k].path) != text)
    {
      assert text in now <==> text in r && (generation <= r[text] || !Spoken(cs, |cs|, text));
    }
  }

  /**
   * apply_invalidation on tree and records together: the ops that no record holds back are applied in
   * the order of the batch, each exactly once, and exactly the overtaken records are retired.
   */
  method ApplyInvalidation(t: Tree, table: AckOrder.Table, cs: seq<Change>, generation: nat, mode: LookupMode)
    returns (ghost picks: seq<nat>, ghost hits: seq<Change>)
    requires t.Valid() && forall k :: 0 <= k < |cs| ==> cs[k].Rescan? || Path.AllValid(cs[k].path)
    modifies t, table
    ensures t.Valid()
    ensures forall i, j :: 0 <= i < j < |picks| ==> picks[i] < picks[j]
    ensures forall k: nat :: k in picks <==>
              && k < |cs|
              && (cs[k].Rescan? || (Path.Join(cs[k].path) in old(table.records) ==>
                                      generation > old(table.records)[Path.Join(cs[k].path)]))
    ensures (forall i :: 0 <= i < |picks| ==> picks[i] < |cs|)
            && Aimed(mode, old(t.Contents()), seq(|picks|, i requires 0 <= i < |picks| => cs[picks[i]]), hits)
    ensures t.Contents() == ApplyAll(old(t.Contents()), hits)
    ensures forall text :: text in table.records <==>
              && text in old(table.records)
              && (generation <= old(table.records)[text]
                  || forall k :: 0 <= k < |cs| && !cs[k].Rescan? ==> Path.Join(cs[k].path) != text)
    ensures forall text :: text in table.records ==> table.records[text] == old(table.records)[text]
  {
    ghost var r := table.records;
    picks, hits := ApplyPassing(t, table, cs, generation, mode);
    RetiredAll(r, table.records, generation, cs);
    assert Picked(cs, picks) == seq(|picks|, i requires 0 <= i < |picks| => cs[picks[i]]);
  }

  lemma {:induction false} AimedNext(mode: LookupMode, m: Mirror, cs: seq<Change>, picks: seq<nat>, hits: seq<Change>, k: nat, hit: Change)
    requires k < |cs| && (forall i :: 0 <= i < |picks| ==> picks[i] < |cs|)
    requires Aimed(mode, m, Picked(cs, picks), hits) && Aims(mode, ApplyAll(m, hits), cs[k], hit)
    ensures Aimed(mode, m, Picked(cs, picks + [k]), hits + [hit]) && ApplyAll(m, hits + [hit]) == Apply(ApplyAll(m, hits), hit)
  {
    var all := Picked(cs, picks + [k]);
    assert all[..|picks|] == Picked(cs, picks) && all[|picks|] == cs[k];
    AimedMore(mode, m, all, hits, |picks|, hit);
    assert all[..|picks| + 1] == all;
  }
}
