/** The content cache as the version protocol sees it: one file's entry, served to readers of that file. */
module ReadServe {
  import opened Types
  import opened ReadCache
  import opened CacheHistory
  import V = ReadVersions

  /** The protocol's cached fetch of the file at `p` is what the list holds there. */
  predicate Shows(l: seq<Item>, p: Name, cached: Option<V.Fetched>) {
    match Find(l, p)
    case None => cached.None?
    case Some(e) => cached.Some? && cached.value.version == V.Version(e.mtimeNs, e.size)
  }

  /** Serving a reader from the store is a hit exactly when it is one in the version protocol. */
  method ServeRead(store: Store, p: Name, mtimeNs: int, size: nat, ghost s: V.State, ghost floor: int)
    returns (hit: Option<seq<byte>>)
    requires store.Valid() && Shows(store.View().list, p, s.cache)
    requires V.Reader(V.Version(mtimeNs, size), floor) in s.readers
    modifies store
    ensures store.Valid() && Shows(store.View().list, p, s.cache)
    ensures hit.Some? <==> V.Hits(s, V.Reader(V.Version(mtimeNs, size), floor))
    ensures hit.Some? <==> s.cache.Some? && s.cache.value.version.mtimeNs == mtimeNs && s.cache.value.version.size == size
  {
    ghost var c := store.View();
    hit := store.Lookup(p, mtimeNs, size);
    HitKeepsPath(c, p, mtimeNs, size);
  }

  lemma {:induction false} HitKeepsPath(c: Cache, p: Name, mtimeNs: int, size: nat)
    requires Distinct(c.list)
    ensures Find(Step(c, Hit(p, mtimeNs, size)).list, p) == Find(c.list, p)
  {
    if Find(c.list, p).Some? {
      FindFront(c.list, Item(p, Find(c.list, p).value), p);
    }
  }

  /** Caching a fetch of the file is a step of the protocol. */
  lemma PutIsStep(c: Cache, p: Name, s: V.State, f: V.Fetched, data: seq<byte>)
    requires Bounded(c) && f in s.fetched
    ensures V.Next(s, s.(cache := Some(f)))
    ensures Shows(Step(c, Put(p, Entry(f.version.mtimeNs, f.version.size, data))).list, p, Some(f))
  {
    assert V.CachePut(s, s.(cache := Some(f)), f);
    StepForPath(c, Put(p, Entry(f.version.mtimeNs, f.version.size, data)), p);
  }

  /** Whatever else happens to the store leaves the file's entry alone or drops it, which is a step too. */
  lemma OtherIsStep(c: Cache, op: Op, p: Name, s: V.State) returns (t: V.State)
    requires Bounded(c) && Shows(c.list, p, s.cache) && !(op.Put? && op.path == p)
    ensures Shows(Step(c, op).list, p, t.cache) && (t == s || V.Next(s, t)) && t == s.(cache := t.cache)
    ensures op.Hit? ==> t == s
  {
    StepForPath(c, op, p);
    if Find(Step(c, op).list, p) == Find(c.list, p) {
      t := s;
    } else {
      t := s.(cache := None);
      assert V.Drop(s, t);
    }
  }
}
