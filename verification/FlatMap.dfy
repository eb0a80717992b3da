/** Open addressing with linear probing and tombstones, for any hash function. */
module FlatMap {
  import opened Types
  import opened Finite

  const EMPTY: nat := 0xFFFF_FFFF_FFFF_FFFF
  const TOMBSTONE: nat := 0xFFFF_FFFF_FFFF_FFFE

  datatype Slot = Slot(key: nat, value: nat)

  const BLANK := Slot(EMPTY, 0)

  /** Keys that may be stored: the two sentinels are reserved. */
  predicate Storable(k: nat) {
    k != EMPTY && k != TOMBSTONE
  }

  function Home(h: nat -> nat, k: nat, cap: nat): (i: nat)
    requires cap > 0
    ensures i < cap
  {
    h(k) % cap
  }

  /** The slot `d` probes after `home`. */
  function Probe(home: nat, d: nat, cap: nat): (i: nat)
    requires home < cap && d <= cap
    ensures i < cap
  {
    if home + d < cap then home + d else home + d - cap
  }

  /** How many probes lead from `home` to slot `i`. */
  function Distance(home: nat, i: nat, cap: nat): (d: nat)
    requires home < cap && i < cap
    ensures d < cap && Probe(home, d, cap) == i
  {
    if i >= home then i - home else i - home + cap
  }

  /** No empty slot on the way from `home` to the slot `n` probes later. */
  ghost predicate Unbroken(slots: seq<Slot>, home: nat, n: nat)
    requires home < |slots| && n <= |slots|
  {
    forall d {:trigger Probe(home, d, |slots|)} :: 0 <= d < n ==> slots[Probe(home, d, |slots|)].key != EMPTY
  }

  ghost predicate SlotEntry(slots: seq<Slot>, h: nat -> nat, at: map<nat, nat>, i: int)
    requires 0 <= i < |slots|
  {
    Storable(slots[i].key) ==>
      && slots[i].key in at && at[slots[i].key] == i
      && Unbroken(slots, Home(h, slots[i].key, |slots|), Distance(Home(h, slots[i].key, |slots|), i, |slots|))
  }

  ghost predicate KeySlot(slots: seq<Slot>, at: map<nat, nat>, k: nat)
    requires k in at
  {
    Storable(k) && at[k] < |slots| && slots[at[k]].key == k
  }

  /** Every stored key sits where probing from its home finds it; `at` says where. */
  ghost predicate Probed(slots: seq<Slot>, h: nat -> nat, at: map<nat, nat>) {
    && (forall i {:trigger SlotEntry(slots, h, at, i)} :: 0 <= i < |slots| ==> SlotEntry(slots, h, at, i))
    && (forall k {:trigger KeySlot(slots, at, k)} :: k in at ==> KeySlot(slots, at, k))
  }

  ghost function UsedSlots(slots: seq<Slot>): set<int> {
    set i | 0 <= i < |slots| && slots[i].key != EMPTY
  }

  /** The finite map a table stands for. */
  ghost function Stored(slots: seq<Slot>, at: map<nat, nat>): map<nat, nat> {
    map k | k in at :: ValueAt(slots, at[k])
  }

  ghost function ValueAt(slots: seq<Slot>, i: nat): nat {
    if i < |slots| then slots[i].value else 0
  }

  predicate PowerOfTwo(n: nat) {
    n == 1 || (n > 1 && n % 2 == 0 && PowerOfTwo(n / 2))
  }

  /** Capacities are 0 or a power of two of at least 16, so masking is reduction modulo the capacity. */
  predicate Capacity(n: nat) {
    n == 0 || (n >= 16 && PowerOfTwo(n))
  }

  lemma DoubleCapacity(n: nat)
    requires Capacity(n) && n > 0
    ensures Capacity(2 * n)
  {
    assert 2 * n / 2 == n;
  }

  lemma Sixteen()
    ensures Capacity(16)
  {
    assert PowerOfTwo(2) && PowerOfTwo(4) && PowerOfTwo(8);
  }

  /** With fewer used slots than slots, some slot is empty. */
  lemma EmptySlot(slots: seq<Slot>) returns (z: nat)
    requires |UsedSlots(slots)| < |slots|
    ensures z < |slots| && slots[z].key == EMPTY
  {
    var used, all := UsedSlots(slots), Range(|slots|);
    if all <= used {
      SubsetSize(all, used);
    }
    var i :| i in all && i !in used;
    z := i;
  }

  /** A run of probes without an empty slot is shorter than the table. */
  lemma RunIsShort(slots: seq<Slot>, home: nat, n: nat)
    requires |UsedSlots(slots)| < |slots| && home < |slots| && n <= |slots| && Unbroken(slots, home, n)
    ensures n < |slots|
  {
    var z := EmptySlot(slots);
    assert Probe(home, Distance(home, z, |slots|), |slots|) == z;
  }

  /** A stored key is found by probing, before any empty slot. */
  lemma KeyReached(slots: seq<Slot>, h: nat -> nat, at: map<nat, nat>, k: nat)
    requires Probed(slots, h, at) && |slots| > 0 && k in at
    ensures at[k] < |slots| && slots[at[k]].key == k && Storable(k)
    ensures var home := Home(h, k, |slots|);
            Unbroken(slots, home, Distance(home, at[k], |slots|) + 1)
  {
    assert KeySlot(slots, at, k);
    assert SlotEntry(slots, h, at, at[k]);
  }

  /** Reaching an empty slot without meeting the key proves it absent. */
  lemma AbsentAtEmpty(slots: seq<Slot>, h: nat -> nat, at: map<nat, nat>, k: nat, d: nat)
    requires Probed(slots, h, at) && |slots| > 0 && d < |slots|
    requires slots[Probe(Home(h, k, |slots|), d, |slots|)].key == EMPTY
    requires Missed(slots, Home(h, k, |slots|), d, k)
    ensures k !in at
  {
    if k in at {
      KeyReached(slots, h, at, k);
    }
  }

  /** The first `n` probes from `home` did not meet `k`. */
  ghost predicate Missed(slots: seq<Slot>, home: nat, n: nat, k: nat)
    requires home < |slots| && n <= |slots|
  {
    forall d {:trigger Probe(home, d, |slots|)} :: 0 <= d < n ==> slots[Probe(home, d, |slots|)].key != k
  }

  /** Writing a new key into a slot that held none keeps every probe run intact. */
  lemma PutKeeps(slots: seq<Slot>, h: nat -> nat, at: map<nat, nat>, k: nat, v: nat, d: nat)
    requires Probed(slots, h, at) && |slots| > 0 && d < |slots| && Storable(k) && k !in at
    requires Unbroken(slots, Home(h, k, |slots|), d)
    requires !Storable(slots[Probe(Home(h, k, |slots|), d, |slots|)].key)
    ensures var j := Probe(Home(h, k, |slots|), d, |slots|);
            && Probed(slots[j := Slot(k, v)], h, at[k := j])
            && Stored(slots[j := Slot(k, v)], at[k := j]) == Stored(slots, at)[k := v]
            && UsedSlots(slots[j := Slot(k, v)]) == UsedSlots(slots) + {j}
  {
    var home := Home(h, k, |slots|);
    var j := Probe(home, d, |slots|);
    var slots', at' := slots[j := Slot(k, v)], at[k := j];
    forall i | 0 <= i < |slots'| ensures SlotEntry(slots', h, at', i) {
      assert SlotEntry(slots, h, at, i);
      if i == j {
        assert Distance(home, j, |slots|) == d;
      }
    }
    forall x | x in at' ensures KeySlot(slots', at', x) {
      if x != k {
        assert KeySlot(slots, at, x);
      }
    }
    forall x | x in at ensures Stored(slots', at')[x] == Stored(slots, at)[x] {
      assert KeySlot(slots, at, x);
    }
  }

  /** Overwriting a value changes that entry alone. */
  lemma AssignKeeps(slots: seq<Slot>, h: nat -> nat, at: map<nat, nat>, k: nat, v: nat)
    requires Probed(slots, h, at) && k in at && at[k] < |slots|
    ensures Probed(slots[at[k] := Slot(k, v)], h, at)
    ensures Stored(slots[at[k] := Slot(k, v)], at) == Stored(slots, at)[k := v]
    ensures UsedSlots(slots[at[k] := Slot(k, v)]) == UsedSlots(slots)
  {
    assert KeySlot(slots, at, k);
    var slots' := slots[at[k] := Slot(k, v)];
    forall i | 0 <= i < |slots'| ensures SlotEntry(slots', h, at, i) {
      assert SlotEntry(slots, h, at, i);
    }
    forall x | x in at ensures KeySlot(slots', at, x) && (x != k ==> at[x] != at[k]) {
      assert KeySlot(slots, at, x);
    }
  }

  /** A tombstone takes the key out and keeps the slot counted as used. */
  lemma EraseKeeps(slots: seq<Slot>, h: nat -> nat, at: map<nat, nat>, k: nat)
    requires Probed(slots, h, at) && k in at && at[k] < |slots|
    ensures var slots' := slots[at[k] := slots[at[k]].(key := TOMBSTONE)];
            && Probed(slots', h, at - {k})
            && Stored(slots', at - {k}) == Stored(slots, at) - {k}
            && UsedSlots(slots') == UsedSlots(slots)
  {
    assert KeySlot(slots, at, k);
    var slots', at' := slots[at[k] := slots[at[k]].(key := TOMBSTONE)], at - {k};
    forall i | 0 <= i < |slots'| ensures SlotEntry(slots', h, at', i) {
      assert SlotEntry(slots, h, at, i);
    }
    forall x | x in at' ensures KeySlot(slots', at', x) && at[x] != at[k] {
      assert KeySlot(slots, at, x);
    }
  }

  /** Live entries are used slots. */
  lemma SizeWithinUsed(slots: seq<Slot>, h: nat -> nat, at: map<nat, nat>)
    requires Probed(slots, h, at)
    ensures |at| <= |UsedSlots(slots)| <= |slots|
  {
    forall k | k in at ensures KeySlot(slots, at, k) {
    }
    var g: map<nat, int> := map k | k in at :: at[k];
    assert g.Keys == at.Keys;
    forall k | k in g ensures g[k] in UsedSlots(slots) {
      assert KeySlot(slots, at, k);
    }
    forall a, b | a in g && b in g && g[a] == g[b] ensures a == b {
      assert KeySlot(slots, at, a) && KeySlot(slots, at, b);
    }
    InjectionFits(g, UsedSlots(slots));
    SubsetSize(UsedSlots(slots), Range(|slots|));
  }

  lemma NothingStored(slots: seq<Slot>, h: nat -> nat, at: map<nat, nat>)
    requires Probed(slots, h, at) && slots == []
    ensures at == map[]
  {
    forall k | k in at ensures KeySlot(slots, at, k) {
    }
  }

  lemma BlankTable(slots: seq<Slot>, h: nat -> nat)
    requires forall i :: 0 <= i < |slots| ==> slots[i] == BLANK
    ensures Probed(slots, h, map[]) && UsedSlots(slots) == {} && Stored(slots, map[]) == map[]
  {
    forall i | 0 <= i < |slots| ensures SlotEntry(slots, h, map[], i) {
    }
  }

  /** The entries of an old table that sit in its first `k` slots. */
  ghost function MovedMap(slots: seq<Slot>, at: map<nat, nat>, k: nat): map<nat, nat> {
    map x | x in at && at[x] < k :: ValueAt(slots, at[x])
  }

  /** Slot `k` is the only one that can bring its key. */
  lemma SlotOwner(slots: seq<Slot>, h: nat -> nat, at: map<nat, nat>, k: nat)
    requires Probed(slots, h, at) && k < |slots|
    ensures forall x :: x in at ==> (at[x] == k <==> Storable(slots[k].key) && x == slots[k].key)
    ensures Storable(slots[k].key) ==> slots[k].key in at
  {
    assert SlotEntry(slots, h, at, k);
    forall x | x in at ensures at[x] == k <==> Storable(slots[k].key) && x == slots[k].key {
      assert KeySlot(slots, at, x);
    }
  }

  lemma MoveNext(slots: seq<Slot>, h: nat -> nat, at: map<nat, nat>, k: nat)
    requires Probed(slots, h, at) && k < |slots|
    ensures MovedMap(slots, at, k + 1)
            == if Storable(slots[k].key) then MovedMap(slots, at, k)[slots[k].key := slots[k].value] else MovedMap(slots, at, k)
  {
    SlotOwner(slots, h, at, k);
    var now, next := MovedMap(slots, at, k), MovedMap(slots, at, k + 1);
    assert next.Keys == now.Keys + (if Storable(slots[k].key) then {slots[k].key} else {});
  }

  lemma MoveRoom(slots: seq<Slot>, h: nat -> nat, at: map<nat, nat>, k: nat)
    requires Probed(slots, h, at) && k < |slots| && Storable(slots[k].key)
    ensures slots[k].key !in MovedMap(slots, at, k) && |MovedMap(slots, at, k)| < |at|
  {
    SlotOwner(slots, h, at, k);
    SubsetSize(MovedMap(slots, at, k).Keys, at.Keys - {slots[k].key});
  }

  lemma MovedAll(slots: seq<Slot>, h: nat -> nat, at: map<nat, nat>)
    requires Probed(slots, h, at)
    ensures MovedMap(slots, at, |slots|) == Stored(slots, at)
  {
    forall x | x in at ensures at[x] < |slots| {
      assert KeySlot(slots, at, x);
    }
  }

  lemma SameKeys(slots: seq<Slot>, at: map<nat, nat>, m: map<nat, nat>)
    requires Stored(slots, at) == m
    ensures at.Keys == m.Keys && |at| == |m|
  {
    assert Stored(slots, at).Keys == at.Keys;
  }

  class U64Map {
    const hash: nat -> nat
    var slots: seq<Slot>
    var size: nat
    var used: nat
    /** Where each key sits. */
    ghost var at: map<nat, nat>

    ghost predicate Valid()
      reads this
    {
      && Probed(slots, hash, at) && Capacity(|slots|)
      && size == |at| && used == |UsedSlots(slots)| && 4 * used <= 3 * |slots|
    }

    ghost function Contents(): map<nat, nat>
      reads this
    {
      Stored(slots, at)
    }

    constructor (hash: nat -> nat)
      ensures Valid() && Contents() == map[] && this.hash == hash
    {
      this.hash := hash;
      slots, size, used, at := [], 0, 0, map[];
    }

    /** The probe loop of find: the slot of `key`, if it is stored. */
    method FindSlot(key: nat) returns (found: Option<nat>)
      requires Valid() && Storable(key)
      ensures found == if key in at then Some(at[key]) else None
      ensures found.Some? ==> found.value < |slots| && slots[found.value].key == key
    {
      if |slots| == 0 {
        NothingStored(slots, hash, at);
        return None;
      }
      ghost var home := Home(hash, key, |slots|);
      var i := Home(hash, key, |slots|);
      ghost var d := 0;
      while true
        invariant 0 <= d < |slots| && i == Probe(home, d, |slots|)
        invariant Unbroken(slots, home, d) && Missed(slots, home, d, key)
        decreases |slots| - d
      {
        if slots[i].key == key {
          assert SlotEntry(slots, hash, at, i);
          return Some(i);
        }
        if slots[i].key == EMPTY {
          AbsentAtEmpty(slots, hash, at, key, d);
          return None;
        }
        RunIsShort(slots, home, d + 1);
        i := if i + 1 == |slots| then 0 else i + 1;
        d := d + 1;
      }
    }

    method Find(key: nat) returns (found: Option<nat>)
      requires Valid() && Storable(key)
      ensures found == if key in Contents() then Some(Contents()[key]) else None
    {
      var i := FindSlot(key);
      return if i.Some? then Some(slots[i.value].value) else None;
    }

    /** Inserts, or overwrites when `assign`; true when the key is new. */
    method Emplace(key: nat, value: nat, assign: bool) returns (isNew: bool)
      requires Valid() && Storable(key)
      modifies this
      ensures Valid()
      ensures isNew <==> key !in old(Contents())
      ensures Contents() == if isNew || assign then old(Contents())[key := value] else old(Contents())
    {
      GrowIfNeeded();
      label grown:
      ghost var home := Home(hash, key, |slots|);
      var i := Home(hash, key, |slots|);
      ghost var d := 0;
      var tomb: Option<nat> := None;
      ghost var e := 0;
      while true
        invariant unchanged@grown(this)
        invariant 0 <= d < |slots| && i == Probe(home, d, |slots|)
        invariant Unbroken(slots, home, d) && Missed(slots, home, d, key)
        invariant tomb.Some? ==> e < d && tomb.value == Probe(home, e, |slots|) && slots[tomb.value].key == TOMBSTONE
        decreases |slots| - d
      {
        var s := slots[i];
        if s.key == key {
          assert SlotEntry(slots, hash, at, i);
          if assign {
            AssignKeeps(slots, hash, at, key, value);
            slots := slots[i := Slot(key, value)];
          }
          return false;
        }
        if s.key == TOMBSTONE {
          if tomb.None? {
            tomb, e := Some(i), d;
          }
        } else if s.key == EMPTY {
          AbsentAtEmpty(slots, hash, at, key, d);
          Put(if tomb.Some? then tomb.value else i, key, value, if tomb.Some? then e else d);
          return true;
        }
        RunIsShort(slots, home, d + 1);
        i := if i + 1 == |slots| then 0 else i + 1;
        d := d + 1;
      }
    }

    /** Stores a new key in a free slot reached by unbroken probing; a tombstone was already counted. */
    method Put(j: nat, key: nat, value: nat, ghost d: nat)
      requires Valid() && Storable(key) && key !in at && 4 * (used + 1) <= 3 * |slots|
      requires d < |slots| && j == Probe(Home(hash, key, |slots|), d, |slots|)
      requires Unbroken(slots, Home(hash, key, |slots|), d) && !Storable(slots[j].key)
      modifies this
      ensures Valid() && Contents() == old(Contents())[key := value]
      ensures |slots| == |old(slots)| && size == old(size) + 1
      ensures used == old(used) + (if old(slots)[j].key == EMPTY then 1 else 0)
    {
      PutKeeps(slots, hash, at, key, value, d);
      if slots[j].key == EMPTY {
        used := used + 1;
      }
      slots, size, at := slots[j := Slot(key, value)], size + 1, at[key := j];
      assert UsedSlots(slots) == UsedSlots(old(slots)) + {j};
    }

    method InsertOrAssign(key: nat, value: nat) returns (isNew: bool)
      requires Valid() && Storable(key)
      modifies this
      ensures Valid()
      ensures isNew <==> key !in old(Contents())
      ensures Contents() == old(Contents())[key := value]
    {
      isNew := Emplace(key, value, true);
    }

    method InsertIfAbsent(key: nat, value: nat) returns (isNew: bool)
      requires Valid() && Storable(key)
      modifies this
      ensures Valid()
      ensures isNew <==> key !in old(Contents())
      ensures Contents() == if isNew then old(Contents())[key := value] else old(Contents())
    {
      isNew := Emplace(key, value, false);
    }

    /** Leaves a tombstone behind; true when the key was there. */
    method Erase(key: nat) returns (removed: bool)
      requires Valid() && Storable(key)
      modifies this
      ensures Valid()
      ensures removed <==> key in old(Contents())
      ensures Contents() == old(Contents()) - {key}
    {
      var i := FindSlot(key);
      if i.None? {
        return false;
      }
      EraseKeeps(slots, hash, at, key);
      slots, size, at := slots[i.value := slots[i.value].(key := TOMBSTONE)], size - 1, at - {key};
      return true;
    }

    /** Empties the table, keeping its capacity. */
    method Clear()
      requires Valid()
      modifies this
      ensures Valid() && Contents() == map[] && |slots| == |old(slots)|
    {
      slots := seq(|slots|, _ => BLANK);
      size, used, at := 0, 0, map[];
      BlankTable(slots, hash);
    }

    /** Makes room so that one more key keeps the load at or below three quarters. */
    method GrowIfNeeded()
      requires Valid()
      modifies this
      ensures Valid() && Contents() == old(Contents())
      ensures |slots| > 0 && 4 * (used + 1) <= 3 * |slots|
    {
      SizeWithinUsed(slots, hash, at);
      if |slots| == 0 {
        Sixteen();
        Rehash(16);
        return;
      }
      if (used + 1) * 4 > |slots| * 3 {
        DoubleCapacity(|slots|);
        Rehash(if (size + 1) * 2 > |slots| then |slots| * 2 else |slots|);
      }
    }

    /** Room for `n` keys at a load of at most three quarters. */
    method Reserve(n: nat)
      requires Valid()
      modifies this
      ensures Valid() && Contents() == old(Contents())
      ensures 4 * n <= 3 * |slots| && |slots| >= |old(slots)|
    {
      var cap := 16;
      Sixteen();
      while cap * 3 < n * 4
        invariant Capacity(cap) && cap > 0 && unchanged(this)
        decreases n * 4 - cap * 3
      {
        DoubleCapacity(cap);
        cap := cap * 2;
      }
      if cap > |slots| {
        SizeWithinUsed(slots, hash, at);
        Rehash(cap);
      }
    }

    /** Reinserts every live entry into a blank table; tombstones are left behind. */
    method Rehash(cap: nat)
      requires Valid() && Capacity(cap) && cap > 0 && 4 * size <= 3 * cap
      modifies this
      ensures Valid() && Contents() == old(Contents()) && |slots| == cap && used == size == old(size)
    {
      var old_ := slots;
      ghost var at0 := at;
      slots := seq(cap, _ => BLANK);
      size, used, at := 0, 0, map[];
      BlankTable(slots, hash);
      var k := 0;
      while k < |old_|
        invariant 0 <= k <= |old_| && Valid() && |slots| == cap && used == size
        invariant Contents() == MovedMap(old_, at0, k)
      {
        MoveNext(old_, hash, at0, k);
        if Storable(old_[k].key) {
          MoveRoom(old_, hash, at0, k);
          SameKeys(slots, at, MovedMap(old_, at0, k));
          var j, d := FirstEmpty(old_[k].key);
          Put(j, old_[k].key, old_[k].value, d);
        }
        k := k + 1;
      }
      MovedAll(old_, hash, at0);
      SameKeys(old_, at0, Stored(old_, at0));
      SameKeys(slots, at, MovedMap(old_, at0, k));
    }

    /** The placement loop of rehash: the first empty slot from a key's home. */
    method FirstEmpty(key: nat) returns (i: nat, ghost d: nat)
      requires Valid() && |slots| > 0
      ensures d < |slots| && i == Probe(Home(hash, key, |slots|), d, |slots|)
      ensures Unbroken(slots, Home(hash, key, |slots|), d) && slots[i].key == EMPTY
    {
      ghost var home := Home(hash, key, |slots|);
      i, d := Home(hash, key, |slots|), 0;
      while slots[i].key != EMPTY
        invariant 0 <= d < |slots| && i == Probe(home, d, |slots|) && Unbroken(slots, home, d)
        decreases |slots| - d
      {
        RunIsShort(slots, home, d + 1);
        i := if i + 1 == |slots| then 0 else i + 1;
        d := d + 1;
      }
    }
  }

  // --- runs -----------------------------------------------------------------------

  datatype Op = Find(key: nat) | Insert(key: nat, value: nat) | Assign(key: nat, value: nat)
              | Erase(key: nat) | Reserve(n: nat) | Clear

  datatype Answer = Value(found: Option<nat>) | Changed(yes: bool) | Done

  predicate Legal(op: Op) {
    (op.Find? || op.Insert? || op.Assign? || op.Erase?) ==> Storable(op.key)
  }

  /** What a finite map does with one operation. */
  function Effect(m: map<nat, nat>, op: Op): (map<nat, nat>, Answer) {
    match op
    case Find(k) => (m, Value(if k in m then Some(m[k]) else None))
    case Insert(k, v) => (if k in m then m else m[k := v], Changed(k !in m))
    case Assign(k, v) => (m[k := v], Changed(k !in m))
    case Erase(k) => (m - {k}, Changed(k in m))
    case Reserve(_) => (m, Done)
    case Clear => (map[], Done)
  }

  /** The map and the answers after a whole run. */
  function Run(m: map<nat, nat>, ops: seq<Op>): (map<nat, nat>, seq<Answer>) {
    if ops == [] then (m, [])
    else
      var (m1, answers) := Run(m, ops[..|ops| - 1]);
      var (m2, answer) := Effect(m1, ops[|ops| - 1]);
      (m2, answers + [answer])
  }

  /** Over every run of operations the table answers as the finite map does. */
  method RunTable(t: U64Map, ops: seq<Op>) returns (answers: seq<Answer>)
    requires t.Valid() && forall k :: 0 <= k < |ops| ==> Legal(ops[k])
    modifies t
    ensures t.Valid() && (t.Contents(), answers) == Run(old(t.Contents()), ops)
  {
    answers := [];
    ghost var m := t.Contents();
    var k := 0;
    assert ops[..0] == [];
    while k < |ops|
      invariant 0 <= k <= |ops| && t.Valid() && (t.Contents(), answers) == Run(m, ops[..k])
    {
      assert ops[..k + 1][..k] == ops[..k] && ops[..k + 1][k] == ops[k] && Legal(ops[k]);
      var answer: Answer;
      match ops[k] {
        case Find(key) => var r := t.Find(key); answer := Value(r);
        case Insert(key, v) => var r := t.InsertIfAbsent(key, v); answer := Changed(r);
        case Assign(key, v) => var r := t.InsertOrAssign(key, v); answer := Changed(r);
        case Erase(key) => var r := t.Erase(key); answer := Changed(r);
        case Reserve(n) => t.Reserve(n); answer := Done;
        case Clear => t.Clear(); answer := Done;
      }
      answers := answers + [answer];
      k := k + 1;
    }
    assert ops[..k] == ops;
  }
}
