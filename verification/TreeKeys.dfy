/** The tree's child indexes as the hash table holds them: a parent and a name packed into one 64-bit key. */
module TreeKeys {
  import opened Types
  import FlatMap

  const U32: nat := 0x1_0000_0000

  /** kInvalidNode, which no node has for an id. */
  const INVALID_NODE: nat := 0xFFFF_FFFF

  function Pack(parent: nat, name: nat): nat {
    parent * U32 + name
  }

  /** Both halves can be read back. */
  lemma Unpack(p: nat, n: nat)
    requires n < U32
    ensures Pack(p, n) / U32 == p && Pack(p, n) % U32 == n
  {
  }

  lemma PackInjective(p: nat, n: nat, p': nat, n': nat)
    requires n < U32 && n' < U32 && Pack(p, n) == Pack(p', n')
    ensures p == p' && n == n'
  {
    Unpack(p, n);
    Unpack(p', n');
  }

  /** The two reserved keys are exactly the last two names below the node that cannot exist. */
  lemma PackUsable(p: nat, n: nat)
    requires p < U32 && n < U32
    ensures FlatMap.Storable(Pack(p, n)) <==> !(p == INVALID_NODE && n >= U32 - 2)
  {
    if p < INVALID_NODE {
      assert p * U32 <= (INVALID_NODE - 1) * U32;
    }
  }

  type Index = map<(nat, Name), nat>

  /** The pool hands out one id below 2^32 per name. */
  ghost predicate Interned(id: Name -> nat, names: set<Name>) {
    && (forall n :: n in names ==> id(n) < U32)
    && (forall m, n {:trigger id(m), id(n)} :: m in names && n in names && id(m) == id(n) ==> m == n)
  }

  ghost predicate Indexed(index: Index, names: set<Name>) {
    forall k :: k in index ==> k.0 < INVALID_NODE && k.1 in names
  }

  /** The table holds exactly the packed entries of the index. */
  ghost predicate Packed(index: Index, table: map<nat, nat>, id: Name -> nat) {
    && (forall k :: k in index ==> Pack(k.0, id(k.1)) in table && table[Pack(k.0, id(k.1))] == index[k])
    && (forall x :: x in table ==> exists k :: k in index && Pack(k.0, id(k.1)) == x)
  }

  /** Finding a child in the table is finding it in the index, and never with a reserved key. */
  lemma PackedFind(index: Index, table: map<nat, nat>, id: Name -> nat, names: set<Name>, p: nat, n: Name)
    requires Interned(id, names) && Indexed(index, names) && Packed(index, table, id) && p < INVALID_NODE && n in names
    ensures FlatMap.Storable(Pack(p, id(n)))
    ensures Pack(p, id(n)) in table <==> (p, n) in index
    ensures (p, n) in index ==> table[Pack(p, id(n))] == index[(p, n)]
  {
    PackUsable(p, id(n));
    if Pack(p, id(n)) in table {
      var k :| k in index && Pack(k.0, id(k.1)) == Pack(p, id(n));
      PackInjective(k.0, id(k.1), p, id(n));
      assert k == (p, n);
    }
    if (p, n) in index {
      assert Pack((p, n).0, id((p, n).1)) in table;
    }
  }

  /** Adding or replacing an entry. */
  lemma PackedPut(index: Index, table: map<nat, nat>, id: Name -> nat, names: set<Name>, p: nat, n: Name, v: nat)
    requires Interned(id, names) && Indexed(index, names) && Packed(index, table, id) && p < INVALID_NODE && n in names
    ensures Packed(index[(p, n) := v], table[Pack(p, id(n)) := v], id)
  {
    var index', table' := index[(p, n) := v], table[Pack(p, id(n)) := v];
    forall k | k in index' ensures Pack(k.0, id(k.1)) in table' && table'[Pack(k.0, id(k.1))] == index'[k] {
      if k != (p, n) && Pack(k.0, id(k.1)) == Pack(p, id(n)) {
        PackInjective(k.0, id(k.1), p, id(n));
      }
    }
    forall x | x in table' ensures exists k :: k in index' && Pack(k.0, id(k.1)) == x {
      if x == Pack(p, id(n)) {
        assert (p, n) in index' && Pack((p, n).0, id((p, n).1)) == x;
      } else {
        var k :| k in index && Pack(k.0, id(k.1)) == x;
        assert k in index';
      }
    }
  }

  /** Removing one. */
  lemma PackedErase(index: Index, table: map<nat, nat>, id: Name -> nat, names: set<Name>, p: nat, n: Name)
    requires Interned(id, names) && Indexed(index, names) && Packed(index, table, id) && p < INVALID_NODE && n in names
    ensures Packed(index - {(p, n)}, table - {Pack(p, id(n))}, id)
  {
    var index', table' := index - {(p, n)}, table - {Pack(p, id(n))};
    forall k | k in index' ensures Pack(k.0, id(k.1)) in table' && table'[Pack(k.0, id(k.1))] == index'[k] {
      if Pack(k.0, id(k.1)) == Pack(p, id(n)) {
        PackInjective(k.0, id(k.1), p, id(n));
      }
    }
    forall x | x in table' ensures exists k :: k in index' && Pack(k.0, id(k.1)) == x {
      var k :| k in index && Pack(k.0, id(k.1)) == x;
      assert k in index';
    }
  }
}
