/** The writer that appends to a buffer and the reader that advances over one, against the wire format. */
module Codec {
  import opened Types
  import opened Wire
  import opened TreeSnapshot
  import opened CoalescerEvents
  import opened CoalescerBatch
  import opened Messages

  datatype Result<+T> = Success(value: T) | Failure(error: Error) {
    predicate IsFailure() {
      Failure?
    }

    function PropagateFailure<U>(): Result<U>
      requires Failure?
    {
      Failure(this.error)
    }

    function Extract(): T
      requires Success?
    {
      this.value
    }
  }

  class Writer {
    var out: Bytes

    constructor ()
      ensures out == []
    {
      out := [];
    }

    /** u8, u16, u32 and u64: `n` bytes, the lowest first. */
    method Fixed(v: nat, n: nat)
      modifies this
      ensures out == old(out) + PutLe(v, n)
    {
      var left := v;
      for i := 0 to n
        invariant out + PutLe(left, n - i) == old(out) + PutLe(v, n)
      {
        assert out + PutLe(left, n - i) == (out + [ToByte(left)]) + PutLe(left / 256, n - i - 1);
        out := out + [ToByte(left)];
        left := left / 256;
      }
    }

    method Varint(v: nat)
      modifies this
      ensures out == old(out) + PutVarint(v)
    {
      var left := v;
      while left >= 128
        invariant out + PutVarint(left) == old(out) + PutVarint(v)
      {
        assert out + PutVarint(left) == (out + [ToByte(left % 128 + 128)]) + PutVarint(left / 128);
        out := out + [ToByte(left % 128 + 128)];
        left := left / 128;
      }
      out := out + [ToByte(left)];
    }

    method String(b: Bytes)
      modifies this
      ensures out == old(out) + PutString(b)
    {
      Varint(|b|);
      out := out + b;
    }

    method Attributes(a: Types.Attributes)
      modifies this
      ensures out == old(out) + PutAttributes(a)
    {
      ghost var was := out;
      Fixed(KindCode(a.kind), 1);
      Varint(a.mode);
      Varint(a.size);
      Fixed(Unsigned(a.mtimeNs), 8);
      Nested(was, PutLe(KindCode(a.kind), 1), PutVarint(a.mode), PutVarint(a.size), PutLe(Unsigned(a.mtimeNs), 8));
    }

    method Entry(e: SnapshotEntry)
      modifies this
      ensures out == old(out) + PutEntry(e)
    {
      ghost var was := out;
      Fixed(e.parent, 4);
      Attributes(e.attr);
      String(e.name);
      Assoc(was, PutLe(e.parent, 4), PutAttributes(e.attr));
      Assoc(was, PutLe(e.parent, 4) + PutAttributes(e.attr), PutString(e.name));
      Assoc(PutLe(e.parent, 4), PutAttributes(e.attr), PutString(e.name));
    }

    method Op(op: InvalidationOp)
      modifies this
      ensures out == old(out) + PutOp(op)
    {
      ghost var was := out;
      Fixed(OpCode(op.kind), 1);
      String(op.path);
      if op.kind == Upsert {
        Attributes(op.attr);
      }
      assert out == was + PutLe(OpCode(op.kind), 1) + PutString(op.path) + PutAttrFor(op);
      ghost var before := out;
      Fixed(ChangeCode(op.change), 1);
      if IsMove(op.change) {
        Fixed(op.cookie, 4);
      }
      assert out == before + PutTail(op);
      Nested(was, PutLe(OpCode(op.kind), 1), PutString(op.path), PutAttrFor(op), PutTail(op));
    }

    method Invalidation(b: Batch)
      modifies this
      ensures out == old(out) + PutInvalidation(b)
    {
      ghost var was := out;
      Fixed(b.generation, 8);
      Varint(|b.ops|);
      ghost var head := out;
      for i := 0 to |b.ops|
        invariant out == head + PutAll(PutOp, b.ops[..i])
      {
        PutAllSnoc(PutOp, b.ops[..i], b.ops[i]);
        assert b.ops[..i] + [b.ops[i]] == b.ops[..i + 1];
        Assoc(head, PutAll(PutOp, b.ops[..i]), PutOp(b.ops[i]));
        Op(b.ops[i]);
      }
      assert b.ops[..|b.ops|] == b.ops;
      Assoc(was, PutLe(b.generation, 8), PutVarint(|b.ops|));
      Assoc(was, PutLe(b.generation, 8) + PutVarint(|b.ops|), PutAll(PutOp, b.ops));
      Assoc(PutLe(b.generation, 8), PutVarint(|b.ops|), PutAll(PutOp, b.ops));
    }
  }

  lemma Nested(s: Bytes, a: Bytes, b: Bytes, c: Bytes, d: Bytes)
    ensures s + a + b + c + d == s + (a + (b + (c + d)))
  {
    Assoc(s + a + b, c, d);
    Assoc(s + a, b, c + d);
    Assoc(s, a, b + (c + d));
  }

  lemma {:induction false} GetLeSplit(s: Bytes, i: nat)
    requires i < |s|
    ensures GetLe(s[i..]) == s[i] + 256 * GetLe(s[i + 1..])
  {
    assert s[i..][1..] == s[i + 1..];
  }

  /** `b` shifted left by `k` bytes. */
  function Shifted(b: nat, k: nat): nat {
    b * Pow256(k)
  }

  lemma ShiftedStep(b: nat, g: nat, k: nat)
    ensures Shifted(b + 256 * g, k) == Shifted(b, k) + Shifted(g, k + 1)
  {
    var p := Pow256(k);
    assert (b + 256 * g) * p == b * p + g * (256 * p);
  }

  function Pow128(n: nat): nat {
    if n == 0 then 1 else 128 * Pow128(n - 1)
  }

  /** `b` shifted left by `k` groups of seven bits. */
  function Grouped(b: nat, k: nat): nat {
    b * Pow128(k)
  }

  lemma GroupedStep(b: nat, g: nat, k: nat)
    ensures Grouped(b + 128 * g, k) == Grouped(b, k) + Grouped(g, k + 1)
  {
    var p := Pow128(k);
    assert (b + 128 * g) * p == b * p + g * (128 * p);
  }

  /** What a varint read comes to after `k` bytes with `v` accumulated. */
  ghost function Resumed(v: nat, k: nat, p: Parse<nat>): Parse<nat> {
    match p
    case Err(e) => Err(e)
    case Ok(w, rest) => Ok(v + Grouped(w, k), rest)
  }

  lemma ResumeStep(s: Bytes, v: nat, k: nat)
    requires k < 10 && s != [] && s[0] >= 128
    ensures Resumed(v, k, ReadVarintAt(s, k)) == Resumed(v + Grouped(s[0] - 128, k), k + 1, ReadVarintAt(s[1..], k + 1))
  {
    match ReadVarintAt(s[1..], k + 1)
    case Err(_) =>
    case Ok(w, _) => GroupedStep(s[0] - 128, w, k);
  }

  class Reader {
    const input: Bytes
    var pos: nat

    ghost predicate Valid()
      reads this
    {
      pos <= |input|
    }

    ghost function Rest(): Bytes
      requires Valid()
      reads this
    {
      input[pos..]
    }

    /** The outcome is what the format says, and on success the reader stands right behind the value. */
    ghost predicate Got<T(!new)>(p: Parse<T>, r: Result<T>)
      requires Valid()
      reads this
    {
      match p
      case Ok(v, rest) => r == Success(v) && Rest() == rest
      case Err(e) => r == Failure(e)
    }

    constructor (bytes: Bytes)
      ensures input == bytes && pos == 0 && Valid() && Rest() == bytes
    {
      input, pos := bytes, 0;
    }

    method Fixed(n: nat) returns (r: Result<nat>)
      requires Valid()
      modifies this
      ensures Valid() && Got(ReadLe(old(Rest()), n), r)
    {
      if |input| - pos < n {
        return Failure(Truncated);
      }
      var s := input[pos..pos + n];
      var v: nat := 0;
      for i := 0 to n
        invariant v + Shifted(GetLe(s[i..]), i) == GetLe(s)
        invariant unchanged(this)
      {
        GetLeSplit(s, i);
        ShiftedStep(s[i], GetLe(s[i + 1..]), i);
        v := v + Shifted(s[i], i);
      }
      assert s[n..] == [] && Rest()[..n] == s && Rest()[n..] == input[pos + n..];
      pos := pos + n;
      return Success(v);
    }

    method Varint() returns (r: Result<nat>)
      requires Valid()
      modifies this
      ensures Valid() && Got(ReadVarint(old(Rest())), r)
      ensures |Rest()| <= |old(Rest())|
    {
      ghost var start := Rest();
      var v: nat := 0;
      for k := 0 to 10
        invariant Valid() && |Rest()| <= |start|
        invariant ReadVarint(start) == Resumed(v, k, ReadVarintAt(Rest(), k))
      {
        if pos >= |input| {
          return Failure(Truncated);
        }
        ghost var here := Rest();
        var b := input[pos];
        assert here[0] == b && here[1..] == input[pos + 1..];
        pos := pos + 1;
        if b < 128 {
          v := v + Grouped(b, k);
          if k == 9 && b > 1 {
            return Failure(Corrupt);
          }
          return Success(v);
        }
        ResumeStep(here, v, k);
        v := v + Grouped(b - 128, k);
      }
      return Failure(Corrupt);
    }

    method String() returns (r: Result<Bytes>)
      requires Valid()
      modifies this
      ensures Valid() && Got(ReadString(old(Rest())), r)
    {
      var n :- Varint();
      if n > |input| - pos {
        return Failure(Truncated);
      }
      assert Rest()[..n] == input[pos..pos + n] && Rest()[n..] == input[pos + n..];
      r := Success(input[pos..pos + n]);
      pos := pos + n;
    }

    method Attributes() returns (r: Result<Types.Attributes>)
      requires Valid()
      modifies this
      ensures Valid() && Got(ReadAttributes(old(Rest())), r)
    {
      var kind :- Fixed(1);
      if kind > 3 {
        return Failure(Corrupt);
      }
      var mode :- Varint();
      if mode > 0xFFFF_FFFF {
        return Failure(Corrupt);
      }
      var size :- Varint();
      var mtime :- Fixed(8);
      return Success(Types.Attributes(size, Signed(mtime), mode, KindOf(kind)));
    }

    method Entry() returns (r: Result<SnapshotEntry>)
      requires Valid()
      modifies this
      ensures Valid() && Got(ReadEntry(old(Rest())), r)
    {
      var parent :- Fixed(4);
      var attr :- Attributes();
      var name :- String();
      return Success(SnapshotEntry(parent, name, attr));
    }

    method Op() returns (r: Result<InvalidationOp>)
      requires Valid()
      modifies this
      ensures Valid() && Got(ReadOp(old(Rest())), r)
    {
      var kind :- Fixed(1);
      if kind > 2 {
        return Failure(Corrupt);
      }
      var path :- String();
      var attr := NO_ATTRIBUTES;
      if OpKindOf(kind) == Upsert {
        attr :- Attributes();
      }
      var change :- Fixed(1);
      if change > 5 {
        return Failure(Corrupt);
      }
      var cookie := 0;
      if IsMove(ChangeKindOf(change)) {
        cookie :- Fixed(4);
      }
      return Success(InvalidationOp(OpKindOf(kind), path, attr, ChangeKindOf(change), cookie));
    }

    /** `count` ops in a row. */
    method Ops(count: nat) returns (r: Result<seq<InvalidationOp>>)
      requires Valid()
      modifies this
      ensures Valid() && Got(ReadAll(ReadOp, old(Rest()), count), r)
    {
      ghost var start := Rest();
      var ops := [];
      ContinuedNil(ReadAll(ReadOp, start, count));
      for i := 0 to count
        invariant Valid()
        invariant ReadAll(ReadOp, start, count) == Continued(ops, ReadAll(ReadOp, Rest(), count - i))
      {
        ContinueStep(ReadOp, ops, Rest(), count - i);
        var op :- Op();
        ops := ops + [op];
      }
      ContinuedEnd(ReadOp, ops, Rest());
      return Success(ops);
    }

    method Invalidation() returns (r: Result<Batch>)
      requires Valid()
      modifies this
      ensures Valid() && Got(ReadInvalidation(old(Rest())), r)
    {
      var generation :- Fixed(8);
      var count :- Varint();
      if count > |input| - pos {
        return Failure(Corrupt);
      }
      var ops :- Ops(count);
      return Success(Batch(generation, ops));
    }

    method Entries(count: nat) returns (r: Result<seq<SnapshotEntry>>)
      requires Valid()
      modifies this
      ensures Valid() && Got(ReadAll(ReadEntry, old(Rest()), count), r)
    {
      ghost var start := Rest();
      var entries := [];
      ContinuedNil(ReadAll(ReadEntry, start, count));
      for i := 0 to count
        invariant Valid()
        invariant ReadAll(ReadEntry, start, count) == Continued(entries, ReadAll(ReadEntry, Rest(), count - i))
      {
        ContinueStep(ReadEntry, entries, Rest(), count - i);
        var e :- Entry();
        entries := entries + [e];
      }
      ContinuedEnd(ReadEntry, entries, Rest());
      return Success(entries);
    }

    method Snapshot() returns (r: Result<Messages.Snapshot>)
      requires Valid()
      modifies this
      ensures Valid() && Got(ReadSnapshot(old(Rest())), r)
    {
      var generation :- Fixed(8);
      var count :- Fixed(4);
      if count * ENTRY_MIN > |input| - pos {
        return Failure(Corrupt);
      }
      var entries :- Entries(count);
      return Success(Messages.Snapshot(generation, entries));
    }

    method ReadMany() returns (r: Result<seq<Bytes>>)
      requires Valid()
      modifies this
      ensures Valid() && Got(ReadReadMany(old(Rest())), r)
    {
      var count :- Varint();
      if count > |input| - pos {
        return Failure(Corrupt);
      }
      if count > MAX_READ_MANY {
        return Failure(InvalidArgument);
      }
      ghost var start := Rest();
      var paths := [];
      ContinuedNil(ReadAll(ReadString, start, count));
      for i := 0 to count
        invariant Valid()
        invariant ReadAll(ReadString, start, count) == Continued(paths, ReadAll(ReadString, Rest(), count - i))
      {
        ContinueStep(ReadString, paths, Rest(), count - i);
        var p :- String();
        paths := paths + [p];
      }
      ContinuedEnd(ReadString, paths, Rest());
      return Success(paths);
    }
  }

  /** A list read so far, then the rest of it. */
  ghost function Continued<T>(done: seq<T>, p: Parse<seq<T>>): Parse<seq<T>> {
    match p
    case Err(e) => Err(e)
    case Ok(xs, rest) => Ok(done + xs, rest)
  }

  lemma ContinuedNil<T>(p: Parse<seq<T>>)
    ensures Continued([], p) == p
  {
    if p.Ok? {
      assert [] + p.value == p.value;
    }
  }

  lemma {:induction false} ContinuedEnd<T>(read: Bytes -> Parse<T>, done: seq<T>, s: Bytes)
    ensures Continued(done, ReadAll(read, s, 0)) == Ok(done, s)
  {
    assert done + [] == done;
  }

  lemma ContinueStep<T>(read: Bytes -> Parse<T>, done: seq<T>, s: Bytes, n: nat)
    requires n > 0
    ensures read(s).Err? ==> Continued(done, ReadAll(read, s, n)) == Err(read(s).error)
    ensures read(s).Ok? ==>
              Continued(done, ReadAll(read, s, n)) == Continued(done + [read(s).value], ReadAll(read, read(s).rest, n - 1))
  {
    if read(s).Ok? && ReadAll(read, read(s).rest, n - 1).Ok? {
      var xs := ReadAll(read, read(s).rest, n - 1).value;
      assert done + ([read(s).value] + xs) == (done + [read(s).value]) + xs;
    }
  }

  /** Writing a batch and reading it back through the two classes. */
  method Exchange(b: Batch) returns (r: Result<Batch>, left: nat)
    requires BatchFits(b)
    ensures r == Success(Batch(b.generation, Each(Carried, b.ops))) && left == 0
  {
    var w := new Writer();
    w.Invalidation(b);
    var reader := new Reader(w.out);
    InvalidationRoundTrip(b, []);
    assert w.out == PutInvalidation(b) + [];
    r := reader.Invalidation();
    left := |reader.input| - reader.pos;
  }
}
