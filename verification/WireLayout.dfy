/** The bytes themselves: what the messages look like on the wire, field by field. */
module WireLayout {
  import opened Types
  import opened Wire
  import opened Messages
  import opened CoalescerEvents
  import opened CoalescerBatch
  import opened TreeSnapshot

  /** Fixed-width integers are little-endian. */
  lemma {:induction false} LeBytes(v: nat, n: nat, k: nat)
    requires k < n
    ensures k == 0 ==> PutLe(v, n)[k] == v % 256
    ensures k > 0 ==> PutLe(v, n)[k] == PutLe(v / 256, n - 1)[k - 1]
    ensures PutLe(0x0102_0304, 4) == [4, 3, 2, 1]
  {
    assert PutLe(0x0102_0304, 4) == [4] + PutLe(0x01_0203, 3) && PutLe(0x01_0203, 3) == [3] + PutLe(0x0102, 2)
           && PutLe(0x0102, 2) == [2] + PutLe(1, 1) && PutLe(1, 1) == [1] + PutLe(0, 0);
  }

  /** A varint is its base-128 digits, least significant first, the top bit set on all but the last byte. */
  lemma {:induction false} VarintBytes(v: nat)
    ensures var s := PutVarint(v);
            && s[0] % 128 == v % 128
            && (v < 128 ==> s == [v])
            && (v >= 128 ==> s[0] >= 128 && s[1..] == PutVarint(v / 128))
            && s[|s| - 1] < 128 && (|s| > 1 ==> s[|s| - 1] != 0)
            && forall k :: 0 <= k < |s| - 1 ==> s[k] >= 128
    ensures PutVarint(300) == [0xAC, 2]
  {
    if v >= 128 {
      VarintBytes(v / 128);
      var s, t := PutVarint(v), PutVarint(v / 128);
      assert s == [s[0]] + t;
      assert forall k :: 0 < k < |s| ==> s[k] == t[k - 1];
    }
    assert PutVarint(300) == [172] + PutVarint(2) && PutVarint(2) == [2];
  }

  lemma {:induction false} OneByte(v: nat)
    requires v < 256
    ensures PutLe(v, 1) == [v]
  {
    assert PutLe(v, 1) == [v] + PutLe(v / 256, 0);
  }

  lemma TwosComplement(v: int)
    requires -0x8000_0000_0000_0000 <= v < 0x8000_0000_0000_0000
    ensures Unsigned(v) == if v < 0 then v + 0x1_0000_0000_0000_0000 else v
  {
    SignedRoundTrip(v);
  }

  /** Attributes: kind, mode, size, modification time in two's complement. */
  lemma {:induction false} AttributesLayout(a: Attributes)
    requires -0x8000_0000_0000_0000 <= a.mtimeNs < 0x8000_0000_0000_0000
    ensures PutAttributes(a) == [match a.kind case File => 0 case Directory => 1 case Symlink => 2 case Other => 3]
                                + (PutVarint(a.mode) + (PutVarint(a.size)
                                   + PutLe(if a.mtimeNs < 0 then a.mtimeNs + 0x1_0000_0000_0000_0000 else a.mtimeNs, 8)))
  {
    OneByte(KindCode(a.kind));
    TwosComplement(a.mtimeNs);
  }

  /** An op: kind, path, attributes of an upsert, change, and the cookie of a move. */
  lemma OpLayout(op: InvalidationOp)
    ensures PutOp(op) == [match op.kind case Upsert => 0 case Remove => 1 case Rescan => 2]
                         + ((PutVarint(|op.path|) + op.path)
                            + ((if op.kind.Upsert? then PutAttributes(op.attr) else [])
                               + ([match op.change case Unknown => 0 case WasCreated => 1 case WasModified => 2
                                                   case WasRemoved => 3 case MovedFrom => 4 case MovedTo => 5]
                                  + if op.change.MovedFrom? || op.change.MovedTo? then PutLe(op.cookie, 4) else [])))
  {
    OneByte(OpCode(op.kind));
    OneByte(ChangeCode(op.change));
  }

  /** A batch: generation, count, ops; a snapshot: generation, count, entries of parent, attributes and name. */
  lemma MessageLayout(b: Batch, p: Snapshot, e: SnapshotEntry)
    ensures PutInvalidation(b) == PutLe(b.generation, 8) + (PutVarint(|b.ops|) + PutAll(PutOp, b.ops))
    ensures PutSnapshot(p) == (PutLe(p.generation, 8) + PutLe(|p.entries|, 4)) + PutAll(PutEntry, p.entries)
    ensures PutEntry(e) == PutLe(e.parent, 4) + (PutAttributes(e.attr) + (PutVarint(|e.name|) + e.name))
  {
  }

  /** The fields of an op fit their widths. */
  predicate Fitting(op: InvalidationOp) {
    && |op.path| < 0x1_0000_0000_0000_0000 && op.cookie < 0x1_0000_0000
    && op.attr.size < 0x1_0000_0000_0000_0000 && op.attr.mode < 0x1_0000_0000
    && -0x8000_0000_0000_0000 <= op.attr.mtimeNs < 0x8000_0000_0000_0000
  }

  lemma FittingBatch(b: Batch)
    requires b.generation < 0x1_0000_0000_0000_0000 && |b.ops| < 0x1_0000_0000_0000_0000
    requires forall k :: 0 <= k < |b.ops| ==> Fitting(b.ops[k])
    ensures BatchFits(b)
  {
  }

  /** What of an op travels. */
  lemma WhatTravels(ops: seq<InvalidationOp>, k: nat)
    requires k < |ops|
    ensures var op, r := ops[k], Each(Carried, ops)[k];
            && r.kind == op.kind && r.path == op.path && r.change == op.change
            && (op.kind.Upsert? ==> r.attr == op.attr)
            && (op.change.MovedFrom? || op.change.MovedTo? ==> r.cookie == op.cookie)
  {
    assert Each(Carried, ops)[k] == Carried(ops[k]);
  }

  /** A batch within the widths of its fields reads back field by field. */
  lemma BatchReadsBack(b: Batch, rest: Bytes) returns (ops: seq<InvalidationOp>)
    requires b.generation < 0x1_0000_0000_0000_0000 && |b.ops| < 0x1_0000_0000_0000_0000
    requires forall k :: 0 <= k < |b.ops| ==>
               && |b.ops[k].path| < 0x1_0000_0000_0000_0000 && b.ops[k].cookie < 0x1_0000_0000
               && b.ops[k].attr.size < 0x1_0000_0000_0000_0000 && b.ops[k].attr.mode < 0x1_0000_0000
               && -0x8000_0000_0000_0000 <= b.ops[k].attr.mtimeNs < 0x8000_0000_0000_0000
    ensures ReadInvalidation(PutInvalidation(b) + rest) == Ok(Batch(b.generation, ops), rest)
    ensures |ops| == |b.ops| && forall k :: 0 <= k < |ops| ==>
              && ops[k].kind == b.ops[k].kind && ops[k].path == b.ops[k].path && ops[k].change == b.ops[k].change
              && (b.ops[k].kind.Upsert? ==> ops[k].attr == b.ops[k].attr)
              && (b.ops[k].change.MovedFrom? || b.ops[k].change.MovedTo? ==> ops[k].cookie == b.ops[k].cookie)
  {
    forall k | 0 <= k < |b.ops| ensures Fitting(b.ops[k]) {
    }
    FittingBatch(b);
    InvalidationRoundTrip(b, rest);
    ops := Each(Carried, b.ops);
    forall k | 0 <= k < |ops|
      ensures && ops[k].kind == b.ops[k].kind && ops[k].path == b.ops[k].path && ops[k].change == b.ops[k].change
              && (b.ops[k].kind.Upsert? ==> ops[k].attr == b.ops[k].attr)
              && (b.ops[k].change.MovedFrom? || b.ops[k].change.MovedTo? ==> ops[k].cookie == b.ops[k].cookie)
    {
      WhatTravels(b.ops, k);
    }
  }

  /** So does a snapshot. */
  lemma SnapshotReadsBack(p: Snapshot, rest: Bytes)
    requires p.generation < 0x1_0000_0000_0000_0000 && |p.entries| < 0x1_0000_0000
    requires forall k :: 0 <= k < |p.entries| ==>
               && p.entries[k].parent < 0x1_0000_0000 && |p.entries[k].name| < 0x1_0000_0000_0000_0000
               && p.entries[k].attr.size < 0x1_0000_0000_0000_0000 && p.entries[k].attr.mode < 0x1_0000_0000
               && -0x8000_0000_0000_0000 <= p.entries[k].attr.mtimeNs < 0x8000_0000_0000_0000
    ensures ReadSnapshot(PutSnapshot(p) + rest) == Ok(p, rest)
  {
    SnapshotRoundTripBytes(p, rest);
  }
}
