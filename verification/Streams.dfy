/** Replies and batches too large for one frame: how they are cut up and put together again. */
module Streams {
  import opened Types
  import opened Wire
  import opened TreeSnapshot
  import opened CoalescerEvents
  import opened CoalescerBatch
  import opened Messages
  import opened Codec

  const MAX_PAYLOAD: nat := 64 * 0x10_0000
  const MAX_SNAPSHOT_ENTRIES: nat := 0x10_0000
  const MAX_SNAPSHOT_BYTES: nat := 0x4000_0000

  function Flatten<T>(groups: seq<seq<T>>): seq<T> {
    if groups == [] then [] else Flatten(groups[..|groups| - 1]) + groups[|groups| - 1]
  }

  // --- batches ----------------------------------------------------------------------------

  lemma {:induction false} VarintSize(v: nat, n: nat)
    requires n > 0 && v < Pow128(n)
    ensures |PutVarint(v)| <= n
  {
    if v >= 128 {
      assert n > 1;
      VarintSize(v / 128, n - 1);
    }
  }

  lemma Powers()
    ensures Pow128(10) >= U64_LIMIT && Pow128(5) >= U32_LIMIT
    ensures Pow128(2) == 0x4000 && Pow128(4) == 0x1000_0000 && Pow128(9) == 0x8000_0000_0000_0000
  {
    assert Pow128(1) == 0x80;
    assert Pow128(2) == 0x4000;
    assert Pow128(3) == 0x20_0000;
    assert Pow128(4) == 0x1000_0000;
    assert Pow128(5) == 0x8_0000_0000;
    assert Pow128(6) == 0x400_0000_0000;
    assert Pow128(7) == 0x2_0000_0000_0000;
    assert Pow128(8) == 0x100_0000_0000_0000;
    assert Pow128(9) == 0x8000_0000_0000_0000;
  }

  /** What the agent reckons an op costs. */
  function Cost(op: InvalidationOp): nat {
    |op.path| + 32
  }

  function CostOf(ops: seq<InvalidationOp>): nat {
    if ops == [] then 0 else CostOf(ops[..|ops| - 1]) + Cost(ops[|ops| - 1])
  }

  /** The reckoning can be short by a quarter, never more. */
  lemma OpSize(op: InvalidationOp)
    requires OpFits(op)
    ensures |PutOp(op)| <= |op.path| + 40 && 4 * |PutOp(op)| <= 5 * Cost(op)
  {
    Powers();
    VarintSize(|op.path|, 10);
    VarintSize(op.attr.mode, 5);
    VarintSize(op.attr.size, 10);
    assert |PutAttrFor(op)| <= 24 && |PutTail(op)| <= 5;
    assert |PutString(op.path)| <= |op.path| + 10;
  }

  /** Bytes the length of an op varies by, beyond its path and its fixed fields. */
  function Varying(op: InvalidationOp): nat {
    |PutVarint(|op.path|)| + |PutVarint(op.attr.mode)| + |PutVarint(op.attr.size)| + if IsMove(op.change) then 4 else 0
  }

  /** The reckoning falls short exactly for upserts whose varying fields need more than 21 bytes. */
  lemma ShortIff(op: InvalidationOp)
    requires OpFits(op)
    ensures |PutOp(op)| > Cost(op) <==> op.kind.Upsert? && Varying(op) > 21
  {
    Powers();
    VarintSize(|op.path|, 10);
    assert |PutTail(op)| == if IsMove(op.change) then 5 else 1;
    assert |PutString(op.path)| == |PutVarint(|op.path|)| + |op.path|;
    assert op.kind.Upsert? ==> |PutAttrFor(op)| == 9 + |PutVarint(op.attr.mode)| + |PutVarint(op.attr.size)|;
  }

  lemma {:induction false} VarintNeeds(v: nat, n: nat)
    requires v >= Pow128(n)
    ensures |PutVarint(v)| > n
  {
    if n > 0 {
      VarintNeeds(v / 128, n - 1);
    }
  }

  /** A moved file with a path of 16 KiB and attributes at the end of their ranges. */
  function LongestMove(): InvalidationOp {
    InvalidationOp(Upsert, seq(0x4000, _ => 97), Attributes(U64_LIMIT - 1, 0, U32_LIMIT - 1, File), MovedTo, 1)
  }

  /** ... takes more bytes than it is reckoned to. */
  lemma ReckonedShort()
    ensures OpFits(LongestMove()) && |PutOp(LongestMove())| > Cost(LongestMove())
  {
    var op := LongestMove();
    Powers();
    VarintNeeds(|op.path|, 2);
    VarintNeeds(op.attr.mode, 4);
    VarintNeeds(op.attr.size, 9);
    ShortIff(op);
  }

  lemma {:induction false} OpsSize(ops: seq<InvalidationOp>)
    requires forall k :: 0 <= k < |ops| ==> OpFits(ops[k])
    ensures 4 * |PutAll(PutOp, ops)| <= 5 * CostOf(ops)
  {
    if ops != [] {
      var n := |ops| - 1;
      OpsSize(ops[..n]);
      OpSize(ops[n]);
      PutAllSnoc(PutOp, ops[..n], ops[n]);
      assert ops[..n] + [ops[n]] == ops;
    }
  }

  /** A chunk within the budget, or a single op, makes a frame the peer accepts. */
  lemma ChunkFits(b: Batch, budget: nat)
    requires BatchFits(b) && budget <= MAX_PAYLOAD / 2
    requires CostOf(b.ops) <= budget || (|b.ops| == 1 && |b.ops[0].path| <= MAX_PAYLOAD / 2)
    ensures |PutInvalidation(b)| <= MAX_PAYLOAD
  {
    Powers();
    VarintSize(|b.ops|, 10);
    OpsSize(b.ops);
    if |b.ops| == 1 {
      OpSize(b.ops[0]);
      assert b.ops[1..] == [];
      assert PutAll(PutOp, b.ops) == PutOp(b.ops[0]) + PutAll(PutOp, b.ops[1..]);
    }
  }

  ghost predicate ChunkOk(c: Batch, generation: nat, budget: nat) {
    c.generation == generation && c.ops != [] && (CostOf(c.ops) <= budget || |c.ops| == 1)
  }

  function OpsOf(chunks: seq<Batch>): seq<InvalidationOp> {
    if chunks == [] then [] else OpsOf(chunks[..|chunks| - 1]) + chunks[|chunks| - 1].ops
  }

  /** The ops of a chunk come after those of the chunks before it, in their own order. */
  lemma {:induction false} OpsOfAt(chunks: seq<Batch>, k: nat, i: nat)
    requires k < |chunks| && i < |chunks[k].ops|
    ensures |OpsOf(chunks[..k])| + i < |OpsOf(chunks)| && OpsOf(chunks)[|OpsOf(chunks[..k])| + i] == chunks[k].ops[i]
    decreases |chunks|
  {
    var n := |chunks| - 1;
    if k < n {
      OpsOfAt(chunks[..n], k, i);
      assert chunks[..n][..k] == chunks[..k];
    }
  }

  /** Where the next chunk ends: as far as the budget goes, and at least one op. */
  method NextCut(ops: seq<InvalidationOp>, first: nat, budget: nat) returns (last: nat)
    requires first < |ops|
    ensures first < last <= |ops|
    ensures CostOf(ops[first..last]) <= budget || last == first + 1
    ensures last < |ops| ==> CostOf(ops[first..last + 1]) > budget
  {
    var bytes := 0;
    last := first;
    assert ops[first..first] == [];
    while last < |ops|
      invariant first <= last <= |ops|
      invariant bytes == CostOf(ops[first..last])
      invariant bytes <= budget || last <= first + 1
    {
      assert ops[first..last + 1][..last - first] == ops[first..last];
      bytes := bytes + Cost(ops[last]);
      if bytes > budget && last > first {
        return;
      }
      last := last + 1;
    }
  }

  /** broadcast_batch: frames of one generation that carry the batch in order. */
  method BroadcastBatch(b: Batch, chunkBytes: nat) returns (chunks: seq<Batch>)
    requires BatchFits(b)
    ensures OpsOf(chunks) == b.ops
    ensures forall k :: 0 <= k < |chunks| ==> chunks[k].generation == b.generation && chunks[k].ops != []
    ensures (forall k :: 0 <= k < |b.ops| ==> |b.ops[k].path| <= MAX_PAYLOAD / 2) ==>
              forall k :: 0 <= k < |chunks| ==> |PutInvalidation(chunks[k])| <= MAX_PAYLOAD
  {
    var budget := if chunkBytes < MAX_PAYLOAD / 2 then chunkBytes else MAX_PAYLOAD / 2;
    chunks := [];
    var first := 0;
    while first < |b.ops|
      invariant 0 <= first <= |b.ops|
      invariant OpsOf(chunks) == b.ops[..first]
      invariant forall k :: 0 <= k < |chunks| ==> ChunkOk(chunks[k], b.generation, budget) && Within(chunks[k].ops, b.ops)
    {
      var last := NextCut(b.ops, first, budget);
      var chunk := Batch(b.generation, b.ops[first..last]);
      assert (chunks + [chunk])[..|chunks|] == chunks;
      assert b.ops[..first] + b.ops[first..last] == b.ops[..last];
      assert forall k :: 0 <= k < |chunk.ops| ==> chunk.ops[k] == b.ops[first + k];
      chunks := chunks + [chunk];
      first := last;
    }
    assert b.ops[..first] == b.ops;
    if forall k :: 0 <= k < |b.ops| ==> |b.ops[k].path| <= MAX_PAYLOAD / 2 {
      forall k | 0 <= k < |chunks| ensures |PutInvalidation(chunks[k])| <= MAX_PAYLOAD {
        WithinFits(chunks[k], b);
        ChunkFits(chunks[k], budget);
      }
    }
  }

  predicate Within(part: seq<InvalidationOp>, whole: seq<InvalidationOp>) {
    |part| <= |whole| && forall k :: 0 <= k < |part| ==> part[k] in whole
  }

  lemma WithinFits(c: Batch, b: Batch)
    requires BatchFits(b) && c.generation == b.generation && Within(c.ops, b.ops)
    requires forall k :: 0 <= k < |b.ops| ==> |b.ops[k].path| <= MAX_PAYLOAD / 2
    ensures BatchFits(c) && forall k :: 0 <= k < |c.ops| ==> |c.ops[k].path| <= MAX_PAYLOAD / 2
  {
    forall k | 0 <= k < |c.ops| ensures OpFits(c.ops[k]) && |c.ops[k].path| <= MAX_PAYLOAD / 2 {
      var j :| 0 <= j < |b.ops| && b.ops[j] == c.ops[k];
    }
  }

  // --- snapshots --------------------------------------------------------------------------

  datatype Frame = Frame(payload: Bytes, more: bool)

  function FrameOf(generation: nat, group: seq<SnapshotEntry>, more: bool): Frame {
    Frame(PutSnapshot(Snapshot(generation, group)), more)
  }

  /** The frames for entries grouped as they are sent; only the last says that nothing follows. */
  function Framed(generation: nat, groups: seq<seq<SnapshotEntry>>): seq<Frame> {
    seq(|groups|, k requires 0 <= k < |groups| => FrameOf(generation, groups[k], k < |groups| - 1))
  }

  function Encoded(group: seq<SnapshotEntry>): Bytes {
    PutAll(PutEntry, group)
  }

  predicate Below(size: nat, budget: nat) {
    size < if budget == 0 then 1 else budget
  }

  /** Each frame but the last was closed by the entry that reached the budget. */
  predicate Full(group: seq<SnapshotEntry>, budget: nat) {
    group != [] && |Encoded(group)| >= budget && Below(|Encoded(group[..|group| - 1])|, budget)
  }

  /** The frames sent so far are those of the groups closed so far. */
  ghost predicate Sent(frames: seq<Frame>, generation: nat, closed: seq<seq<SnapshotEntry>>, budget: nat) {
    && |frames| == |closed|
    && forall k {:trigger frames[k]} {:trigger closed[k]} :: 0 <= k < |closed| ==>
         Full(closed[k], budget) && frames[k] == FrameOf(generation, closed[k], true)
  }

  lemma SentMore(frames: seq<Frame>, generation: nat, closed: seq<seq<SnapshotEntry>>, budget: nat, g: seq<SnapshotEntry>)
    requires Sent(frames, generation, closed, budget) && Full(g, budget)
    ensures Sent(frames + [FrameOf(generation, g, true)], generation, closed + [g], budget)
  {
  }

  lemma SentAll(frames: seq<Frame>, generation: nat, closed: seq<seq<SnapshotEntry>>, budget: nat, g: seq<SnapshotEntry>)
    requires Sent(frames, generation, closed, budget)
    ensures frames + [FrameOf(generation, g, false)] == Framed(generation, closed + [g])
    ensures forall k :: 0 <= k < |closed| ==> Full((closed + [g])[k], budget)
  {
    var sent, all := frames + [FrameOf(generation, g, false)], Framed(generation, closed + [g]);
    forall k | 0 <= k < |all| ensures sent[k] == all[k] {
      assert all[k] == FrameOf(generation, (closed + [g])[k], k < |closed|);
    }
  }

  /** The items of a group come after those of the groups before it, in their own order. */
  lemma {:induction false} FlattenAt<T>(groups: seq<seq<T>>, k: nat, i: nat)
    requires k < |groups| && i < |groups[k]|
    ensures |Flatten(groups[..k])| + i < |Flatten(groups)| && Flatten(groups)[|Flatten(groups[..k])| + i] == groups[k][i]
    decreases |groups|
  {
    var n := |groups| - 1;
    if k < n {
      FlattenAt(groups[..n], k, i);
      assert groups[..n][..k] == groups[..k];
    }
  }

  lemma {:induction false} FlattenSnoc<T>(groups: seq<seq<T>>, g: seq<T>)
    ensures Flatten(groups + [g]) == Flatten(groups) + g
  {
    assert (groups + [g])[..|groups|] == groups;
  }

  lemma EncodedSnoc(group: seq<SnapshotEntry>, e: SnapshotEntry)
    ensures Encoded(group + [e]) == Encoded(group) + PutEntry(e) && (group + [e])[..|group|] == group
  {
    PutAllSnoc(PutEntry, group, e);
  }

  /** The agent's side of a snapshot: entries are buffered and sent off when they reach the budget. */
  class Sender {
    const generation: nat
    const budget: nat
    var buffer: Bytes
    var count: nat
    var frames: seq<Frame>
    ghost var closed: seq<seq<SnapshotEntry>>
    ghost var open: seq<SnapshotEntry>

    ghost predicate Valid()
      reads this
    {
      && buffer == Encoded(open) && count == |open| && Below(|buffer|, budget)
      && Sent(frames, generation, closed, budget)
    }

    /** Every entry handed over so far. */
    ghost function Entries(): seq<SnapshotEntry>
      reads this
    {
      Flatten(closed) + open
    }

    constructor (generation: nat, budget: nat)
      ensures this.generation == generation && this.budget == budget && Valid() && Entries() == [] && closed == []
    {
      this.generation, this.budget := generation, budget;
      buffer, count, frames, closed, open := [], 0, [], [], [];
    }

    method Flush(more: bool)
      requires buffer == Encoded(open) && count == |open|
      modifies this
      ensures frames == old(frames) + [FrameOf(generation, old(open), more)]
      ensures buffer == [] && count == 0 && open == [] && closed == old(closed) + [old(open)]
    {
      frames := frames + [Frame(PutHeader(Header(generation, count)) + buffer, more)];
      buffer, count := [], 0;
      closed, open := closed + [open], [];
    }

    /** What the scan calls for each entry it finds. */
    method OnEntry(e: SnapshotEntry)
      requires Valid()
      modifies this
      ensures Valid() && Entries() == old(Entries()) + [e]
    {
      EncodedSnoc(open, e);
      assert Flatten(closed) + (open + [e]) == (Flatten(closed) + open) + [e];
      buffer, count := buffer + PutEntry(e), count + 1;
      open := open + [e];
      if |buffer| >= budget {
        FlattenSnoc(closed, open);
        SentMore(frames, generation, closed, budget, open);
        Flush(true);
      }
    }

    /** The last frame, possibly empty, ends the stream. */
    method Finish()
      requires Valid()
      modifies this
      ensures frames == Framed(generation, closed) && Flatten(closed) == old(Entries()) && closed != []
      ensures forall k :: 0 <= k < |closed| - 1 ==> Full(closed[k], budget)
      ensures Below(|Encoded(closed[|closed| - 1])|, budget)
    {
      FlattenSnoc(closed, open);
      SentAll(frames, generation, closed, budget, open);
      Flush(false);
    }
  }

  /** send_snapshot, given what the scan finds. */
  method SendSnapshot(generation: nat, entries: seq<SnapshotEntry>, budget: nat)
      returns (frames: seq<Frame>, ghost groups: seq<seq<SnapshotEntry>>)
    ensures groups != [] && Flatten(groups) == entries && frames == Framed(generation, groups)
    ensures forall k :: 0 <= k < |groups| - 1 ==> Full(groups[k], budget)
    ensures Below(|Encoded(groups[|groups| - 1])|, budget)
  {
    var sender := new Sender(generation, budget);
    for i := 0 to |entries|
      invariant fresh(sender) && sender.Valid() && sender.Entries() == entries[..i]
    {
      assert entries[..i] + [entries[i]] == entries[..i + 1];
      sender.OnEntry(entries[i]);
    }
    assert entries[..|entries|] == entries;
    sender.Finish();
    frames, groups := sender.frames, sender.closed;
  }

  /** What the client has gathered of a streamed reply. */
  datatype Stream = Stream(bytes: nat, generation: nat, entries: seq<SnapshotEntry>, ok: bool, done: bool)

  const FRESH := Stream(0, 0, [], true, false)

  /** Items of one frame, up to the ceiling; false when one is missing or there are too many. */
  function Gather<T>(read: Bytes -> Parse<T>, done: seq<T>, s: Bytes, n: nat): (seq<T>, bool)
    decreases n
  {
    if n == 0 then (done, true)
    else if |done| >= MAX_SNAPSHOT_ENTRIES then (done, false)
    else match read(s)
         case Err(_) => (done, false)
         case Ok(e, rest) => Gather(read, done + [e], rest, n - 1)
  }

  /** One frame of the reply; once the stream is complete, later frames are nobody's. */
  function Accept(p: Stream, f: Frame): Stream {
    if p.done then p
    else
      var bytes := p.bytes + |f.payload|;
      if bytes > MAX_SNAPSHOT_BYTES then p.(bytes := bytes, ok := false, done := true)
      else match ReadHeader(f.payload)
           case Err(_) => p.(bytes := bytes, ok := false, done := true)
           case Ok(h, rest) =>
             var got := Gather(ReadEntry, p.entries, rest, h.count);
             Stream(bytes, h.generation, got.0, p.ok && got.1, !f.more || !(p.ok && got.1))
  }

  function AcceptAll(p: Stream, frames: seq<Frame>): Stream {
    if frames == [] then p else Accept(AcceptAll(p, frames[..|frames| - 1]), frames[|frames| - 1])
  }

  function Size(frames: seq<Frame>): nat {
    if frames == [] then 0 else Size(frames[..|frames| - 1]) + |frames[|frames| - 1].payload|
  }

  lemma AcceptSnoc(frames: seq<Frame>, n: nat)
    requires n < |frames|
    ensures AcceptAll(FRESH, frames[..n + 1]) == Accept(AcceptAll(FRESH, frames[..n]), frames[n])
    ensures Size(frames[..n + 1]) == Size(frames[..n]) + |frames[n].payload|
  {
    assert frames[..n + 1][..n] == frames[..n];
  }

  /** The reader's side of a streamed reply. */
  class Pending {
    var bytes: nat
    var generation: nat
    var entries: seq<SnapshotEntry>
    var ok: bool
    var done: bool

    function Fields(): Stream
      reads this
    {
      Stream(bytes, generation, entries, ok, done)
    }

    constructor ()
      ensures Fields() == FRESH
    {
      bytes, generation, entries, ok, done := 0, 0, [], true, false;
    }

    /** The entries of one frame, until one is missing or the ceiling is reached. */
    method TakeEntries(read: Bytes -> Parse<SnapshotEntry>, bytes: Bytes, count: nat)
      modifies `entries, `ok
      ensures (entries, ok) == (Gather(read, old(entries), bytes, count).0, old(ok) && Gather(read, old(entries), bytes, count).1)
    {
      var s, i := bytes, 0;
      while i < count
        invariant 0 <= i <= count && ok == old(ok)
        invariant Gather(read, entries, s, count - i) == Gather(read, old(entries), bytes, count)
      {
        if |entries| >= MAX_SNAPSHOT_ENTRIES {
          ok := false;
          break;
        }
        if read(s).Err? {
          ok := false;
          break;
        }
        entries, s := entries + [read(s).value], read(s).rest;
        i := i + 1;
      }
    }

    method OnFrame(f: Frame)
      modifies this
      ensures Fields() == Accept(old(Fields()), f)
    {
      if done {
        return;
      }
      bytes := bytes + |f.payload|;
      if bytes > MAX_SNAPSHOT_BYTES {
        ok := false;
      } else if ReadHeader(f.payload).Ok? {
        generation := ReadHeader(f.payload).value.generation;
        TakeEntries(ReadEntry, ReadHeader(f.payload).rest, ReadHeader(f.payload).value.count);
      } else {
        ok := false;
      }
      if !f.more || !ok {
        done := true;
      }
    }
  }

  lemma {:induction false} FirstOf<T(!new)>(put: T -> Bytes, read: Bytes -> Parse<T>, fits: T -> bool, g: seq<T>, rest: Bytes)
    requires Inverts(put, read, fits, x => x) && g != [] && fits(g[0])
    ensures read(PutAll(put, g) + rest) == Ok(g[0], PutAll(put, g[1..]) + rest)
  {
    Assoc(put(g[0]), PutAll(put, g[1..]), rest);
  }

  lemma {:induction false} GatherAll<T(!new)>(put: T -> Bytes, read: Bytes -> Parse<T>, fits: T -> bool,
                                              done: seq<T>, g: seq<T>, rest: Bytes)
    requires Inverts(put, read, fits, x => x) && forall k :: 0 <= k < |g| ==> fits(g[k])
    requires |done| + |g| <= MAX_SNAPSHOT_ENTRIES
    ensures Gather(read, done, PutAll(put, g) + rest, |g|) == (done + g, true)
    decreases |g|
  {
    if g == [] {
      assert done + g == done;
    } else {
      FirstOf(put, read, fits, g, rest);
      GatherAll(put, read, fits, done + [g[0]], g[1..], rest);
      assert (done + [g[0]]) + g[1..] == done + g;
    }
  }

  lemma {:induction false} GatherTooMany<T(!new)>(put: T -> Bytes, read: Bytes -> Parse<T>, fits: T -> bool,
                                                  done: seq<T>, g: seq<T>, rest: Bytes)
    requires Inverts(put, read, fits, x => x) && forall k :: 0 <= k < |g| ==> fits(g[k])
    requires |done| <= MAX_SNAPSHOT_ENTRIES < |done| + |g|
    ensures !Gather(read, done, PutAll(put, g) + rest, |g|).1
    decreases |g|
  {
    if |done| < MAX_SNAPSHOT_ENTRIES {
      FirstOf(put, read, fits, g, rest);
      GatherTooMany(put, read, fits, done + [g[0]], g[1..], rest);
    }
  }

  /** One well-formed frame extends the stream by its entries, or breaks it at a ceiling. */
  lemma AcceptGroup(p: Stream, generation: nat, g: seq<SnapshotEntry>, more: bool)
    requires p.ok && !p.done && generation < U64_LIMIT && |g| < U32_LIMIT && forall k :: 0 <= k < |g| ==> EntryFits(g[k])
    requires |p.entries| <= MAX_SNAPSHOT_ENTRIES
    ensures var f := Frame(PutSnapshot(Snapshot(generation, g)), more);
            var q := Accept(p, f);
            var bytes := p.bytes + |f.payload|;
            if bytes <= MAX_SNAPSHOT_BYTES && |p.entries| + |g| <= MAX_SNAPSHOT_ENTRIES
            then q == Stream(bytes, generation, p.entries + g, true, !more)
            else !q.ok && q.done
  {
    var body := PutAll(PutEntry, g);
    forall e ensures |PutEntry(e)| >= ENTRY_MIN {
      EntrySize(e);
    }
    ListSize(PutEntry, g, ENTRY_MIN);
    HeaderRoundTrip(Header(generation, |g|), body);
    forall e, rest | EntryFits(e) ensures ReadEntry(PutEntry(e) + rest) == Ok(e, rest) {
      EntryRoundTrip(e, rest);
    }
    if |p.entries| + |g| <= MAX_SNAPSHOT_ENTRIES {
      GatherAll(PutEntry, ReadEntry, EntryFits, p.entries, g, []);
    } else {
      GatherTooMany(PutEntry, ReadEntry, EntryFits, p.entries, g, []);
    }
    assert body + [] == body;
  }

  lemma FramedPrefix(generation: nat, groups: seq<seq<SnapshotEntry>>, n: nat)
    requires n < |groups|
    ensures Framed(generation, groups)[..n + 1][..n] == Framed(generation, groups)[..n]
    ensures Framed(generation, groups)[..n + 1][n] == Framed(generation, groups)[n]
    ensures groups[..n + 1][..n] == groups[..n]
  {
  }

  predicate GroupsFit(groups: seq<seq<SnapshotEntry>>) {
    forall j :: 0 <= j < |groups| ==> |groups[j]| < U32_LIMIT && forall k :: 0 <= k < |groups[j]| ==> EntryFits(groups[j][k])
  }

  /** After any number of frames: the entries so far, or broken for good. */
  lemma {:induction false} StreamSoFar(generation: nat, groups: seq<seq<SnapshotEntry>>, n: nat)
    requires n <= |groups| && generation < U64_LIMIT && GroupsFit(groups)
    ensures var frames := Framed(generation, groups);
            var p := AcceptAll(FRESH, frames[..n]);
            if Size(frames[..n]) <= MAX_SNAPSHOT_BYTES && |Flatten(groups[..n])| <= MAX_SNAPSHOT_ENTRIES
            then p == Stream(Size(frames[..n]), if n == 0 then 0 else generation, Flatten(groups[..n]), true, n > 0 && n == |groups|)
            else !p.ok && p.done
  {
    if n > 0 {
      var frames := Framed(generation, groups);
      StreamSoFar(generation, groups, n - 1);
      FramedPrefix(generation, groups, n - 1);
      var p := AcceptAll(FRESH, frames[..n - 1]);
      if p.ok {
        AcceptGroup(p, generation, groups[n - 1], n - 1 < |groups| - 1);
      }
    }
  }

  /**
   * What the client ends up with is what the agent scanned, exactly when both ceilings hold;
   * no frame but the last completes the stream.
   */
  lemma {:induction false} StreamReassembles(generation: nat, groups: seq<seq<SnapshotEntry>>)
    requires groups != [] && generation < U64_LIMIT && GroupsFit(groups)
    ensures var frames := Framed(generation, groups);
            var p := AcceptAll(FRESH, frames);
            && p.done
            && (p.ok <==> Size(frames) <= MAX_SNAPSHOT_BYTES && |Flatten(groups)| <= MAX_SNAPSHOT_ENTRIES)
            && (p.ok ==> p.entries == Flatten(groups) && p.generation == generation)
            && (p.ok ==> forall n :: 0 <= n < |frames| ==> !AcceptAll(FRESH, frames[..n]).done)
  {
    var frames := Framed(generation, groups);
    StreamSoFar(generation, groups, |groups|);
    assert frames[..|groups|] == frames && groups[..|groups|] == groups;
    if AcceptAll(FRESH, frames).ok {
      forall n | 0 <= n < |frames| ensures !AcceptAll(FRESH, frames[..n]).done {
        StreamSoFar(generation, groups, n);
        Shorter(frames, groups, n);
      }
    }
  }

  lemma {:induction false} Shorter(frames: seq<Frame>, groups: seq<seq<SnapshotEntry>>, n: nat)
    requires n <= |frames| == |groups|
    ensures Size(frames[..n]) <= Size(frames) && |Flatten(groups[..n])| <= |Flatten(groups)|
    decreases |frames|
  {
    if n < |frames| {
      var m := |frames| - 1;
      Shorter(frames[..m], groups[..m], n);
      assert frames[..m][..n] == frames[..n] && groups[..m][..n] == groups[..n];
    } else {
      assert frames[..n] == frames && groups[..n] == groups;
    }
  }

  /** The two ends together: one snapshot sent and received. */
  method Transfer(generation: nat, entries: seq<SnapshotEntry>, budget: nat) returns (p: Pending, total: nat)
    requires generation < U64_LIMIT && |entries| < U32_LIMIT && forall k :: 0 <= k < |entries| ==> EntryFits(entries[k])
    ensures fresh(p) && p.done
    ensures p.ok <==> total <= MAX_SNAPSHOT_BYTES && |entries| <= MAX_SNAPSHOT_ENTRIES
    ensures p.ok ==> p.entries == entries && p.generation == generation
  {
    ghost var groups;
    var frames;
    frames, groups := SendSnapshot(generation, entries, budget);
    p := new Pending();
    total := 0;
    for i := 0 to |frames|
      invariant fresh(p)
      invariant p.Fields() == AcceptAll(FRESH, frames[..i]) && total == Size(frames[..i])
    {
      AcceptSnoc(frames, i);
      p.OnFrame(frames[i]);
      total := total + |frames[i].payload|;
    }
    assert frames[..|frames|] == frames;
    GroupsOfFitting(entries, groups);
    StreamReassembles(generation, groups);
  }

  lemma {:induction false} GroupsOfFitting(entries: seq<SnapshotEntry>, groups: seq<seq<SnapshotEntry>>)
    requires Flatten(groups) == entries && |entries| < U32_LIMIT && forall k :: 0 <= k < |entries| ==> EntryFits(entries[k])
    ensures GroupsFit(groups)
    decreases |groups|
  {
    if groups != [] {
      var n := |groups| - 1;
      var front := Flatten(groups[..n]);
      assert forall k :: 0 <= k < |front| ==> front[k] == entries[k];
      assert forall k :: 0 <= k < |groups[n]| ==> groups[n][k] == entries[|front| + k];
      GroupsOfFitting(front, groups[..n]);
    }
  }
}
