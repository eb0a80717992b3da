/** Message payloads: attributes, snapshots, invalidation batches and bulk reads. */
module Messages {
  import opened Types
  import opened Wire
  import opened TreeSnapshot
  import opened CoalescerEvents
  import opened CoalescerBatch

  // --- attributes -------------------------------------------------------------------------

  function KindCode(k: NodeKind): nat {
    match k
    case File => 0
    case Directory => 1
    case Symlink => 2
    case Other => 3
  }

  function KindOf(c: nat): NodeKind {
    if c == 0 then File else if c == 1 then Directory else if c == 2 then Symlink else Other
  }

  predicate AttributesFit(a: Attributes) {
    a.size < U64_LIMIT && a.mode < U32_LIMIT && I64_MIN <= a.mtimeNs < I64_LIMIT
  }

  function PutAttributes(a: Attributes): Bytes {
    PutLe(KindCode(a.kind), 1) + (PutVarint(a.mode) + (PutVarint(a.size) + PutLe(Unsigned(a.mtimeNs), 8)))
  }

  function ReadAttributes(s: Bytes): Parse<Attributes> {
    match ReadLe(s, 1)
    case Err(e) => Err(e)
    case Ok(kind, s1) =>
      if kind > 3 then Err(Corrupt)
      else
        match ReadVarint(s1)
        case Err(e) => Err(e)
        case Ok(mode, s2) =>
          if mode >= U32_LIMIT then Err(Corrupt)
          else
            match ReadVarint(s2)
            case Err(e) => Err(e)
            case Ok(size, s3) =>
              match ReadLe(s3, 8)
              case Err(e) => Err(e)
              case Ok(mtime, rest) => Ok(Attributes(size, Signed(mtime), mode, KindOf(kind)), rest)
  }

  lemma AttributesRoundTrip(a: Attributes, rest: Bytes)
    requires AttributesFit(a)
    ensures ReadAttributes(PutAttributes(a) + rest) == Ok(a, rest)
  {
    Widths();
    SignedRoundTrip(a.mtimeNs);
    var s3 := PutLe(Unsigned(a.mtimeNs), 8) + rest;
    var s2 := PutVarint(a.size) + s3;
    var s1 := PutVarint(a.mode) + s2;
    assert PutAttributes(a) + rest == PutLe(KindCode(a.kind), 1) + s1;
    ReadLeRoundTrip(KindCode(a.kind), 1, s1);
    VarintRoundTrip(a.mode, s2);
    VarintRoundTrip(a.size, s3);
    ReadLeRoundTrip(Unsigned(a.mtimeNs), 8, rest);
  }

  lemma AttributesStable(s: Bytes, more: Bytes)
    requires ReadAttributes(s).Ok?
    ensures ReadAttributes(s + more) == Ok(ReadAttributes(s).value, ReadAttributes(s).rest + more)
    ensures AttributesFit(ReadAttributes(s).value)
  {
    Widths();
    ReadLeStable(s, 1, more);
    var s1 := ReadLe(s, 1).rest;
    VarintStable(s1, more);
    var s2 := ReadVarint(s1).rest;
    VarintStable(s2, more);
    ReadLeStable(ReadVarint(s2).rest, 8, more);
  }

  // --- snapshots --------------------------------------------------------------------------

  predicate EntryFits(e: SnapshotEntry) {
    e.parent < U32_LIMIT && AttributesFit(e.attr) && |e.name| < U64_LIMIT
  }

  function PutEntry(e: SnapshotEntry): Bytes {
    PutLe(e.parent, 4) + (PutAttributes(e.attr) + PutString(e.name))
  }

  function ReadEntry(s: Bytes): Parse<SnapshotEntry> {
    match ReadLe(s, 4)
    case Err(e) => Err(e)
    case Ok(parent, s1) =>
      match ReadAttributes(s1)
      case Err(e) => Err(e)
      case Ok(attr, s2) =>
        match ReadString(s2)
        case Err(e) => Err(e)
        case Ok(name, rest) => Ok(SnapshotEntry(parent, name, attr), rest)
  }

  lemma EntryRoundTrip(e: SnapshotEntry, rest: Bytes)
    requires EntryFits(e)
    ensures ReadEntry(PutEntry(e) + rest) == Ok(e, rest)
  {
    Widths();
    var s2 := PutString(e.name) + rest;
    var s1 := PutAttributes(e.attr) + s2;
    assert PutEntry(e) + rest == PutLe(e.parent, 4) + s1;
    ReadLeRoundTrip(e.parent, 4, s1);
    AttributesRoundTrip(e.attr, s2);
    StringRoundTrip(e.name, rest);
  }

  lemma EntryStable(s: Bytes, more: Bytes)
    requires ReadEntry(s).Ok?
    ensures ReadEntry(s + more) == Ok(ReadEntry(s).value, ReadEntry(s).rest + more)
  {
    ReadLeStable(s, 4, more);
    var s1 := ReadLe(s, 4).rest;
    AttributesStable(s1, more);
    StringStable(ReadAttributes(s1).rest, more);
  }

  /** The least size of an entry, which the header's count is checked against. */
  const ENTRY_MIN: nat := 16

  lemma EntrySize(e: SnapshotEntry)
    ensures |PutEntry(e)| >= ENTRY_MIN
  {
  }

  datatype Header = Header(generation: nat, count: nat)

  function PutHeader(h: Header): Bytes {
    PutLe(h.generation, 8) + PutLe(h.count, 4)
  }

  function ReadHeader(s: Bytes): Parse<Header> {
    match ReadLe(s, 8)
    case Err(e) => Err(e)
    case Ok(generation, s1) =>
      match ReadLe(s1, 4)
      case Err(e) => Err(e)
      case Ok(count, rest) => if count * ENTRY_MIN > |rest| then Err(Corrupt) else Ok(Header(generation, count), rest)
  }

  datatype Snapshot = Snapshot(generation: nat, entries: seq<SnapshotEntry>)

  predicate SnapshotFits(p: Snapshot) {
    p.generation < U64_LIMIT && |p.entries| < U32_LIMIT && forall k :: 0 <= k < |p.entries| ==> EntryFits(p.entries[k])
  }

  function PutSnapshot(p: Snapshot): Bytes {
    PutHeader(Header(p.generation, |p.entries|)) + PutAll(PutEntry, p.entries)
  }

  function ReadSnapshot(s: Bytes): Parse<Snapshot> {
    match ReadHeader(s)
    case Err(e) => Err(e)
    case Ok(h, s1) =>
      match ReadAll(ReadEntry, s1, h.count)
      case Err(e) => Err(e)
      case Ok(entries, rest) => Ok(Snapshot(h.generation, entries), rest)
  }

  lemma HeaderRoundTrip(h: Header, rest: Bytes)
    requires h.generation < U64_LIMIT && h.count < U32_LIMIT && |rest| >= h.count * ENTRY_MIN
    ensures ReadHeader(PutHeader(h) + rest) == Ok(h, rest)
  {
    Widths();
    assert PutHeader(h) + rest == PutLe(h.generation, 8) + (PutLe(h.count, 4) + rest);
    ReadLeRoundTrip(h.generation, 8, PutLe(h.count, 4) + rest);
    ReadLeRoundTrip(h.count, 4, rest);
  }

  lemma HeaderStable(s: Bytes, more: Bytes)
    requires ReadHeader(s).Ok?
    ensures ReadHeader(s + more) == Ok(ReadHeader(s).value, ReadHeader(s).rest + more)
  {
    ReadLeStable(s, 8, more);
    ReadLeStable(ReadLe(s, 8).rest, 4, more);
  }

  lemma EntriesInvert()
    ensures Inverts(PutEntry, ReadEntry, EntryFits, (e: SnapshotEntry) => e)
  {
    forall e, rest | EntryFits(e) ensures ReadEntry(PutEntry(e) + rest) == Ok(e, rest) {
      EntryRoundTrip(e, rest);
    }
  }

  /** Any snapshot reads back as itself, with exactly the bytes after it left. */
  lemma SnapshotRoundTripBytes(p: Snapshot, rest: Bytes)
    requires SnapshotFits(p)
    ensures ReadSnapshot(PutSnapshot(p) + rest) == Ok(p, rest)
  {
    var body := PutAll(PutEntry, p.entries);
    forall e ensures |PutEntry(e)| >= ENTRY_MIN {
      EntrySize(e);
    }
    ListSize(PutEntry, p.entries, ENTRY_MIN);
    HeaderRoundTrip(Header(p.generation, |p.entries|), body + rest);
    assert PutSnapshot(p) + rest == PutHeader(Header(p.generation, |p.entries|)) + (body + rest);
    EntriesInvert();
    ListRoundTrip(PutEntry, ReadEntry, EntryFits, (e: SnapshotEntry) => e, p.entries, rest);
    assert Each((e: SnapshotEntry) => e, p.entries) == p.entries;
  }

  lemma SnapshotStable(s: Bytes, more: Bytes)
    requires ReadSnapshot(s).Ok?
    ensures ReadSnapshot(s + more) == Ok(ReadSnapshot(s).value, ReadSnapshot(s).rest + more)
  {
    HeaderStable(s, more);
    forall s, more | ReadEntry(s).Ok? ensures ReadEntry(s + more) == Ok(ReadEntry(s).value, ReadEntry(s).rest + more) {
      EntryStable(s, more);
    }
    ListStable(ReadEntry, ReadHeader(s).rest, ReadHeader(s).value.count, more);
  }

  // --- invalidation batches ---------------------------------------------------------------

  datatype InvalidationOp = InvalidationOp(kind: OpKind, path: Name, attr: Attributes, change: ChangeKind, cookie: nat)

  datatype Batch = Batch(generation: nat, ops: seq<InvalidationOp>)

  const NO_ATTRIBUTES := Attributes(0, 0, 0, File)

  function OpCode(k: OpKind): nat {
    match k
    case Upsert => 0
    case Remove => 1
    case Rescan => 2
  }

  function OpKindOf(c: nat): OpKind {
    if c == 0 then Upsert else if c == 1 then Remove else Rescan
  }

  function ChangeCode(c: ChangeKind): nat {
    match c
    case Unknown => 0
    case WasCreated => 1
    case WasModified => 2
    case WasRemoved => 3
    case MovedFrom => 4
    case MovedTo => 5
  }

  function ChangeKindOf(c: nat): ChangeKind {
    if c == 0 then Unknown else if c == 1 then WasCreated else if c == 2 then WasModified
    else if c == 3 then WasRemoved else if c == 4 then MovedFrom else MovedTo
  }

  predicate OpFits(op: InvalidationOp) {
    |op.path| < U64_LIMIT && AttributesFit(op.attr) && op.cookie < U32_LIMIT
  }

  /** Attributes travel with upserts only, cookies with moves only. */
  function Carried(op: InvalidationOp): InvalidationOp {
    op.(attr := if op.kind.Upsert? then op.attr else NO_ATTRIBUTES, cookie := if IsMove(op.change) then op.cookie else 0)
  }

  function PutTail(op: InvalidationOp): Bytes {
    PutLe(ChangeCode(op.change), 1) + if IsMove(op.change) then PutLe(op.cookie, 4) else []
  }

  function PutOp(op: InvalidationOp): Bytes {
    PutLe(OpCode(op.kind), 1)
    + (PutString(op.path) + (PutAttrFor(op) + PutTail(op)))
  }

  function ReadAttrFor(kind: OpKind, s: Bytes): Parse<Attributes> {
    if kind.Upsert? then ReadAttributes(s) else Ok(NO_ATTRIBUTES, s)
  }

  function ReadCookieFor(change: ChangeKind, s: Bytes): Parse<nat> {
    if IsMove(change) then ReadLe(s, 4) else Ok(0, s)
  }

  function ReadOp(s: Bytes): Parse<InvalidationOp> {
    match ReadLe(s, 1)
    case Err(e) => Err(e)
    case Ok(kind, s1) =>
      if kind > 2 then Err(Corrupt)
      else
        match ReadString(s1)
        case Err(e) => Err(e)
        case Ok(path, s2) =>
          match ReadAttrFor(OpKindOf(kind), s2)
          case Err(e) => Err(e)
          case Ok(attr, s3) =>
            match ReadLe(s3, 1)
            case Err(e) => Err(e)
            case Ok(change, s4) =>
              if change > 5 then Err(Corrupt)
              else
                match ReadCookieFor(ChangeKindOf(change), s4)
                case Err(e) => Err(e)
                case Ok(cookie, rest) => Ok(InvalidationOp(OpKindOf(kind), path, attr, ChangeKindOf(change), cookie), rest)
  }

  lemma TailRoundTrip(op: InvalidationOp, rest: Bytes)
    requires OpFits(op)
    ensures var c := ReadLe(PutTail(op) + rest, 1);
            c.Ok? && c.value == ChangeCode(op.change) && ReadCookieFor(op.change, c.rest) == Ok(Carried(op).cookie, rest)
  {
    Widths();
    var s4 := (if IsMove(op.change) then PutLe(op.cookie, 4) else []) + rest;
    assert PutTail(op) + rest == PutLe(ChangeCode(op.change), 1) + s4;
    ReadLeRoundTrip(ChangeCode(op.change), 1, s4);
    if IsMove(op.change) {
      ReadLeRoundTrip(op.cookie, 4, rest);
    } else {
      assert s4 == rest;
    }
  }

  function PutAttrFor(op: InvalidationOp): Bytes {
    if op.kind.Upsert? then PutAttributes(op.attr) else []
  }

  lemma AttrForRoundTrip(op: InvalidationOp, rest: Bytes)
    requires OpFits(op)
    ensures ReadAttrFor(op.kind, PutAttrFor(op) + rest) == Ok(Carried(op).attr, rest)
  {
    if op.kind.Upsert? {
      AttributesRoundTrip(op.attr, rest);
    } else {
      assert [] + rest == rest;
    }
  }

  lemma OpLayout(op: InvalidationOp, rest: Bytes)
    ensures PutOp(op) + rest == PutLe(OpCode(op.kind), 1) + (PutString(op.path) + (PutAttrFor(op) + (PutTail(op) + rest)))
  {
    Assoc(PutAttrFor(op), PutTail(op), rest);
    Assoc(PutString(op.path), PutAttrFor(op) + PutTail(op), rest);
    Assoc(PutLe(OpCode(op.kind), 1), PutString(op.path) + (PutAttrFor(op) + PutTail(op)), rest);
  }

  lemma ReadOpParts(s: Bytes, op: InvalidationOp, s1: Bytes, s2: Bytes, s3: Bytes, s4: Bytes, rest: Bytes)
    requires ReadLe(s, 1) == Ok(OpCode(op.kind), s1) && ReadString(s1) == Ok(op.path, s2)
    requires ReadAttrFor(op.kind, s2) == Ok(op.attr, s3) && ReadLe(s3, 1) == Ok(ChangeCode(op.change), s4)
    requires ReadCookieFor(op.change, s4) == Ok(op.cookie, rest)
    ensures ReadOp(s) == Ok(op, rest)
  {
  }

  lemma OpRoundTrip(op: InvalidationOp, rest: Bytes)
    requires OpFits(op)
    ensures ReadOp(PutOp(op) + rest) == Ok(Carried(op), rest)
  {
    var s, s3 := PutOp(op) + rest, PutTail(op) + rest;
    var s2 := PutAttrFor(op) + s3;
    var s1 := PutString(op.path) + s2;
    assert ReadLe(s, 1) == Ok(OpCode(op.kind), s1) by {
      Widths();
      OpLayout(op, rest);
      ReadLeRoundTrip(OpCode(op.kind), 1, s1);
    }
    StringRoundTrip(op.path, s2);
    AttrForRoundTrip(op, s3);
    TailRoundTrip(op, rest);
    ReadOpParts(s, Carried(op), s1, s2, s3, ReadLe(s3, 1).rest, rest);
  }

  lemma OpStable(s: Bytes, more: Bytes)
    requires ReadOp(s).Ok?
    ensures ReadOp(s + more) == Ok(ReadOp(s).value, ReadOp(s).rest + more)
  {
    ReadLeStable(s, 1, more);
    var kind, s1 := OpKindOf(ReadLe(s, 1).value), ReadLe(s, 1).rest;
    StringStable(s1, more);
    var s2 := ReadString(s1).rest;
    if kind.Upsert? {
      AttributesStable(s2, more);
    }
    var s3 := ReadAttrFor(kind, s2).rest;
    ReadLeStable(s3, 1, more);
    var change, s4 := ChangeKindOf(ReadLe(s3, 1).value), ReadLe(s3, 1).rest;
    if IsMove(change) {
      ReadLeStable(s4, 4, more);
    }
  }

  predicate BatchFits(b: Batch) {
    b.generation < U64_LIMIT && |b.ops| < U64_LIMIT && forall k :: 0 <= k < |b.ops| ==> OpFits(b.ops[k])
  }

  function PutInvalidation(b: Batch): Bytes {
    PutLe(b.generation, 8) + (PutVarint(|b.ops|) + PutAll(PutOp, b.ops))
  }

  function ReadInvalidation(s: Bytes): Parse<Batch> {
    match ReadLe(s, 8)
    case Err(e) => Err(e)
    case Ok(generation, s1) =>
      match ReadVarint(s1)
      case Err(e) => Err(e)
      case Ok(count, s2) =>
        if count > |s2| then Err(Corrupt)
        else
          match ReadAll(ReadOp, s2, count)
          case Err(e) => Err(e)
          case Ok(ops, rest) => Ok(Batch(generation, ops), rest)
  }

  lemma OpsInvert()
    ensures Inverts(PutOp, ReadOp, OpFits, Carried)
  {
    forall op, rest | OpFits(op) ensures ReadOp(PutOp(op) + rest) == Ok(Carried(op), rest) {
      OpRoundTrip(op, rest);
    }
  }

  /** A batch reads back with every field that travels, and exactly the bytes after it left. */
  lemma InvalidationRoundTrip(b: Batch, rest: Bytes)
    requires BatchFits(b)
    ensures ReadInvalidation(PutInvalidation(b) + rest) == Ok(Batch(b.generation, Each(Carried, b.ops)), rest)
  {
    Widths();
    var body := PutAll(PutOp, b.ops);
    var s2 := body + rest;
    var s1 := PutVarint(|b.ops|) + s2;
    assert PutInvalidation(b) + rest == PutLe(b.generation, 8) + s1;
    ReadLeRoundTrip(b.generation, 8, s1);
    VarintRoundTrip(|b.ops|, s2);
    ListSize(PutOp, b.ops, 1);
    OpsInvert();
    ListRoundTrip(PutOp, ReadOp, OpFits, Carried, b.ops, rest);
  }

  lemma InvalidationStable(s: Bytes, more: Bytes)
    requires ReadInvalidation(s).Ok?
    ensures ReadInvalidation(s + more) == Ok(ReadInvalidation(s).value, ReadInvalidation(s).rest + more)
  {
    ReadLeStable(s, 8, more);
    var s1 := ReadLe(s, 8).rest;
    VarintStable(s1, more);
    forall s, more | ReadOp(s).Ok? ensures ReadOp(s + more) == Ok(ReadOp(s).value, ReadOp(s).rest + more) {
      OpStable(s, more);
    }
    ListStable(ReadOp, ReadVarint(s1).rest, ReadVarint(s1).value, more);
  }

  /** No encoded batch is a proper prefix of what any batch encodes to: a truncated one is always refused. */
  lemma TruncatedInvalidationRefused(b: Batch, n: nat)
    requires BatchFits(b) && n < |PutInvalidation(b)|
    ensures ReadInvalidation(PutInvalidation(b)[..n]).Err?
  {
    var s := PutInvalidation(b);
    InvalidationRoundTrip(b, []);
    assert s + [] == s && s[..n] + s[n..] == s;
    if ReadInvalidation(s[..n]).Ok? {
      InvalidationStable(s[..n], s[n..]);
    }
  }

  // --- bulk reads -------------------------------------------------------------------------

  const MAX_READ_MANY: nat := 4096

  predicate StringFits(b: Bytes) {
    |b| < U64_LIMIT
  }

  function PutReadMany(paths: seq<Bytes>): Bytes {
    PutVarint(|paths|) + PutAll(PutString, paths)
  }

  function ReadReadMany(s: Bytes): Parse<seq<Bytes>> {
    match ReadVarint(s)
    case Err(e) => Err(e)
    case Ok(count, s1) =>
      if count > |s1| then Err(Corrupt)
      else if count > MAX_READ_MANY then Err(InvalidArgument)
      else ReadAll(ReadString, s1, count)
  }

  /** A request reads back exactly when it stays within the limit on paths; a longer one is refused as such. */
  lemma ReadManyRoundTrip(paths: seq<Bytes>, rest: Bytes)
    requires |paths| < U64_LIMIT && forall k :: 0 <= k < |paths| ==> StringFits(paths[k])
    ensures ReadReadMany(PutReadMany(paths) + rest) == if |paths| <= MAX_READ_MANY then Ok(paths, rest) else Err(InvalidArgument)
  {
    var s1 := PutAll(PutString, paths) + rest;
    assert PutReadMany(paths) + rest == PutVarint(|paths|) + s1;
    VarintRoundTrip(|paths|, s1);
    ListSize(PutString, paths, 1);
    forall b, more | StringFits(b) ensures ReadString(PutString(b) + more) == Ok(b, more) {
      StringRoundTrip(b, more);
    }
    ListRoundTrip(PutString, ReadString, StringFits, (b: Bytes) => b, paths, rest);
    assert Each((b: Bytes) => b, paths) == paths;
  }

  lemma ReadManyStable(s: Bytes, more: Bytes)
    requires ReadReadMany(s).Ok?
    ensures ReadReadMany(s + more) == Ok(ReadReadMany(s).value, ReadReadMany(s).rest + more)
  {
    VarintStable(s, more);
    forall s, more | ReadString(s).Ok? ensures ReadString(s + more) == Ok(ReadString(s).value, ReadString(s).rest + more) {
      StringStable(s, more);
    }
    ListStable(ReadString, ReadVarint(s).rest, ReadVarint(s).value, more);
  }

  /** One file of the reply: its contents, or nothing when it could not be read. */
  type ReadManyItem = Option<Bytes>

  predicate ItemFits(it: ReadManyItem) {
    it.Some? ==> |it.value| < U64_LIMIT
  }

  function PutItem(it: ReadManyItem): Bytes {
    if it.Some? then PutLe(1, 1) + PutString(it.value) else PutLe(0, 1)
  }

  function ReadItem(s: Bytes): Parse<ReadManyItem> {
    match ReadLe(s, 1)
    case Err(e) => Err(e)
    case Ok(flag, s1) =>
      if flag == 0 then Ok(None, s1)
      else match ReadString(s1)
           case Err(e) => Err(e)
           case Ok(data, rest) => Ok(Some(data), rest)
  }

  function PutReadManyResponse(items: seq<ReadManyItem>): Bytes {
    PutVarint(|items|) + PutAll(PutItem, items)
  }

  function ReadReadManyResponse(s: Bytes): Parse<seq<ReadManyItem>> {
    match ReadVarint(s)
    case Err(e) => Err(e)
    case Ok(count, s1) => if count > |s1| then Err(Corrupt) else ReadAll(ReadItem, s1, count)
  }

  lemma ItemRoundTrip(it: ReadManyItem, rest: Bytes)
    requires ItemFits(it)
    ensures ReadItem(PutItem(it) + rest) == Ok(it, rest)
  {
    Widths();
    if it.Some? {
      assert PutItem(it) + rest == PutLe(1, 1) + (PutString(it.value) + rest);
      ReadLeRoundTrip(1, 1, PutString(it.value) + rest);
      StringRoundTrip(it.value, rest);
    } else {
      ReadLeRoundTrip(0, 1, rest);
    }
  }

  lemma ReadManyResponseRoundTrip(items: seq<ReadManyItem>, rest: Bytes)
    requires |items| < U64_LIMIT && forall k :: 0 <= k < |items| ==> ItemFits(items[k])
    ensures ReadReadManyResponse(PutReadManyResponse(items) + rest) == Ok(items, rest)
  {
    var s1 := PutAll(PutItem, items) + rest;
    assert PutReadManyResponse(items) + rest == PutVarint(|items|) + s1;
    VarintRoundTrip(|items|, s1);
    ListSize(PutItem, items, 1);
    forall it, more | ItemFits(it) ensures ReadItem(PutItem(it) + more) == Ok(it, more) {
      ItemRoundTrip(it, more);
    }
    ListRoundTrip(PutItem, ReadItem, ItemFits, (it: ReadManyItem) => it, items, rest);
    assert Each((it: ReadManyItem) => it, items) == items;
  }

  lemma ReadManyResponseStable(s: Bytes, more: Bytes)
    requires ReadReadManyResponse(s).Ok?
    ensures ReadReadManyResponse(s + more) == Ok(ReadReadManyResponse(s).value, ReadReadManyResponse(s).rest + more)
  {
    VarintStable(s, more);
    forall s, more | ReadItem(s).Ok? ensures ReadItem(s + more) == Ok(ReadItem(s).value, ReadItem(s).rest + more) {
      ReadLeStable(s, 1, more);
      if ReadLe(s, 1).value != 0 {
        StringStable(ReadLe(s, 1).rest, more);
      }
    }
    ListStable(ReadItem, ReadVarint(s).rest, ReadVarint(s).value, more);
  }
}
