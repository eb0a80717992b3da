/** Wire primitives: fixed-width little-endian integers, LEB128 varints, length-prefixed strings. */
module Wire {
  import opened Types

  type Bytes = seq<byte>

  datatype Error = Truncated | Corrupt | InvalidArgument

  /** A value and the bytes after it, or why there is none. */
  datatype Parse<+T> = Ok(value: T, rest: Bytes) | Err(error: Error)

  const U8_LIMIT: nat := 0x100
  const U32_LIMIT: nat := 0x1_0000_0000
  const U64_LIMIT: nat := 0x1_0000_0000_0000_0000
  const I64_MIN: int := -0x8000_0000_0000_0000
  const I64_LIMIT: nat := 0x8000_0000_0000_0000

  lemma Assoc(a: Bytes, b: Bytes, c: Bytes)
    ensures (a + b) + c == a + (b + c)
  {
  }

  // --- fixed width ------------------------------------------------------------------------

  function ToByte(v: int): byte {
    v % 256
  }

  function PutLe(v: nat, n: nat): (s: Bytes)
    ensures |s| == n
  {
    if n == 0 then [] else [ToByte(v)] + PutLe(v / 256, n - 1)
  }

  function GetLe(s: Bytes): nat {
    if s == [] then 0 else s[0] + 256 * GetLe(s[1..])
  }

  function Pow256(n: nat): nat {
    if n == 0 then 1 else 256 * Pow256(n - 1)
  }

  lemma {:induction false} LeRoundTrip(v: nat, n: nat)
    requires v < Pow256(n)
    ensures GetLe(PutLe(v, n)) == v
  {
    if n > 0 {
      LeRoundTrip(v / 256, n - 1);
      assert PutLe(v, n)[1..] == PutLe(v / 256, n - 1);
    }
  }

  /** The other way: every string of n bytes is the encoding of its value. */
  lemma {:induction false} LeOnto(s: Bytes)
    ensures GetLe(s) < Pow256(|s|) && PutLe(GetLe(s), |s|) == s
  {
    if s != [] {
      LeOnto(s[1..]);
      assert s == [s[0]] + s[1..];
      assert GetLe(s) % 256 == s[0] && GetLe(s) / 256 == GetLe(s[1..]);
    }
  }

  lemma Widths()
    ensures Pow256(1) == U8_LIMIT && Pow256(4) == U32_LIMIT && Pow256(8) == U64_LIMIT
  {
    assert Pow256(2) == 0x1_0000;
    assert Pow256(3) == 0x100_0000;
    assert Pow256(4) == 0x1_0000_0000;
    assert Pow256(5) == 0x100_0000_0000;
    assert Pow256(6) == 0x1_0000_0000_0000;
    assert Pow256(7) == 0x100_0000_0000_0000;
  }

  function ReadLe(s: Bytes, n: nat): Parse<nat> {
    if |s| < n then Err(Truncated) else Ok(GetLe(s[..n]), s[n..])
  }

  lemma {:induction false} ReadLeRoundTrip(v: nat, n: nat, rest: Bytes)
    requires v < Pow256(n)
    ensures ReadLe(PutLe(v, n) + rest, n) == Ok(v, rest)
  {
    LeRoundTrip(v, n);
    assert (PutLe(v, n) + rest)[..n] == PutLe(v, n) && (PutLe(v, n) + rest)[n..] == rest;
  }

  lemma {:induction false} ReadLeStable(s: Bytes, n: nat, more: Bytes)
    requires ReadLe(s, n).Ok?
    ensures ReadLe(s + more, n) == Ok(ReadLe(s, n).value, ReadLe(s, n).rest + more)
    ensures ReadLe(s, n).value < Pow256(n)
  {
    assert (s + more)[..n] == s[..n] && (s + more)[n..] == s[n..] + more;
    LeOnto(s[..n]);
  }

  /** Two's complement. */
  function Unsigned(v: int): nat {
    v % U64_LIMIT
  }

  function Signed(v: nat): int {
    if v >= I64_LIMIT then v - U64_LIMIT else v
  }

  lemma SignedRoundTrip(v: int)
    requires I64_MIN <= v < I64_LIMIT
    ensures Unsigned(v) < U64_LIMIT && Signed(Unsigned(v)) == v
  {
    assert Unsigned(v) == if v < 0 then v + U64_LIMIT else v;
  }

  // --- varints ----------------------------------------------------------------------------

  /** Unsigned LEB128. */
  function PutVarint(v: nat): (s: Bytes)
    ensures |s| >= 1
  {
    if v < 128 then [ToByte(v)] else [ToByte(v % 128 + 128)] + PutVarint(v / 128)
  }

  /** At byte `k` of ten; the last may carry one bit only. */
  function ReadVarintAt(s: Bytes, k: nat): Parse<nat>
    requires k <= 10
    decreases 10 - k
  {
    if k == 10 then Err(Corrupt)
    else if s == [] then Err(Truncated)
    else if s[0] < 128 then (if k == 9 && s[0] > 1 then Err(Corrupt) else Ok(s[0], s[1..]))
    else match ReadVarintAt(s[1..], k + 1)
         case Err(e) => Err(e)
         case Ok(v, rest) => Ok(s[0] - 128 + 128 * v, rest)
  }

  function ReadVarint(s: Bytes): Parse<nat> {
    ReadVarintAt(s, 0)
  }

  /** What fits in the bytes left at byte `k`. */
  function VarintLimit(k: nat): nat
    requires k <= 9
    decreases 9 - k
  {
    if k == 9 then 2 else 128 * VarintLimit(k + 1)
  }

  lemma VarintLimitIsU64()
    ensures VarintLimit(0) == U64_LIMIT
  {
    assert VarintLimit(8) == 256;
    assert VarintLimit(7) == 0x8000;
    assert VarintLimit(6) == 0x40_0000;
    assert VarintLimit(5) == 0x2000_0000;
    assert VarintLimit(4) == 0x10_0000_0000;
    assert VarintLimit(3) == 0x800_0000_0000;
    assert VarintLimit(2) == 0x4_0000_0000_0000;
    assert VarintLimit(1) == 0x200_0000_0000_0000;
  }

  lemma {:induction false} ReadVarintLast(low: nat, k: nat, rest: Bytes)
    requires k <= 9 && low < 128 && (k == 9 ==> low < 2)
    ensures ReadVarintAt([ToByte(low)] + rest, k) == Ok(low, rest)
  {
    assert ([ToByte(low)] + rest)[1..] == rest;
  }

  lemma ReadVarintMore(low: nat, s: Bytes, k: nat, high: nat, rest: Bytes)
    requires k < 9 && low < 128 && ReadVarintAt(s, k + 1) == Ok(high, rest)
    ensures ReadVarintAt([ToByte(low + 128)] + s, k) == Ok(low + 128 * high, rest)
  {
    assert ([ToByte(low + 128)] + s)[1..] == s;
  }

  lemma {:induction false} VarintRoundTripAt(v: nat, k: nat, rest: Bytes)
    requires k <= 9 && v < VarintLimit(k)
    ensures ReadVarintAt(PutVarint(v) + rest, k) == Ok(v, rest)
    decreases 9 - k
  {
    if v < 128 {
      ReadVarintLast(v, k, rest);
    } else {
      var low, high := v % 128, v / 128;
      VarintRoundTripAt(high, k + 1, rest);
      ReadVarintMore(low, PutVarint(high) + rest, k, high, rest);
      Assoc([ToByte(low + 128)], PutVarint(high), rest);
    }
  }

  lemma {:induction false} VarintRoundTrip(v: nat, rest: Bytes)
    requires v < U64_LIMIT
    ensures ReadVarint(PutVarint(v) + rest) == Ok(v, rest)
  {
    VarintLimitIsU64();
    VarintRoundTripAt(v, 0, rest);
  }

  /** Whatever is accepted fits the width, is unchanged by more bytes and uses at least one. */
  lemma {:induction false} VarintStableAt(s: Bytes, k: nat, more: Bytes)
    requires k <= 10 && ReadVarintAt(s, k).Ok?
    ensures ReadVarintAt(s + more, k) == Ok(ReadVarintAt(s, k).value, ReadVarintAt(s, k).rest + more)
    ensures |ReadVarintAt(s, k).rest| < |s|
    ensures k <= 9 && ReadVarintAt(s, k).value < VarintLimit(k)
    decreases 10 - k
  {
    assert (s + more)[1..] == s[1..] + more;
    if s[0] >= 128 {
      VarintStableAt(s[1..], k + 1, more);
    } else if k < 9 {
      LimitAtLeast(k);
    }
  }

  lemma {:induction false} LimitAtLeast(k: nat)
    requires k <= 8
    ensures VarintLimit(k) >= 256
    decreases 9 - k
  {
    if k < 8 {
      LimitAtLeast(k + 1);
    }
  }

  lemma VarintStable(s: Bytes, more: Bytes)
    requires ReadVarint(s).Ok?
    ensures ReadVarint(s + more) == Ok(ReadVarint(s).value, ReadVarint(s).rest + more)
    ensures |ReadVarint(s).rest| < |s| && ReadVarint(s).value < U64_LIMIT
  {
    VarintLimitIsU64();
    VarintStableAt(s, 0, more);
  }

  /** The encoding is the shortest accepted: no other byte string for the value is shorter. */
  lemma {:induction false} VarintShortest(s: Bytes, k: nat)
    requires k <= 10 && ReadVarintAt(s, k).Ok?
    ensures |PutVarint(ReadVarintAt(s, k).value)| <= |s| - |ReadVarintAt(s, k).rest|
    decreases 10 - k
  {
    if s[0] >= 128 {
      VarintShortest(s[1..], k + 1);
      var v := ReadVarintAt(s[1..], k + 1).value;
      assert (s[0] - 128 + 128 * v) / 128 == v;
    }
  }

  // --- strings ----------------------------------------------------------------------------

  function PutString(b: Bytes): Bytes {
    PutVarint(|b|) + b
  }

  function ReadString(s: Bytes): Parse<Bytes> {
    match ReadVarint(s)
    case Err(e) => Err(e)
    case Ok(n, rest) => if n > |rest| then Err(Truncated) else Ok(rest[..n], rest[n..])
  }

  lemma StringRoundTrip(b: Bytes, rest: Bytes)
    requires |b| < U64_LIMIT
    ensures ReadString(PutString(b) + rest) == Ok(b, rest)
  {
    VarintRoundTrip(|b|, b + rest);
    assert PutString(b) + rest == PutVarint(|b|) + (b + rest);
    assert (b + rest)[..|b|] == b && (b + rest)[|b|..] == rest;
  }

  lemma StringStable(s: Bytes, more: Bytes)
    requires ReadString(s).Ok?
    ensures ReadString(s + more) == Ok(ReadString(s).value, ReadString(s).rest + more)
    ensures |ReadString(s).rest| < |s|
  {
    VarintStable(s, more);
    var n, rest := ReadVarint(s).value, ReadVarint(s).rest;
    assert (rest + more)[..n] == rest[..n] && (rest + more)[n..] == rest[n..] + more;
  }

  // --- lists ------------------------------------------------------------------------------

  function PutAll<T>(put: T -> Bytes, xs: seq<T>): Bytes {
    if xs == [] then [] else put(xs[0]) + PutAll(put, xs[1..])
  }

  function ReadAll<T>(read: Bytes -> Parse<T>, s: Bytes, n: nat): Parse<seq<T>>
    decreases n
  {
    if n == 0 then Ok([], s)
    else match read(s)
         case Err(e) => Err(e)
         case Ok(x, more) =>
           match ReadAll(read, more, n - 1)
           case Err(e) => Err(e)
           case Ok(xs, rest) => Ok([x] + xs, rest)
  }

  function Each<T>(f: T -> T, xs: seq<T>): seq<T> {
    seq(|xs|, k requires 0 <= k < |xs| => f(xs[k]))
  }

  /** Reading back what was written gives each value's `kept` form and the bytes after it. */
  ghost predicate Inverts<T(!new)>(put: T -> Bytes, read: Bytes -> Parse<T>, fits: T -> bool, kept: T -> T) {
    forall x, rest :: fits(x) ==> read(put(x) + rest) == Ok(kept(x), rest)
  }

  /** A value once read is not changed by what follows. */
  ghost predicate Stable<T(!new)>(read: Bytes -> Parse<T>) {
    forall s, more :: read(s).Ok? ==> read(s + more) == Ok(read(s).value, read(s).rest + more)
  }

  lemma {:induction false} ListRoundTrip<T(!new)>(put: T -> Bytes, read: Bytes -> Parse<T>, fits: T -> bool, kept: T -> T,
                                                  xs: seq<T>, rest: Bytes)
    requires Inverts(put, read, fits, kept) && forall k :: 0 <= k < |xs| ==> fits(xs[k])
    ensures ReadAll(read, PutAll(put, xs) + rest, |xs|) == Ok(Each(kept, xs), rest)
  {
    if xs == [] {
      assert [] + rest == rest;
    } else {
      var more := PutAll(put, xs[1..]) + rest;
      assert PutAll(put, xs) + rest == put(xs[0]) + more;
      ListRoundTrip(put, read, fits, kept, xs[1..], rest);
      assert Each(kept, xs) == [kept(xs[0])] + Each(kept, xs[1..]);
    }
  }

  lemma {:induction false} ListStable<T(!new)>(read: Bytes -> Parse<T>, s: Bytes, n: nat, more: Bytes)
    requires Stable(read) && ReadAll(read, s, n).Ok?
    ensures ReadAll(read, s + more, n) == Ok(ReadAll(read, s, n).value, ReadAll(read, s, n).rest + more)
    ensures |ReadAll(read, s, n).value| == n
    decreases n
  {
    if n > 0 {
      ListStable(read, read(s).rest, n - 1, more);
    }
  }

  lemma {:induction false} ListSize<T(!new)>(put: T -> Bytes, xs: seq<T>, least: nat)
    requires forall x :: |put(x)| >= least
    ensures |PutAll(put, xs)| >= least * |xs|
  {
    if xs != [] {
      ListSize(put, xs[1..], least);
      assert least * |xs| == least + least * (|xs| - 1);
    }
  }

  lemma {:induction false} PutAllSnoc<T>(put: T -> Bytes, xs: seq<T>, x: T)
    ensures PutAll(put, xs + [x]) == PutAll(put, xs) + put(x)
  {
    if xs == [] {
      assert xs + [x] == [x];
      assert PutAll(put, [x]) == put(x) + PutAll(put, [x][1..]);
    } else {
      assert (xs + [x])[1..] == xs[1..] + [x];
      PutAllSnoc(put, xs[1..], x);
    }
  }
}
