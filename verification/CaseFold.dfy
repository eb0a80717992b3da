/** UTF-8 decoding, encoding and simple case folding of possibly malformed names. */
module CaseFold {
  import opened Types

  /** Result of decoding at the front of a string: a scalar value and its length. */
  datatype Decoded = Malformed | Scalar(cp: nat, len: nat)

  predicate IsScalar(cp: nat) {
    cp <= 0x10FFFF && !(0xD800 <= cp <= 0xDFFF)
  }

  predicate IsContinuation(b: byte) {
    0x80 <= b < 0xC0
  }

  /** Sequence length announced by a first byte; 0 when it cannot start one. */
  function LeadLength(b: byte): nat {
    if b < 0x80 then 1 else if b < 0xC0 then 0 else if b < 0xE0 then 2
    else if b < 0xF0 then 3 else if b < 0xF8 then 4 else 0
  }

  /** Number of code points below which a sequence of `len` bytes is overlong. */
  function Least(len: nat): nat {
    if len == 2 then 0x80 else if len == 3 then 0x800 else if len == 4 then 0x10000 else 0
  }

  /** Whether the bytes after the first of a `len`-byte sequence are continuations. */
  predicate Continued(s: seq<byte>, len: nat)
    requires len <= 4 && len <= |s|
  {
    && (len < 2 || IsContinuation(s[1]))
    && (len < 3 || IsContinuation(s[2]))
    && (len < 4 || IsContinuation(s[3]))
  }

  /** The payload bits of a first byte of a `len`-byte sequence. */
  function Top(b: int, len: nat): int {
    if len == 1 then b else if len == 2 then b % 32 else if len == 3 then b % 16 else b % 8
  }

  /** The first `k` bytes of a `len`-byte sequence read as base-64 digits. */
  function Payload(s: seq<byte>, len: nat, k: nat): int
    requires 1 <= k <= 4 && k <= |s|
  {
    if k == 1 then Top(s[0], len) else Digit(Payload(s, len, k - 1), s[k - 1])
  }

  function Digit(acc: int, b: int): int {
    acc * 64 + b % 64
  }

  function Decode(s: seq<byte>): Decoded
    requires s != []
  {
    var len := LeadLength(s[0]);
    if len == 0 || len > |s| || !Continued(s, len) then Malformed
    else
      var cp := Payload(s, len, len);
      if cp < Least(len) || cp < 0 || !IsScalar(cp) then Malformed else Scalar(cp, len)
  }

  function Encode(cp: nat): (r: seq<byte>)
    requires IsScalar(cp)
  {
    if cp < 0x80 then [cp]
    else if cp < 0x800 then [0xC0 + cp / 64, 0x80 + cp % 64]
    else if cp < 0x10000 then [0xE0 + cp / 64 / 64, 0x80 + cp / 64 % 64, 0x80 + cp % 64]
    else [0xF0 + cp / 64 / 64 / 64, 0x80 + cp / 64 / 64 % 64, 0x80 + cp / 64 % 64, 0x80 + cp % 64]
  }

  function FoldCodepoint(cp: nat): nat {
    if cp < 0x80 then (if 0x41 <= cp <= 0x5A then cp + 0x20 else cp)
    else if 0xC0 <= cp <= 0xDE && cp != 0xD7 then cp + 0x20
    else if 0x100 <= cp <= 0x17F then
      if cp == 0x130 then 0x69
      else if cp == 0x131 || cp == 0x138 || cp == 0x149 then cp
      else if cp == 0x178 then 0xFF
      else if cp == 0x17F then 0x73
      else if 0x139 <= cp <= 0x148 || 0x179 <= cp <= 0x17E then (if cp % 2 == 1 then cp + 1 else cp)
      else (if cp % 2 == 1 then cp else cp + 1)
    else if 0x391 <= cp <= 0x3A9 && cp != 0x3A2 then cp + 0x20
    else if 0x410 <= cp <= 0x42F then cp + 0x20
    else if 0x400 <= cp <= 0x40F then cp + 0x50
    else cp
  }

  /** The folding of a byte string; bytes that decode to nothing are kept. */
  function Fold(s: seq<byte>): seq<byte>
    decreases |s|
  {
    if s == [] then []
    else
      match Decode(s)
      case Malformed => [s[0]] + Fold(s[1..])
      case Scalar(cp, len) => FoldedScalar(cp); Encode(FoldCodepoint(cp)) + Fold(s[len..])
  }

  lemma FoldedScalar(cp: nat)
    requires IsScalar(cp)
    ensures IsScalar(FoldCodepoint(cp))
  {
  }

  lemma FoldCodepointIdempotent(cp: nat)
    ensures FoldCodepoint(FoldCodepoint(cp)) == FoldCodepoint(cp)
  {
  }

  /** Reading one digit undoes writing it. */
  lemma DigitOfContinuation(x: nat)
    ensures Digit(x / 64, 0x80 + x % 64) == x
  {
  }

  lemma ContinuationOfDigit(acc: int, b: int)
    requires 0x80 <= b < 0xC0
    ensures Digit(acc, b) / 64 == acc && 0x80 + Digit(acc, b) % 64 == b
  {
  }

  /** decode_utf8 inverts encode_utf8, whatever bytes follow. */
  lemma DecodeOfEncode(cp: nat, rest: seq<byte>)
    requires IsScalar(cp)
    ensures Decode(Encode(cp) + rest) == Scalar(cp, |Encode(cp)|)
  {
    var e := Encode(cp);
    var s := e + rest;
    assert s[0] == e[0] && forall k :: 0 <= k < |e| ==> s[k] == e[k];
    DigitOfContinuation(cp);
    DigitOfContinuation(cp / 64);
    DigitOfContinuation(cp / 64 / 64);
    if cp < 0x80 {
    } else if cp < 0x800 {
      assert Payload(s, 2, 1) == cp / 64;
      assert Payload(s, 2, 2) == cp;
    } else if cp < 0x10000 {
      assert Payload(s, 3, 1) == cp / 64 / 64;
      assert Payload(s, 3, 2) == cp / 64;
      assert Payload(s, 3, 3) == cp;
    } else {
      assert Payload(s, 4, 1) == cp / 64 / 64 / 64;
      assert Payload(s, 4, 2) == cp / 64 / 64;
      assert Payload(s, 4, 3) == cp / 64;
      assert Payload(s, 4, 4) == cp;
    }
  }

  lemma LeadDigit(b: byte)
    ensures LeadLength(b) == 2 ==> 0xC0 + Top(b, 2) == b
    ensures LeadLength(b) == 3 ==> 0xE0 + Top(b, 3) == b
    ensures LeadLength(b) == 4 ==> 0xF0 + Top(b, 4) == b
  {
  }

  lemma EncodeTwo(s: seq<byte>, cp: nat)
    requires |s| >= 2 && LeadLength(s[0]) == 2 && IsContinuation(s[1]) && cp == Digit(Top(s[0], 2), s[1]) && cp >= 0x80
    ensures IsScalar(cp) && Encode(cp) == [s[0], s[1]]
  {
    LeadDigit(s[0]);
    ContinuationOfDigit(Top(s[0], 2), s[1]);
  }

  /** The digits of a number below 2^16 or 2^21, read off by division. */
  lemma DigitsBack(top: int, b: int, c: int)
    requires 0x80 <= b < 0xC0 && 0x80 <= c < 0xC0
    ensures var cp := Digit(Digit(top, b), c);
            cp / 64 / 64 == top && 0x80 + cp / 64 % 64 == b && 0x80 + cp % 64 == c
  {
    ContinuationOfDigit(top, b);
    ContinuationOfDigit(Digit(top, b), c);
  }

  lemma EncodeThree(s: seq<byte>, cp: nat)
    requires |s| >= 3 && LeadLength(s[0]) == 3 && IsContinuation(s[1]) && IsContinuation(s[2])
    requires cp == Digit(Digit(Top(s[0], 3), s[1]), s[2]) && 0x800 <= cp < 0x10000 && IsScalar(cp)
    ensures Encode(cp) == [s[0], s[1], s[2]]
  {
    LeadDigit(s[0]);
    DigitsBack(Top(s[0], 3), s[1], s[2]);
  }

  lemma EncodeFour(s: seq<byte>, cp: nat)
    requires |s| >= 4 && LeadLength(s[0]) == 4 && IsContinuation(s[1]) && IsContinuation(s[2]) && IsContinuation(s[3])
    requires cp == Digit(Digit(Digit(Top(s[0], 4), s[1]), s[2]), s[3]) && cp >= 0x10000 && IsScalar(cp)
    ensures Encode(cp) == [s[0], s[1], s[2], s[3]]
  {
    LeadDigit(s[0]);
    DigitsBack(Digit(Top(s[0], 4), s[1]), s[2], s[3]);
    ContinuationOfDigit(Top(s[0], 4), s[1]);
  }

  lemma ThreeBelow(a: int, b: int, c: int)
    requires 0 <= a < 16
    ensures 0 <= Digit(Digit(a, b), c) < 0x10000
  {
  }

  /** Only the shortest encoding of a scalar value decodes: no overlong form, no surrogate. */
  lemma EncodeOfDecode(s: seq<byte>)
    requires s != [] && Decode(s).Scalar?
    ensures IsScalar(Decode(s).cp) && Decode(s).len <= |s|
    ensures Encode(Decode(s).cp) == s[..Decode(s).len]
  {
    var len, cp := Decode(s).len, Decode(s).cp;
    if len == 1 {
      assert s[..1] == [s[0]];
    } else if len == 2 {
      assert cp == Digit(Payload(s, 2, 1), s[1]);
      EncodeTwo(s, cp);
      assert s[..2] == [s[0], s[1]];
    } else if len == 3 {
      assert cp == Digit(Payload(s, 3, 2), s[2]) && Payload(s, 3, 2) == Digit(Payload(s, 3, 1), s[1]);
      ThreeBelow(Top(s[0], 3), s[1], s[2]);
      EncodeThree(s, cp);
      assert s[..3] == [s[0], s[1], s[2]];
    } else {
      assert cp == Digit(Payload(s, 4, 3), s[3]) && Payload(s, 4, 3) == Digit(Payload(s, 4, 2), s[2]);
      assert Payload(s, 4, 2) == Digit(Payload(s, 4, 1), s[1]);
      EncodeFour(s, cp);
      assert s[..4] == [s[0], s[1], s[2], s[3]];
    }
  }

  /** Decoding succeeds exactly on the strings that begin with an encoded scalar value. */
  lemma DecodesIffEncoded(s: seq<byte>)
    requires s != []
    ensures Decode(s).Scalar? <==> exists cp: nat :: cp <= 0x10FFFF && !(0xD800 <= cp <= 0xDFFF) && Encode(cp) <= s
  {
    if Decode(s).Scalar? {
      EncodeOfDecode(s);
      assert Encode(Decode(s).cp) <= s;
    }
    forall cp: nat | IsScalar(cp) && Encode(cp) <= s ensures Decode(s).Scalar? {
      DecodeOfEncode(cp, s[|Encode(cp)|..]);
      assert s == Encode(cp) + s[|Encode(cp)|..];
    }
  }

  /** Folding keeps a code point inside its encoding-length class or moves it down. */
  lemma FoldedLength(cp: nat)
    requires IsScalar(cp)
    ensures IsScalar(FoldCodepoint(cp)) && |Encode(FoldCodepoint(cp))| <= |Encode(cp)|
  {
  }

  lemma {:induction false} FoldNeverLengthens(s: seq<byte>)
    ensures |Fold(s)| <= |s|
    decreases |s|
  {
    if s != [] {
      match Decode(s)
      case Malformed => FoldNeverLengthens(s[1..]);
      case Scalar(cp, len) =>
        EncodeOfDecode(s);
        FoldedLength(cp);
        FoldNeverLengthens(s[len..]);
    }
  }

  /** Folding keeps a leading run of continuation bytes and ends it where it ended. */
  lemma {:induction false} FoldKeepsContinuations(s: seq<byte>, k: nat)
    requires k <= |s| && k <= 3
    requires forall j :: 0 <= j < k ==> IsContinuation(s[j])
    ensures |Fold(s)| >= k && Fold(s)[..k] == s[..k]
    ensures k < |s| && !IsContinuation(s[k]) ==> |Fold(s)| > k && !IsContinuation(Fold(s)[k])
    ensures k == |s| ==> |Fold(s)| == k
    decreases k
  {
    if k > 0 {
      FoldKeepsContinuations(s[1..], k - 1);
      assert Fold(s) == [s[0]] + Fold(s[1..]);
      assert s[..k] == [s[0]] + s[1..][..k - 1];
    } else if s != [] && !IsContinuation(s[0]) {
      match Decode(s)
      case Malformed =>
      case Scalar(cp, len) => EncodeOfDecode(s); FoldedScalar(cp);
    }
  }

  lemma {:induction false} PayloadOfPrefix(s: seq<byte>, t: seq<byte>, len: nat, k: nat)
    requires 1 <= k <= 4 && k <= |s| && k <= |t|
    requires forall j :: 0 <= j < k ==> s[j] == t[j]
    ensures Payload(s, len, k) == Payload(t, len, k)
    decreases k
  {
    if k > 1 {
      PayloadOfPrefix(s, t, len, k - 1);
    }
  }

  /** A byte that decoded to nothing still decodes to nothing once what follows is folded. */
  lemma MalformedStays(s: seq<byte>)
    requires s != [] && Decode(s).Malformed?
    ensures Decode([s[0]] + Fold(s[1..])).Malformed?
  {
    var len := LeadLength(s[0]);
    if len > 1 {
      var k := ContinuationRun(s[1..], len - 1);
      FoldKeepsContinuations(s[1..], k);
      var t := [s[0]] + Fold(s[1..]);
      assert forall j :: 0 <= j < k ==> t[1 + j] == Fold(s[1..])[..k][j] == s[1 + j];
      if k < len - 1 && k < |s[1..]| {
        assert t[1 + k] == Fold(s[1..])[k];
        assert !IsContinuation(t[1 + k]);
      } else if k == len - 1 {
        PayloadOfPrefix(s, t, len, len);
      }
    }
  }

  /** Length of the leading run of continuation bytes, counted up to `cap`. */
  function ContinuationRun(s: seq<byte>, cap: nat): (k: nat)
    ensures k <= cap && k <= |s|
    ensures forall j :: 0 <= j < k ==> IsContinuation(s[j])
    ensures k < cap && k < |s| ==> !IsContinuation(s[k])
  {
    if cap == 0 || s == [] || !IsContinuation(s[0]) then 0 else 1 + ContinuationRun(s[1..], cap - 1)
  }

  /** Folding twice is folding once, on every byte string. */
  lemma {:induction false} FoldIdempotent(s: seq<byte>)
    ensures Fold(Fold(s)) == Fold(s)
    decreases |s|
  {
    if s != [] {
      match Decode(s)
      case Malformed =>
        FoldIdempotent(s[1..]);
        MalformedStays(s);
        assert Fold(s)[1..] == Fold(s[1..]);
      case Scalar(cp, len) =>
        FoldIdempotent(s[len..]);
        FoldedScalar(cp);
        FoldCodepointIdempotent(cp);
        var e := Encode(FoldCodepoint(cp));
        DecodeOfEncode(FoldCodepoint(cp), Fold(s[len..]));
        assert (e + Fold(s[len..]))[|e|..] == Fold(s[len..]);
    }
  }

  predicate IsAscii(s: seq<byte>) {
    forall k :: 0 <= k < |s| ==> s[k] < 0x80
  }

  predicate HasUpper(s: seq<byte>) {
    exists k :: 0 <= k < |s| && 0x41 <= s[k] <= 0x5A
  }

  lemma {:induction false} FoldLowerByte(b: byte, s: seq<byte>)
    requires s != [] && s[0] == b && b < 0x80 && !(0x41 <= b <= 0x5A)
    ensures Fold(s) == [b] + Fold(s[1..])
  {
  }

  /** The shortcut the tree takes: an ASCII name without capitals is its own folding. */
  lemma {:induction false} FoldOfLowerAscii(s: seq<byte>)
    requires IsAscii(s) && !HasUpper(s)
    ensures Fold(s) == s
    decreases |s|
  {
    if s != [] {
      assert forall k :: 0 <= k < |s[1..]| ==> s[1..][k] == s[k + 1];
      FoldOfLowerAscii(s[1..]);
      FoldLowerByte(s[0], s);
      assert s == [s[0]] + s[1..];
    }
  }

  /** decode_utf8: advances `i` past one sequence, or leaves it alone. */
  method DecodeUtf8(s: seq<byte>, start: nat) returns (ok: bool, i: nat, cp: nat)
    requires start < |s|
    ensures ok <==> Decode(s[start..]).Scalar?
    ensures ok ==> start < i <= |s| && Decode(s[start..]) == Scalar(cp, i - start)
    ensures !ok ==> i == start
  {
    ok, i, cp := false, start, 0;
    var b0 := s[start];
    var t := s[start..];
    var len;
    if b0 < 0x80 {
      return true, start + 1, b0;
    } else if 0xC0 <= b0 < 0xE0 {
      len, cp := 2, b0 % 32;
    } else if 0xE0 <= b0 < 0xF0 {
      len, cp := 3, b0 % 16;
    } else if 0xF0 <= b0 < 0xF8 {
      len, cp := 4, b0 % 8;
    } else {
      return;
    }
    if start + len > |s| {
      return;
    }
    var k := 1;
    while k < len
      invariant 1 <= k <= len
      invariant forall j :: 1 <= j < k ==> IsContinuation(t[j])
      invariant cp == Payload(t, len, k)
    {
      if !IsContinuation(s[start + k]) {
        assert !IsContinuation(t[k]);
        return;
      }
      cp := Digit(cp, s[start + k]);
      k := k + 1;
    }
    if (len == 2 && cp < 0x80) || (len == 3 && cp < 0x800) || (len == 4 && cp < 0x10000)
       || cp > 0x10FFFF || 0xD800 <= cp <= 0xDFFF {
      return;
    }
    return true, start + len, cp;
  }

  /** One turn of casefold_append: the bytes to append and where to go on. */
  method FoldNext(s: seq<byte>, start: nat) returns (i: nat, piece: seq<byte>)
    requires start < |s|
    ensures start < i <= |s|
    ensures Fold(s[start..]) == piece + Fold(s[i..])
  {
    var b := s[start];
    assert s[start..][1..] == s[start + 1..];
    if b < 0x80 {
      return start + 1, [if 0x41 <= b <= 0x5A then b + 0x20 else b];
    }
    var ok, next, cp := DecodeUtf8(s, start);
    if !ok {
      return start + 1, [b];
    }
    assert s[start..][next - start..] == s[next..];
    FoldedScalar(cp);
    return next, Encode(FoldCodepoint(cp));
  }

  /** casefold_append: one pass over the input. */
  method CasefoldAppend(s: seq<byte>, prefix: seq<byte>) returns (out: seq<byte>)
    ensures out == prefix + Fold(s)
  {
    out := prefix;
    var i := 0;
    assert s[0..] == s;
    while i < |s|
      invariant 0 <= i <= |s|
      invariant out + Fold(s[i..]) == prefix + Fold(s)
    {
      var next, piece := FoldNext(s, i);
      assert out + Fold(s[i..]) == (out + piece) + Fold(s[next..]);
      out := out + piece;
      i := next;
    }
  }

  // --- what folding means -----------------------------------------------------------------------

  /** On ASCII text folding maps capitals to small letters, byte by byte, and nothing else. */
  lemma {:induction false} FoldOfAscii(s: seq<byte>)
    requires forall k :: 0 <= k < |s| ==> s[k] < 0x80
    ensures |Fold(s)| == |s|
    ensures forall k :: 0 <= k < |s| ==> Fold(s)[k] == if 65 <= s[k] <= 90 then s[k] + 32 else s[k]
  {
    if s != [] {
      var c: int := if 65 <= s[0] <= 90 then s[0] + 32 else s[0];
      FoldOfAscii(s[1..]);
      assert Decode(s) == Scalar(s[0], 1);
      assert Fold(s) == [c] + Fold(s[1..]);
    }
  }

  /** Lower-casing byte by byte gives the same exactly where only the case of letters differs. */
  lemma LowerAlike(a: seq<byte>, b: seq<byte>, x: seq<byte>, y: seq<byte>)
    requires |x| == |a| && forall k :: 0 <= k < |a| ==> x[k] == if 65 <= a[k] <= 90 then a[k] + 32 else a[k]
    requires |y| == |b| && forall k :: 0 <= k < |b| ==> y[k] == if 65 <= b[k] <= 90 then b[k] + 32 else b[k]
    ensures x == y <==>
              && |a| == |b|
              && forall k :: 0 <= k < |a| ==> || a[k] == b[k]
                                              || (65 <= a[k] <= 90 && b[k] == a[k] + 32)
                                              || (65 <= b[k] <= 90 && a[k] == b[k] + 32)
  {
    if x == y {
      forall k | 0 <= k < |a|
        ensures a[k] == b[k] || (65 <= a[k] <= 90 && b[k] == a[k] + 32) || (65 <= b[k] <= 90 && a[k] == b[k] + 32)
      {
        assert x[k] == y[k];
      }
    }
  }

  /** Two ASCII names fold alike exactly when they differ only in the case of letters. */
  lemma {:induction false} AsciiAlikeIff(a: seq<byte>, b: seq<byte>)
    requires (forall k :: 0 <= k < |a| ==> a[k] < 0x80) && (forall k :: 0 <= k < |b| ==> b[k] < 0x80)
    ensures Fold(a) == Fold(b) <==>
              && |a| == |b|
              && forall k :: 0 <= k < |a| ==> || a[k] == b[k]
                                              || (65 <= a[k] <= 90 && b[k] == a[k] + 32)
                                              || (65 <= b[k] <= 90 && a[k] == b[k] + 32)
  {
    FoldOfAscii(a);
    FoldOfAscii(b);
    LowerAlike(a, b, Fold(a), Fold(b));
  }

  /** Capitals fold to their small letters, block by block; three letters fold out of their block. */
  lemma FoldOfCapital(cp: nat)
    ensures 0x41 <= cp <= 0x5A ==> FoldCodepoint(cp) == cp + 0x20                  // A to Z
    ensures 0xC0 <= cp <= 0xDE && cp != 0xD7 ==> FoldCodepoint(cp) == cp + 0x20    // Latin-1
    ensures 0x391 <= cp <= 0x3A9 && cp != 0x3A2 ==> FoldCodepoint(cp) == cp + 0x20 // Greek
    ensures 0x410 <= cp <= 0x42F ==> FoldCodepoint(cp) == cp + 0x20                // Cyrillic
    ensures 0x400 <= cp <= 0x40F ==> FoldCodepoint(cp) == cp + 0x50
    ensures (0x100 <= cp <= 0x12E || 0x132 <= cp <= 0x136 || 0x14A <= cp <= 0x176) && cp % 2 == 0 ==>
              FoldCodepoint(cp) == cp + 1                                          // Latin Extended-A
    ensures (0x139 <= cp <= 0x147 || 0x179 <= cp <= 0x17D) && cp % 2 == 1 ==> FoldCodepoint(cp) == cp + 1
    ensures FoldCodepoint(0x178) == 0xFF && FoldCodepoint(0x130) == 0x69 && FoldCodepoint(0x17F) == 0x73
  {
  }

  /** Two code points fold alike exactly when they are such a pair, or two of I, i, U+0130 or of S, s, U+017F. */
  lemma CodepointsAlikeIff(a: nat, b: nat)
    requires a < b
    ensures FoldCodepoint(a) == FoldCodepoint(b) <==>
              || (b == a + 0x20 && (0x41 <= a <= 0x5A || (0xC0 <= a <= 0xDE && a != 0xD7)
                                    || (0x391 <= a <= 0x3A9 && a != 0x3A2) || 0x410 <= a <= 0x42F))
              || (b == a + 0x50 && 0x400 <= a <= 0x40F)
              || (b == a + 1 && a % 2 == 0 && (0x100 <= a <= 0x12E || 0x132 <= a <= 0x136 || 0x14A <= a <= 0x176))
              || (b == a + 1 && a % 2 == 1 && (0x139 <= a <= 0x147 || 0x179 <= a <= 0x17D))
              || (a == 0xFF && b == 0x178)
              || ((a == 0x49 || a == 0x69) && b == 0x130)
              || ((a == 0x53 || a == 0x73) && b == 0x17F)
  {
  }

  /** The encodings of a sequence of scalar values, one after the other. */
  function EncodeAll(cps: seq<nat>): seq<byte>
    requires forall k :: 0 <= k < |cps| ==> IsScalar(cps[k])
  {
    if cps == [] then [] else Encode(cps[0]) + EncodeAll(cps[1..])
  }

  function FoldAll(cps: seq<nat>): (r: seq<nat>)
    requires forall k :: 0 <= k < |cps| ==> IsScalar(cps[k])
    ensures |r| == |cps| && forall k :: 0 <= k < |r| ==> r[k] == FoldCodepoint(cps[k]) && IsScalar(r[k])
  {
    seq(|cps|, k requires 0 <= k < |cps| => FoldedScalar(cps[k]); FoldCodepoint(cps[k]))
  }

  lemma {:induction false} FoldOfScalar(cp: nat, rest: seq<byte>)
    requires IsScalar(cp)
    ensures IsScalar(FoldCodepoint(cp)) && Fold(Encode(cp) + rest) == Encode(FoldCodepoint(cp)) + Fold(rest)
  {
    DecodeOfEncode(cp, rest);
    FoldedScalar(cp);
    var s := Encode(cp) + rest;
    assert s[|Encode(cp)|..] == rest;
  }

  /** Folding a well-formed name folds its code points one by one. */
  lemma {:induction false} FoldOfEncoded(cps: seq<nat>)
    requires forall k :: 0 <= k < |cps| ==> IsScalar(cps[k])
    ensures Fold(EncodeAll(cps)) == EncodeAll(FoldAll(cps))
  {
    if cps != [] {
      FoldOfScalar(cps[0], EncodeAll(cps[1..]));
      FoldOfEncoded(cps[1..]);
      assert FoldAll(cps)[1..] == FoldAll(cps[1..]);
    }
  }

  lemma {:induction false} EncodeAllInjective(a: seq<nat>, b: seq<nat>)
    requires (forall k :: 0 <= k < |a| ==> IsScalar(a[k])) && (forall k :: 0 <= k < |b| ==> IsScalar(b[k]))
    requires EncodeAll(a) == EncodeAll(b)
    ensures a == b
  {
    if a != [] && b != [] {
      DecodeOfEncode(a[0], EncodeAll(a[1..]));
      DecodeOfEncode(b[0], EncodeAll(b[1..]));
      var n := |Encode(a[0])|;
      assert EncodeAll(a)[n..] == EncodeAll(a[1..]) && EncodeAll(b)[n..] == EncodeAll(b[1..]);
      EncodeAllInjective(a[1..], b[1..]);
      assert a == [a[0]] + a[1..] && b == [b[0]] + b[1..];
    }
  }

  /** Two well-formed names fold alike exactly when their code points do, one by one. */
  lemma {:induction false} NamesAlikeIff(a: seq<nat>, b: seq<nat>)
    requires (forall k :: 0 <= k < |a| ==> IsScalar(a[k])) && (forall k :: 0 <= k < |b| ==> IsScalar(b[k]))
    ensures Fold(EncodeAll(a)) == Fold(EncodeAll(b)) <==>
              |a| == |b| && forall k :: 0 <= k < |a| ==> FoldCodepoint(a[k]) == FoldCodepoint(b[k])
  {
    FoldOfEncoded(a);
    FoldOfEncoded(b);
    var x, y := FoldAll(a), FoldAll(b);
    if EncodeAll(x) == EncodeAll(y) {
      EncodeAllInjective(x, y);
      assert forall k :: 0 <= k < |a| ==> x[k] == y[k];
    }
    if |a| == |b| && forall k :: 0 <= k < |a| ==> FoldCodepoint(a[k]) == FoldCodepoint(b[k]) {
      assert x == y;
    }
  }

  /** One character of each encoded length (section 3 of RFC 3629). */
  lemma EncodedLengths()
    ensures Encode(0x41) == [0x41] && Encode(0xE9) == [0xC3, 0xA9] && Encode(0x20AC) == [0xE2, 0x82, 0xAC]
    ensures Encode(0x1F600) == [0xF0, 0x9F, 0x98, 0x80]
  {
  }

  /** Component-wise equality up to case. */
  predicate SameFolding(p: seq<Name>, q: seq<Name>) {
    |p| == |q| && forall k :: 0 <= k < |p| ==> Fold(p[k]) == Fold(q[k])
  }
}
