/** The per-handle write buffer of write-back mode, against writing every byte through at once. */
module WriteBack {
  import opened Types

  /** kWriteBackCap. */
  const CAP: nat := 0x80_0000

  /** The most one read returns. */
  const READ_CAP: nat := 0x100_0000

  type Bytes = seq<byte>

  function Zeros(n: nat): Bytes {
    seq(n, _ => 0)
  }

  /** The file, extended with zeros to at least `n` bytes. */
  function Padded(c: Bytes, n: nat): Bytes {
    if |c| >= n then c else c + Zeros(n - |c|)
  }

  /** What writing `d` at `off` makes of the file; writing nothing does not even extend it. */
  function WriteAt(c: Bytes, off: nat, d: Bytes): Bytes {
    if d == [] then c
    else Padded(c, off)[..off] + d + (if off + |d| < |c| then c[off + |d|..] else [])
  }

  function Slice(c: Bytes, off: nat, len: nat): Bytes {
    var want := if len < READ_CAP then len else READ_CAP;
    if off >= |c| then [] else if off + want < |c| then c[off..off + want] else c[off..]
  }

  /** A read returns the bytes from its offset on, up to the end of the file or the cap. */
  lemma SliceBytes(c: Bytes, off: nat, len: nat)
    ensures |Slice(c, off, len)| == if off >= |c| then 0
                                    else if len <= 0x100_0000 && len <= |c| - off then len
                                    else if 0x100_0000 <= |c| - off then 0x100_0000 else |c| - off
    ensures forall k :: 0 <= k < |Slice(c, off, len)| ==> Slice(c, off, len)[k] == c[off + k]
  {
  }

  lemma WriteAtSize(c: Bytes, off: nat, d: Bytes)
    requires d != []
    ensures |WriteAt(c, off, d)| == if off + |d| > |c| then off + |d| else |c|
  {
  }

  lemma WriteAtByte(c: Bytes, off: nat, d: Bytes, k: nat)
    requires d != [] && k < |WriteAt(c, off, d)|
    ensures off <= k < off + |d| ==> WriteAt(c, off, d)[k] == d[k - off]
    ensures !(off <= k < off + |d|) && k < |c| ==> WriteAt(c, off, d)[k] == c[k]
    ensures !(off <= k < off + |d|) && k >= |c| ==> WriteAt(c, off, d)[k] == 0
  {
  }

  /** Two writes back to back are one. */
  lemma ContiguousWrites(c: Bytes, off: nat, a: Bytes, b: Bytes)
    requires a != []
    ensures WriteAt(WriteAt(c, off, a), off + |a|, b) == WriteAt(c, off, a + b)
  {
    if b == [] {
      assert a + b == a;
    } else {
      var mid := WriteAt(c, off, a);
      var x, y := WriteAt(mid, off + |a|, b), WriteAt(c, off, a + b);
      WriteAtSize(c, off, a);
      WriteAtSize(mid, off + |a|, b);
      WriteAtSize(c, off, a + b);
      forall k | 0 <= k < |x| ensures x[k] == y[k] {
        WriteAtByte(mid, off + |a|, b, k);
        WriteAtByte(c, off, a + b, k);
        if k < |mid| {
          WriteAtByte(c, off, a, k);
        }
      }
    }
  }

  datatype Op = Write(off: nat, data: Bytes) | Read(off: nat, len: nat) | Flush

  /** Every write applied directly, in order. */
  function Direct(c: Bytes, ops: seq<Op>): Bytes {
    if ops == [] then c
    else
      var before := Direct(c, ops[..|ops| - 1]);
      match ops[|ops| - 1]
      case Write(off, d) => WriteAt(before, off, d)
      case _ => before
  }

  /** What the reads among the operations return when every write is applied directly. */
  function Answers(c: Bytes, ops: seq<Op>): seq<Bytes> {
    if ops == [] then []
    else
      var n := |ops| - 1;
      Answers(c, ops[..n])
      + match ops[n]
        case Read(off, len) => [Slice(Direct(c, ops[..n]), off, len)]
        case _ => []
  }

  /** An open file: its remote contents and the run of bytes waiting to be written at `start`. */
  class Handle {
    var remote: Bytes
    var start: nat
    var buf: Bytes

    /** The contents a program using the handle believes in. */
    function Contents(): Bytes
      reads this
    {
      WriteAt(remote, start, buf)
    }

    constructor (contents: Bytes)
      ensures Contents() == contents && remote == contents && buf == []
    {
      remote, start, buf := contents, 0, [];
    }

    /** flush_handle; `ok` is whether the agent accepts the write. A refused one leaves everything as it was. */
    method FlushHandle(ok: bool) returns (done: bool)
      modifies this
      ensures done <==> ok || old(buf) == []
      ensures Contents() == old(Contents())
      ensures done ==> buf == [] && remote == old(Contents())
      ensures !done ==> unchanged(this)
    {
      if buf == [] {
        return true;
      }
      if !ok {
        return false;
      }
      remote := WriteAt(remote, start, buf);
      start := start + |buf|;
      buf := [];
      return true;
    }

    /**
     * op_write; `first` and `second` are whether the agent accepts the flush before and the
     * one after. If the first is refused nothing happens; if the second is, the bytes stay buffered.
     */
    method OpWrite(off: nat, data: Bytes, first: bool, second: bool) returns (done: bool)
      modifies this
      ensures Contents() == old(Contents()) || Contents() == WriteAt(old(Contents()), off, data)
      ensures done ==> Contents() == WriteAt(old(Contents()), off, data) && |buf| < CAP
      ensures first && second ==> done
      ensures first && !done ==> Contents() == WriteAt(old(Contents()), off, data)
    {
      if buf != [] && off != start + |buf| {
        var flushed := FlushHandle(first);
        if !flushed {
          return false;
        }
      }
      assert Contents() == old(Contents());
      if buf == [] {
        start := off;
        assert [] + data == data;
      } else {
        ContiguousWrites(remote, start, buf, data);
      }
      buf := buf + data;
      assert Contents() == WriteAt(old(Contents()), off, data);
      done := true;
      if |buf| >= CAP {
        done := FlushHandle(second);
      }
    }

    /** op_read: the buffer goes out first, so a read never misses a write. */
    method OpRead(off: nat, len: nat, ok: bool) returns (done: bool, data: Bytes)
      modifies this
      ensures Contents() == old(Contents())
      ensures done <==> ok || old(buf) == []
      ensures done ==> data == Slice(old(Contents()), off, len)
      ensures done ==> |data| <= len && |data| <= 0x100_0000 && (off < |old(Contents())| ==> off + |data| <= |old(Contents())|)
      ensures done && off < |old(Contents())| && |data| < len && |data| < 0x100_0000 ==> off + |data| == |old(Contents())|
      ensures done ==> forall k :: 0 <= k < |data| ==> off + k < |old(Contents())| && data[k] == old(Contents())[off + k]
    {
      SliceBytes(Contents(), off, len);
      done := FlushHandle(ok);
      data := if done then Slice(remote, off, len) else [];
    }

    /** op_release: afterwards the file is what the handle showed. */
    method OpRelease(ok: bool) returns (done: bool)
      modifies this
      ensures done <==> ok || old(buf) == []
      ensures done ==> remote == old(Contents())
    {
      done := FlushHandle(ok);
    }
  }

  /**
   * Any sequence of writes, reads and flushes through one handle, ended by a release, every
   * flush accepted: each read and the final file are those of writing through.
   */
  method Session(contents: Bytes, ops: seq<Op>) returns (final: Bytes, answers: seq<Bytes>)
    ensures final == Direct(contents, ops) && answers == Answers(contents, ops)
  {
    var h := new Handle(contents);
    answers := [];
    for i := 0 to |ops|
      invariant fresh(h) && h.Contents() == Direct(contents, ops[..i]) && answers == Answers(contents, ops[..i])
    {
      assert ops[..i + 1][..i] == ops[..i];
      match ops[i] {
        case Write(off, d) =>
          var _ := h.OpWrite(off, d, true, true);
        case Read(off, len) =>
          var _, data := h.OpRead(off, len, true);
          answers := answers + [data];
        case Flush =>
          var _ := h.FlushHandle(true);
      }
    }
    assert ops[..|ops|] == ops;
    var _ := h.OpRelease(true);
    final := h.remote;
  }
}
