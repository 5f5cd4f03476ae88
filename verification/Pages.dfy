/**
 `file::Page`: a fixed byte buffer holding big-endian 32-bit integers and length-prefixed byte strings.
 The functions say what a page's bytes mean; the class changes them in place.
 */
module Pages {
  import opened Types

  // ---------------------------------------------------------------------------------------------
  // Integers
  // ---------------------------------------------------------------------------------------------

  /** The four bytes of a 32-bit integer, most significant first. */
  function IntBytes(v: int32): (b: seq<byte>)
    ensures |b| == 4
  {
    var w := if v < 0 then v + 0x1_0000_0000 else v;
    [w / 0x100_0000, w / 0x1_0000 % 0x100, w / 0x100 % 0x100, w % 0x100]
  }

  /** The bytes read as an unsigned number. */
  function Unsigned(b: seq<byte>): (w: int)
    requires |b| == 4
    ensures 0 <= w < 0x1_0000_0000
  {
    var b0: int, b1: int, b2: int, b3: int := b[0], b[1], b[2], b[3];
    b0 * 0x100_0000 + b1 * 0x1_0000 + b2 * 0x100 + b3
  }

  function IntOf(b: seq<byte>): int32
    requires |b| == 4
  {
    var w := Unsigned(b);
    if w < 0x8000_0000 then w else w - 0x1_0000_0000
  }

  lemma Base256(w: nat)
    requires w < 0x1_0000_0000
    ensures w == w / 0x100_0000 * 0x100_0000 + w / 0x1_0000 % 0x100 * 0x1_0000 + w / 0x100 % 0x100 * 0x100 + w % 0x100
  {
    assert w / 0x1_0000 == w / 0x100 / 0x100;
    assert w / 0x100_0000 == w / 0x1_0000 / 0x100;
  }

  lemma IntRoundTrip(v: int32)
    ensures IntOf(IntBytes(v)) == v
  {
    Base256(if v < 0 then v + 0x1_0000_0000 else v);
  }

  /** What the bytes are: base 256 with the most significant byte first, and two's complement below zero. */
  lemma BigEndian(v: int32)
    ensures var b := IntBytes(v); var b0: int, b1: int, b2: int, b3: int := b[0], b[1], b[2], b[3];
            v == 16777216 * b0 + 65536 * b1 + 256 * b2 + b3 - if b0 >= 128 then 4294967296 else 0
  {
    Base256(if v < 0 then v + 0x1_0000_0000 else v);
  }

  /** Different integers have different bytes, and every four bytes are some integer's. */
  lemma BytesRoundTrip(b: seq<byte>)
    requires |b| == 4
    ensures IntBytes(IntOf(b)) == b
  {
    var w := Unsigned(b);
    var b0: int, b1: int, b2: int, b3: int := b[0], b[1], b[2], b[3];
    assert w / 0x100 == b0 * 0x1_0000 + b1 * 0x100 + b2;
    assert w / 0x1_0000 == b0 * 0x100 + b1 by {
      assert w / 0x1_0000 == w / 0x100 / 0x100;
    }
    assert w / 0x100_0000 == b0 by {
      assert w / 0x100_0000 == w / 0x1_0000 / 0x100;
    }
  }

  // ---------------------------------------------------------------------------------------------
  // What the bytes of a page say
  // ---------------------------------------------------------------------------------------------

  /** `Page::get_int`; `None` where the source throws. */
  function GetInt(p: seq<byte>, off: nat): Option<int32> {
    if off + 4 <= |p| then Some(IntOf(p[off..off + 4])) else None
  }

  /** `Page::get_bytes` with `get_bytes_length`; `None` where the source throws. */
  function GetBytes(p: seq<byte>, off: nat): (r: Option<seq<byte>>)
    ensures r.Some? ==> off + 4 + |r.value| <= |p|
  {
    var len := GetInt(p, off);
    if len.None? || len.value < 0 || off + 4 + len.value > |p| then None
    else Some(p[off + 4..off + 4 + len.value])
  }

  predicate FitsLength(data: seq<byte>) {
    |data| < 0x8000_0000
  }

  /** A byte string with its length in front. */
  function Blob(data: seq<byte>): seq<byte>
    requires FitsLength(data)
  {
    IntBytes(|data|) + data
  }

  /** `p` with `data` written at `off`. */
  function Splice(p: seq<byte>, off: nat, data: seq<byte>): (q: seq<byte>)
    requires off + |data| <= |p|
    ensures |q| == |p|
  {
    p[..off] + data + p[off + |data|..]
  }

  /** A write is read back. */
  lemma ReadsBack(p: seq<byte>, off: nat, data: seq<byte>)
    requires off + |data| <= |p|
    ensures Splice(p, off, data)[off..off + |data|] == data
  {}

  /** A write leaves every range that it does not meet as it was. */
  lemma WritesNothingElse(p: seq<byte>, off: nat, data: seq<byte>, lo: nat, hi: nat)
    requires off + |data| <= |p| && lo <= hi <= |p|
    requires hi <= off || off + |data| <= lo
    ensures Splice(p, off, data)[lo..hi] == p[lo..hi]
  {}

  lemma IntReadsBack(p: seq<byte>, off: nat, v: int32)
    requires off + 4 <= |p|
    ensures GetInt(Splice(p, off, IntBytes(v)), off) == Some(v)
  {
    ReadsBack(p, off, IntBytes(v));
    IntRoundTrip(v);
  }

  lemma BlobReadsBack(p: seq<byte>, off: nat, data: seq<byte>)
    requires FitsLength(data) && off + 4 + |data| <= |p|
    ensures GetBytes(Splice(p, off, Blob(data)), off) == Some(data)
  {
    var q := Splice(p, off, Blob(data));
    assert q[off..off + 4] == IntBytes(|data|);
    IntRoundTrip(|data|);
    assert q[off + 4..off + 4 + |data|] == data;
  }

  lemma SliceOfDrop<T>(p: seq<T>, off: nat, a: nat, b: nat)
    requires a <= b && off + b <= |p|
    ensures p[off..][a..b] == p[off + a..off + b]
  {}

  /** What is read at `off` depends only on the bytes from `off` on. */
  lemma BlobLocal(p: seq<byte>, q: seq<byte>, off: nat)
    requires |p| == |q| && off <= |p| && p[off..] == q[off..]
    ensures GetInt(p, off) == GetInt(q, off) && GetBytes(p, off) == GetBytes(q, off)
  {
    if off + 4 <= |p| {
      SliceOfDrop(p, off, 0, 4);
      SliceOfDrop(q, off, 0, 4);
      var len: int := IntOf(p[off..off + 4]);
      if len >= 0 && off + 4 + len <= |p| {
        SliceOfDrop(p, off, 4, 4 + len);
        SliceOfDrop(q, off, 4, 4 + len);
      }
    }
  }

  // ---------------------------------------------------------------------------------------------
  // The class
  // ---------------------------------------------------------------------------------------------

  class Page {
    const bb: array<byte>

    constructor (blocksize: nat)
      ensures fresh(bb) && bb.Length == blocksize
      ensures forall k | 0 <= k < blocksize :: bb[k] == 0
    {
      bb := new byte[blocksize](_ => 0);
    }

    method ReadInt(off: nat) returns (r: Option<int32>)
      ensures r == GetInt(bb[..], off)
    {
      if off + 4 > bb.Length {
        return None;
      }
      r := Some(IntOf(bb[off..off + 4]));
      assert bb[off..off + 4] == bb[..][off..off + 4];
    }

    method ReadBytes(off: nat) returns (r: Option<seq<byte>>)
      ensures r == GetBytes(bb[..], off)
    {
      var len := ReadInt(off);
      if len.None? || len.value < 0 || off + 4 + len.value > bb.Length {
        return None;
      }
      r := Some(bb[off + 4..off + 4 + len.value]);
      assert bb[off + 4..off + 4 + len.value] == bb[..][off + 4..off + 4 + len.value];
    }

    /** Copies `data` into the buffer; the caller has checked the bounds. */
    method Copy(off: nat, data: seq<byte>)
      requires off + |data| <= bb.Length
      modifies bb
      ensures bb[..] == Splice(old(bb[..]), off, data)
    {
      for k := 0 to |data|
        invariant forall i | 0 <= i < k :: bb[off + i] == data[i]
        invariant forall i | 0 <= i < bb.Length && !(off <= i < off + k) :: bb[i] == old(bb[i])
      {
        bb[off + k] := data[k];
      }
    }

    method SetInt(off: nat, v: int32) returns (ok: bool)
      modifies bb
      ensures ok <==> off + 4 <= bb.Length
      ensures bb[..] == if off + 4 <= bb.Length then Splice(old(bb[..]), off, IntBytes(v)) else old(bb[..])
    {
      if off + 4 > bb.Length {
        return false;
      }
      Copy(off, IntBytes(v));
      ok := true;
    }

    method SetBytes(off: nat, data: seq<byte>) returns (ok: bool)
      modifies bb
      ensures ok <==> FitsLength(data) && off + 4 + |data| <= bb.Length
      ensures bb[..] == if FitsLength(data) && off + 4 + |data| <= bb.Length
                        then Splice(old(bb[..]), off, Blob(data)) else old(bb[..])
    {
      if !FitsLength(data) || off + 4 + |data| > bb.Length {
        return false;
      }
      Copy(off, IntBytes(|data|));
      Copy(off + 4, data);
      ghost var was := old(bb[..]);
      assert Splice(Splice(was, off, IntBytes(|data|)), off + 4, data) == Splice(was, off, Blob(data));
      ok := true;
    }
  }
}
