/**
  What the kdump writer and a reader of its file share: bytes, bits and numbers,
  and the flattened format of qemu/dump.c, where a file is a sequence of records
  "these bytes at this offset" and a later record wins.
 */
module Vmcore {
  import opened Basics

  // Bits of a byte.

  predicate Bit(b: nat, j: nat) {
    if j == 0 then b % 2 == 1 else Bit(b / 2, j - 1)
  }

  /** b | 1u << j */
  function SetBit(b: nat, j: nat): nat {
    if j == 0 then b - b % 2 + 1 else 2 * SetBit(b / 2, j - 1) + b % 2
  }

  /** b & ~(1u << j) */
  function ClearBit(b: nat, j: nat): nat {
    if j == 0 then b - b % 2 else 2 * ClearBit(b / 2, j - 1) + b % 2
  }

  lemma {:induction false} SetBitIs(b: nat, j: nat, k: nat)
    ensures Bit(SetBit(b, j), k) <==> k == j || Bit(b, k)
    decreases j
  {
    if j > 0 && k > 0 {
      SetBitIs(b / 2, j - 1, k - 1);
    }
  }

  lemma {:induction false} ClearBitIs(b: nat, j: nat, k: nat)
    ensures Bit(ClearBit(b, j), k) <==> k != j && Bit(b, k)
    decreases j
  {
    if j > 0 && k > 0 {
      ClearBitIs(b / 2, j - 1, k - 1);
    }
  }

  function Pow2(n: nat): (p: nat)
    ensures p > 0
  {
    if n == 0 then 1 else 2 * Pow2(n - 1)
  }

  lemma {:induction false} BitBound(b: nat, j: nat, n: nat)
    requires j < n && b < Pow2(n)
    ensures SetBit(b, j) < Pow2(n) && ClearBit(b, j) < Pow2(n)
  {
    if j > 0 {
      BitBound(b / 2, j - 1, n - 1);
    }
  }

  lemma ByteBound(b: byte, j: nat)
    requires j < 8
    ensures SetBit(b, j) < 256 && ClearBit(b, j) < 256
  {
    assert Pow2(8) == 256;
    BitBound(b, j, 8);
  }

  lemma {:induction false} ZeroBits(j: nat)
    ensures !Bit(0, j)
  {
    if j > 0 {
      ZeroBits(j - 1);
    }
  }

  // Numbers of a fixed width, in the byte order of the target.

  function Bytes(x: nat, width: nat, big: bool): (s: seq<byte>)
    ensures |s| == width
  {
    if width == 0 then []
    else if big then Bytes(x / 256, width - 1, big) + [x % 256]
    else [x % 256] + Bytes(x / 256, width - 1, big)
  }

  function Number(s: seq<byte>, big: bool): nat {
    if s == [] then 0
    else if big then 256 * Number(s[..|s| - 1], big) + s[|s| - 1]
    else s[0] + 256 * Number(s[1..], big)
  }

  function Pow256(n: nat): (p: nat)
    ensures p > 0
  {
    if n == 0 then 1 else 256 * Pow256(n - 1)
  }

  lemma Pow256Of4()
    ensures Pow256(4) == TWO32
  {
    assert Pow256(1) == 256 * Pow256(0);
    assert Pow256(2) == 256 * Pow256(1);
    assert Pow256(3) == 256 * Pow256(2);
  }

  lemma Pow256Of8()
    ensures Pow256(8) == TWO64
  {
    Pow256Of4();
    assert Pow256(5) == 256 * Pow256(4);
    assert Pow256(6) == 256 * Pow256(5);
    assert Pow256(7) == 256 * Pow256(6);
  }

  lemma {:induction false} NumberBytes(x: nat, width: nat, big: bool)
    requires x < Pow256(width)
    ensures Number(Bytes(x, width, big), big) == x
  {
    if width > 0 {
      NumberBytes(x / 256, width - 1, big);
      var s := Bytes(x, width, big);
      assert if big then s[..width - 1] == Bytes(x / 256, width - 1, big) else s[1..] == Bytes(x / 256, width - 1, big);
    }
  }

  // The flattened file.

  datatype Record = Record(offset: nat, data: seq<byte>)

  /** The byte of the reassembled file at offset x, if any record has written it. */
  function ByteAt(rs: seq<Record>, x: int): Option<byte> {
    if rs == [] then None
    else
      var r := rs[|rs| - 1];
      if r.offset <= x < r.offset + |r.data| then Some(r.data[x - r.offset]) else ByteAt(rs[..|rs| - 1], x)
  }

  ghost predicate Stored(rs: seq<Record>, base: nat, data: seq<byte>) {
    forall i | 0 <= i < |data| :: ByteAt(rs, base + i) == Some(data[i])
  }

  ghost predicate SameOutside(rs: seq<Record>, rs': seq<Record>, lo: int, hi: int) {
    forall x | x < lo || hi <= x :: ByteAt(rs', x) == ByteAt(rs, x)
  }

  function Write(rs: seq<Record>, offset: nat, data: seq<byte>): seq<Record> {
    rs + [Record(offset, data)]
  }

  lemma ByteWrite(rs: seq<Record>, offset: nat, data: seq<byte>, x: int)
    ensures ByteAt(Write(rs, offset, data), x)
         == if offset <= x < offset + |data| then Some(data[x - offset]) else ByteAt(rs, x)
  {
    var rs' := Write(rs, offset, data);
    assert rs'[..|rs'| - 1] == rs;
  }

  lemma WriteAt(rs: seq<Record>, offset: nat, data: seq<byte>)
    ensures Stored(Write(rs, offset, data), offset, data)
    ensures SameOutside(rs, Write(rs, offset, data), offset, offset + |data|)
  {
    var rs' := Write(rs, offset, data);
    forall i | 0 <= i < |data|
      ensures ByteAt(rs', offset + i) == Some(data[i])
    {
      ByteWrite(rs, offset, data, offset + i);
    }
    forall x | x < offset || offset + |data| <= x
      ensures ByteAt(rs', x) == ByteAt(rs, x)
    {
      ByteWrite(rs, offset, data, x);
    }
  }

  lemma StoredKept(rs: seq<Record>, rs': seq<Record>, base: nat, data: seq<byte>, lo: int, hi: int)
    requires Stored(rs, base, data) && SameOutside(rs, rs', lo, hi) && (base + |data| <= lo || hi <= base)
    ensures Stored(rs', base, data)
  {
  }

  lemma OutsideTrans(rs: seq<Record>, rs': seq<Record>, rs'': seq<Record>, lo: int, hi: int, lo': int, hi': int, l: int,
                     h: int)
    requires SameOutside(rs, rs', lo, hi) && SameOutside(rs', rs'', lo', hi') && l <= lo && l <= lo' && hi <= h
    requires hi' <= h
    ensures SameOutside(rs, rs'', l, h)
  {
  }

  predicate Present(rs: seq<Record>, base: nat, n: nat) {
    forall i | 0 <= i < n :: PresentAt(rs, base, i)
  }

  predicate PresentAt(rs: seq<Record>, base: nat, i: int) {
    ByteAt(rs, base + i).Some?
  }

  /** n bytes read at offset base; None if one of them was never written. */
  function Slice(rs: seq<Record>, base: nat, n: nat): (r: Option<seq<byte>>)
    ensures r.Some? ==> |r.value| == n
  {
    if Present(rs, base,
               n) then Some(seq<byte>(n, i requires 0 <= i < n
                                      && PresentAt(rs, base, i) => ByteAt(rs, base + i).value)) else None
  }

  lemma SliceStored(rs: seq<Record>, base: nat, data: seq<byte>)
    requires Stored(rs, base, data)
    ensures Slice(rs, base, |data|) == Some(data)
  {
    forall i | 0 <= i < |data|
      ensures PresentAt(rs, base, i)
    {
      assert ByteAt(rs, base + i) == Some(data[i]);
    }
    assert Slice(rs, base, |data|).value == data;
  }

  lemma StoredPart(rs: seq<Record>, base: nat, data: seq<byte>, lo: nat, hi: nat)
    requires Stored(rs, base, data) && lo <= hi <= |data|
    ensures Stored(rs, base + lo, data[lo..hi])
  {
    forall i | 0 <= i < hi - lo
      ensures ByteAt(rs, base + lo + i) == Some(data[lo..hi][i])
    {
      assert ByteAt(rs, base + (lo + i)) == Some(data[lo + i]);
    }
  }

  lemma StoredJoin(rs: seq<Record>, base: nat, a: seq<byte>, b: seq<byte>)
    requires Stored(rs, base, a) && Stored(rs, base + |a|, b)
    ensures Stored(rs, base, a + b)
  {
    forall i | 0 <= i < |a + b|
      ensures ByteAt(rs, base + i) == Some((a + b)[i])
    {
      if i >= |a| {
        assert ByteAt(rs, base + |a| + (i - |a|)) == Some(b[i - |a|]);
      }
    }
  }

  /** Writing the part of the data that the file does not hold yet. */
  lemma FlushStored(rs: seq<Record>, rs': seq<Record>, base: nat, data: seq<byte>, n: nat, rest: seq<byte>)
    requires n <= |data| && rest == data[n..] && Stored(rs, base, data[..n])
    requires Stored(rs', base + n, rest) && SameOutside(rs, rs', base + n, base + n + |rest|)
    ensures Stored(rs', base, data)
  {
    StoredKept(rs, rs', base, data[..n], base + n, base + n + |rest|);
    StoredJoin(rs', base, data[..n], rest);
    assert data[..n] + rest == data;
  }

  /** The output that write_buffer appends to. */
  class File {
    var records: seq<Record>

    constructor ()
      ensures records == []
    {
      records := [];
    }

    method WriteBuffer(offset: nat, data: seq<byte>)
      modifies this
      ensures records == Write(old(records), offset, data)
      ensures Stored(records, offset, data) && SameOutside(old(records), records, offset, offset + |data|)
    {
      WriteAt(records, offset, data);
      records := records + [Record(offset, data)];
    }
  }

  /**
    DataCache: a buffer in front of the file.  sent is everything handed to it;
    what the buffer does not hold is in the file, from base on.
   */
  class DataCache {
    const fd: File
    const buf: array<byte>
    var dataSize: nat
    var offset: nat
    ghost const base: nat
    ghost var sent: seq<byte>

    ghost predicate Local()
      reads this, buf
    {
      && dataSize <= buf.Length && base <= offset
      && offset + dataSize == base + |sent|
      && buf[..dataSize] == sent[offset - base..]
    }

    ghost predicate Flushed(rs: seq<Record>)
      requires base <= offset <= base + |sent|
      reads this
    {
      Stored(rs, base, sent[..offset - base])
    }

    ghost predicate Valid()
      reads this, buf, fd
    {
      Local() && Flushed(fd.records)
    }

    constructor (fd: File, bufSize: nat, offset: nat)
      ensures Valid() && this.fd == fd && fresh(buf) && buf.Length == bufSize
      ensures base == this.offset == offset && sent == [] && dataSize == 0
    {
      this.fd := fd;
      buf := new byte[bufSize](_ => 0);
      dataSize := 0;
      this.offset := offset;
      base := offset;
      sent := [];
    }

    /** write_cache */
    method WriteCache(data: seq<byte>, flagSync: bool)
      requires Valid() && |data| <= buf.Length && (flagSync ==> data == [])
      modifies this, buf, fd
      ensures Valid() && sent == old(sent) + data
      ensures old(offset) <= offset && SameOutside(old(fd.records), fd.records, old(offset), offset)
      ensures flagSync ==> Stored(fd.records, base, sent) && offset == base + |sent|
    {
      if (!flagSync && dataSize + |data| > buf.Length) || (flagSync && dataSize > 0) {
        Flush();
      }
      if !flagSync {
        Append(data);
      } else {
        assert sent[..offset - base] == sent;
      }
    }

    method Flush()
      requires Valid()
      modifies this, fd
      ensures Valid() && sent == old(sent) && dataSize == 0 && offset == old(offset) + old(dataSize)
      ensures SameOutside(old(fd.records), fd.records, old(offset), offset)
    {
      ghost var rs := fd.records;
      fd.WriteBuffer(offset, buf[..dataSize]);
      FlushStored(rs, fd.records, base, sent, offset - base, buf[..dataSize]);
      offset := offset + dataSize;
      dataSize := 0;
      assert sent[..offset - base] == sent;
    }

    method Append(data: seq<byte>)
      requires Valid() && dataSize + |data| <= buf.Length
      modifies this, buf
      ensures Valid() && sent == old(sent) + data && offset == old(offset)
    {
      ghost var held := buf[..dataSize];
      ghost var was := sent;
      forall i | 0 <= i < |data| {
        buf[dataSize + i] := data[i];
      }
      dataSize := dataSize + |data|;
      sent := sent + data;
      assert buf[..dataSize] == held + data;
      assert sent[offset - base..] == was[offset - base..] + data;
      assert sent[..offset - base] == was[..offset - base];
    }
  }
}
