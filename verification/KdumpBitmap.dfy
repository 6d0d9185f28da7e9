/** The two bitmaps of a kdump file, written through one buffer (qemu/dump.c). */
module KdumpBitmap {
  import opened Basics
  import opened Arith
  import opened Vmcore
  import opened GuestMemory

  /** Byte x of a bitmap has exactly the bits that are in done. */
  ghost predicate Shows(b: byte, x: nat, done: set<nat>) {
    forall j: nat | j < 8 :: Bit(b, j) <==> 8 * x + j in done
  }

  ghost predicate ShownAt(rs: seq<Record>, at: nat, x: nat, done: set<nat>) {
    ByteAt(rs, at + x).Some? && Shows(ByteAt(rs, at + x).value, x, done)
  }

  /** The first n bytes of the bitmap at offset at are in the file. */
  ghost predicate Synced(rs: seq<Record>, at: nat, n: nat, done: set<nat>) {
    forall x: nat | x < n :: ShownAt(rs, at, x, done)
  }

  /** The buffer holds the bytes of the bitmap from number base on. */
  ghost predicate Buffered(buf: seq<byte>, base: nat, done: set<nat>) {
    forall i | 0 <= i < |buf| :: Shows(buf[i], base + i, done)
  }

  /** Both bitmaps up to byte number base are in the file, and the buffer is next. */
  ghost predicate Bitmap(rs: seq<Record>, buf: seq<byte>, at: nat, len: nat, base: nat, done: set<nat>) {
    Synced(rs, at, base, done) && Synced(rs, at + len, base, done) && Buffered(buf, base, done)
  }

  ghost predicate Below(done: set<nat>, n: nat) {
    forall p | p in done :: p < n
  }

  lemma {:induction false} Addr8(k: nat, ps: nat)
    ensures Addr(k, 8 * ps) == 8 * Addr(k, ps)
  {
    if k > 0 {
      Addr8(k - 1, ps);
    }
  }

  lemma SyncedKept(rs: seq<Record>, rs': seq<Record>, at: nat, n: nat, done: set<nat>, lo: nat, hi: nat)
    requires Synced(rs, at, n, done) && SameOutside(rs, rs', lo, hi) && (at + n <= lo || hi <= at)
    ensures Synced(rs', at, n, done)
  {
    forall x: nat | x < n
      ensures ShownAt(rs', at, x, done)
    {
      assert ShownAt(rs, at, x, done);
    }
  }

  /** Writing the buffer moves the end of one bitmap. */
  lemma SyncedMore(rs: seq<Record>, rs': seq<Record>, at: nat, base: nat, buf: seq<byte>, done: set<nat>)
    requires Synced(rs, at, base, done) && Buffered(buf, base, done)
    requires Stored(rs', at + base, buf) && SameOutside(rs, rs', at + base, at + base + |buf|)
    ensures Synced(rs', at, base + |buf|, done)
  {
    forall x: nat | x < base + |buf|
      ensures ShownAt(rs', at, x, done)
    {
      if x < base {
        assert ShownAt(rs, at, x, done);
      } else {
        assert ByteAt(rs', at + base + (x - base)) == Some(buf[x - base]);
      }
    }
  }

  lemma ZeroBuffer(buf: seq<byte>, base: nat, done: set<nat>)
    requires Below(done, 8 * base) && forall i | 0 <= i < |buf| :: buf[i] == 0
    ensures Buffered(buf, base, done)
  {
    forall i, j: nat | 0 <= i < |buf| && j < 8
      ensures Bit(buf[i], j) <==> 8 * (base + i) + j in done
    {
      ZeroBits(j);
    }
  }

  /** Writing the buffer to both bitmaps. */
  lemma FlushBoth(rs: seq<Record>, rs1: seq<Record>, rs2: seq<Record>, buf: seq<byte>, at: nat, len: nat, base: nat,
                  done: set<nat>)
    requires Bitmap(rs, buf, at, len, base, done) && base + |buf| <= len
    requires Stored(rs1, at + base, buf) && SameOutside(rs, rs1, at + base, at + base + |buf|)
    requires Stored(rs2, at + len + base, buf) && SameOutside(rs1, rs2, at + len + base, at + len + base + |buf|)
    ensures Synced(rs2, at, base + |buf|, done) && Synced(rs2, at + len, base + |buf|, done)
  {
    SyncedMore(rs, rs1, at, base, buf, done);
    SyncedKept(rs1, rs2, at, base + |buf|, done, at + len + base, at + len + base + |buf|);
    SyncedKept(rs, rs1, at + len, base, done, at + base, at + base + |buf|);
    SyncedMore(rs1, rs2, at + len, base, buf, done);
  }

  method ClearBuffer(buf: array<byte>)
    modifies buf
    ensures forall i | 0 <= i < buf.Length :: buf[i] == 0
  {
    forall i | 0 <= i < buf.Length {
      buf[i] := 0;
    }
  }

  /** One turn of the flush loop of set_dump_bitmap: both bitmaps get the buffer, which is then cleared. */
  method FlushBuffer(fd: File, buf: array<byte>, at: nat, len: nat, oldOffset: nat, ghost done: set<nat>)
    requires Bitmap(fd.records, buf[..], at, len, oldOffset, done)
    requires oldOffset + buf.Length <= len && Below(done, 8 * (oldOffset + buf.Length))
    modifies fd, buf
    ensures Bitmap(fd.records, buf[..], at, len, oldOffset + buf.Length, done)
    ensures SameOutside(old(fd.records), fd.records, at, at + 2 * len)
  {
    WriteBoth(fd, buf[..], at, len, oldOffset, done);
    ClearBuffer(buf);
    ZeroBuffer(buf[..], oldOffset + buf.Length, done);
  }

  /** The buffer goes to both bitmaps. */
  method WriteBoth(fd: File, b: seq<byte>, at: nat, len: nat, oldOffset: nat, ghost done: set<nat>)
    requires Bitmap(fd.records, b, at, len, oldOffset, done) && oldOffset + |b| <= len
    modifies fd
    ensures Synced(fd.records, at, oldOffset + |b|, done) && Synced(fd.records, at + len, oldOffset + |b|, done)
    ensures SameOutside(old(fd.records), fd.records, at, at + 2 * len)
  {
    ghost var rs := fd.records;
    fd.WriteBuffer(at + oldOffset, b);
    ghost var rs1 := fd.records;
    fd.WriteBuffer(at + len + oldOffset, b);
    FlushBoth(rs, rs1, fd.records, b, at, len, oldOffset, done);
    OutsideTrans(rs, rs1, fd.records, at + oldOffset, at + oldOffset + |b|, at + len + oldOffset,
                 at + len + oldOffset + |b|, at, at + 2 * len);
  }

  function Updated(done: set<nat>, pfn: nat, value: bool): set<nat> {
    if value then done + {pfn} else done - {pfn}
  }

  /** Bytes that pfn is not in do not change. */
  lemma ShowsOther(b: byte, x: nat, done: set<nat>, pfn: nat, value: bool)
    requires Shows(b, x, done) && !(8 * x <= pfn < 8 * x + 8)
    ensures Shows(b, x, Updated(done, pfn, value))
  {
  }

  lemma ShowsSet(b: byte, x: nat, done: set<nat>, bit: nat, value: bool)
    requires Shows(b, x, done) && bit < 8
    ensures var c := if value then SetBit(b, bit) else ClearBit(b, bit);
            c < 256 && Shows(c, x, Updated(done, 8 * x + bit, value))
  {
    ByteBound(b, bit);
    forall j: nat | j < 8
      ensures Bit(SetBit(b, bit), j) <==> 8 * x + j in Updated(done, 8 * x + bit, true)
      ensures Bit(ClearBit(b, bit), j) <==> 8 * x + j in Updated(done, 8 * x + bit, false)
    {
      SetBitIs(b, bit, j);
      ClearBitIs(b, bit, j);
    }
  }

  lemma SyncedOther(rs: seq<Record>, at: nat, n: nat, done: set<nat>, pfn: nat, value: bool)
    requires Synced(rs, at, n, done) && 8 * n <= pfn
    ensures Synced(rs, at, n, Updated(done, pfn, value))
  {
    forall x: nat | x < n
      ensures ShownAt(rs, at, x, Updated(done, pfn, value))
    {
      assert ShownAt(rs, at, x, done);
      ShowsOther(ByteAt(rs, at + x).value, x, done, pfn, value);
    }
  }

  lemma BufferSet(buf: seq<byte>, base: nat, done: set<nat>, byt: nat, bit: nat, value: bool, c: byte)
    requires Buffered(buf, base, done) && byt < |buf| && bit < 8
    requires c == if value then SetBit(buf[byt], bit) else ClearBit(buf[byt], bit)
    ensures Buffered(buf[byt := c], base, Updated(done, 8 * (base + byt) + bit, value))
  {
    var pfn := 8 * (base + byt) + bit;
    var buf' := buf[byt := c];
    forall i | 0 <= i < |buf'|
      ensures Shows(buf'[i], base + i, Updated(done, pfn, value))
    {
      if i == byt {
        ShowsSet(buf[byt], base + byt, done, bit, value);
      } else {
        ShowsOther(buf[i], base + i, done, pfn, value);
      }
    }
  }

  /** Where the bit of pfn is: in which buffer, and where in it. */
  lemma BitPlace(pfn: nat, ps: nat)
    requires ps > 0
    ensures var o := Offset(pfn, 8 * ps);
            o / 8 < ps && pfn == 8 * (Addr(Page(pfn, 8 * ps), ps) + o / 8) + o % 8
  {
    AddrPage(pfn, 8 * ps);
    Addr8(Page(pfn, 8 * ps), ps);
  }

  /** Bits up to last end in the buffer of last. */
  lemma BelowBuffer(last: nat, ps: nat, k: nat)
    requires ps > 0 && Page(last, 8 * ps) <= k
    ensures last < 8 * (Addr(k, ps) + ps)
  {
    BitPlace(last, ps);
    AddrMono(Page(last, 8 * ps), k, ps);
  }

  /** set_dump_bitmap; bufsize is one page. */
  method SetDumpBitmap(fd: File, buf: array<byte>, at: nat, len: nat, last: nat, pfn: nat, value: bool,
                       ghost done: set<nat>)
    requires buf.Length > 0 && last <= pfn && Below(done, last + 1)
    requires Bitmap(fd.records, buf[..], at, len, Addr(Page(last, 8 * buf.Length), buf.Length), done)
    requires Addr(Page(pfn, 8 * buf.Length), buf.Length) <= len
    modifies fd, buf
    ensures Bitmap(fd.records, buf[..], at, len, Addr(Page(pfn, 8 * buf.Length), buf.Length), Updated(done, pfn, value))
    ensures SameOutside(old(fd.records), fd.records, at, at + 2 * len)
  {
    var bufsize := buf.Length;
    var bitsPerBuf := 8 * bufsize;
    var oldOffset := Addr(Page(last, bitsPerBuf), bufsize);
    var newOffset := Addr(Page(pfn, bitsPerBuf), bufsize);
    ghost var k := Page(last, bitsPerBuf);
    PageMono(bitsPerBuf, last, pfn);
    AddrMono(k, Page(pfn, bitsPerBuf), bufsize);
    while oldOffset < newOffset
      invariant Page(last, bitsPerBuf) <= k <= Page(pfn, bitsPerBuf) && oldOffset == Addr(k, bufsize)
      invariant oldOffset >= newOffset ==> k == Page(pfn, bitsPerBuf)
      invariant Bitmap(fd.records, buf[..], at, len, oldOffset, done)
      invariant SameOutside(old(fd.records), fd.records, at, at + 2 * len)
    {
      AddrMono(k + 1, Page(pfn, bitsPerBuf), bufsize);
      BelowBuffer(last, bufsize, k);
      FlushBuffer(fd, buf, at, len, oldOffset, done);
      oldOffset := oldOffset + bufsize;
      k := k + 1;
    }
    BitPlace(pfn, bufsize);
    var byt := Offset(pfn, bitsPerBuf) / 8;
    var bit := Offset(pfn, bitsPerBuf) % 8;
    ByteBound(buf[byt], bit);
    SyncedOther(fd.records, at, oldOffset, done, pfn, value);
    SyncedOther(fd.records, at + len, oldOffset, done, pfn, value);
    BufferSet(buf[..], oldOffset, done, byt, bit, value,
              if value then SetBit(buf[byt], bit) else ClearBit(buf[byt], bit));
    ghost var was := buf[..];
    if value {
      buf[byt] := SetBit(buf[byt], bit);
    } else {
      buf[byt] := ClearBit(buf[byt], bit);
    }
    assert buf[..] == was[byt := buf[byt]];
  }

  /** DIV_ROUND_UP */
  function DivRoundUp(x: nat, d: nat): nat
    requires d > 0
  {
    Page(x + d - 1, d)
  }

  /** len_dump_bitmap: one bit per page number, in whole pages. */
  function BitmapLen(maxMapnr: nat, ps: nat): nat
    requires ps > 0
  {
    Addr(DivRoundUp(DivRoundUp(maxMapnr, 8), ps), ps)
  }

  lemma {:induction false} Page8(x: nat, ps: nat)
    requires ps > 0
    ensures Page(x, 8 * ps) == Page(x / 8, ps)
  {
    if x >= 8 * ps {
      Page8(x - 8 * ps, ps);
    }
  }

  /** The bitmap ends with the buffer that holds the bit of the last page. */
  lemma LenIs(maxMapnr: nat, ps: nat)
    requires ps > 0 && maxMapnr > 0
    ensures BitmapLen(maxMapnr, ps) == Addr(Page(maxMapnr - 1, 8 * ps), ps) + ps
  {
    var last := maxMapnr - 1;
    PageIsDiv(maxMapnr + 7, 8);
    assert DivRoundUp(maxMapnr, 8) == last / 8 + 1;
    Page8(last, ps);
    assert Page(last / 8 + ps, ps) == 1 + Page(last / 8, ps);
  }

  lemma InLen(maxMapnr: nat, ps: nat, pfn: nat)
    requires ps > 0 && pfn < maxMapnr
    ensures Addr(Page(pfn, 8 * ps), ps) + ps <= BitmapLen(maxMapnr, ps)
  {
    LenIs(maxMapnr, ps);
    PageMono(8 * ps, pfn, maxMapnr - 1);
    AddrMono(Page(pfn, 8 * ps), Page(maxMapnr - 1, 8 * ps), ps);
  }

  /** done is the set of pages of guest memory below n. */
  ghost predicate Marked(blocks: seq<Block>, ps: nat, done: set<nat>, n: nat) {
    forall p: nat :: p in done <==> p < n && Dumpable(blocks, ps, p)
  }

  lemma MarkedMore(blocks: seq<Block>, ps: nat, done: set<nat>, n: nat, pfn: nat)
    requires Marked(blocks, ps, done, n) && n <= pfn && NoPage(blocks, ps, n, pfn) && Dumpable(blocks, ps, pfn)
    ensures Marked(blocks, ps, done + {pfn}, pfn + 1)
  {
  }

  /** Both bitmaps are complete in the file. */
  ghost predicate Complete(rs: seq<Record>, blocks: seq<Block>, ps: nat, at: nat, len: nat, done: set<nat>)
    requires Sorted(blocks, ps)
  {
    Marked(blocks, ps, done, MaxMapnr(blocks, ps)) && Synced(rs, at, len, done) && Synced(rs, at + len, len, done)
  }

  /** The state between two turns of write_dump_bitmap. */
  ghost predicate Marking(rs: seq<Record>, buf: seq<byte>, blocks: seq<Block>, at: nat, len: nat, iter: Option<nat>,
                          pfn: nat, last: nat, done: set<nat>)
    requires |buf| > 0
  {
    var ps := |buf|;
    && Walking(blocks, ps, iter, pfn)
    && last == (if iter.None? then 0 else pfn) && Below(done, Walked(iter, pfn))
    && Marked(blocks, ps, done, Walked(iter, pfn))
    && Bitmap(rs, buf, at, len, Addr(Page(last, 8 * ps), ps), done)
  }

  /** One turn: the bit of the next page. */
  method MarkPage(fd: File, buf: array<byte>, blocks: seq<Block>, at: nat, len: nat, iter: Option<nat>, pfn: nat,
                  last: nat, i: nat, pfn': nat, ghost done: set<nat>)
    requires var ps := buf.Length;
             && Sorted(blocks, ps) && len == BitmapLen(MaxMapnr(blocks, ps), ps)
             && Marking(fd.records, buf[..], blocks, at, len, iter, pfn, last, done)
             && Moved(blocks, ps, iter, pfn, pfn') && i < |blocks| && InBlock(blocks[i], ps, pfn')
    modifies fd, buf
    ensures Marking(fd.records, buf[..], blocks, at, len, Some(i), pfn', pfn', done + {pfn'})
    ensures SameOutside(old(fd.records), fd.records, at, at + 2 * len)
  {
    var ps := buf.Length;
    WalkOn(blocks, ps, iter, pfn, i, pfn');
    InLen(MaxMapnr(blocks, ps), ps, pfn');
    SetDumpBitmap(fd, buf, at, len, last, pfn', true, done);
    MarkedMore(blocks, ps, done, Walked(iter, pfn), pfn');
  }

  /** The last call of write_dump_bitmap to set_dump_bitmap, which only flushes the buffer. */
  method FlushLast(fd: File, buf: array<byte>, blocks: seq<Block>, at: nat, len: nat, ghost iter: Option<nat>,
                   last: nat, ghost done: set<nat>)
    requires var ps := buf.Length;
             && Sorted(blocks, ps) && len == BitmapLen(MaxMapnr(blocks, ps), ps)
             && Marking(fd.records, buf[..], blocks, at, len, iter, last, last, done)
             && last + 1 == MaxMapnr(blocks, ps) == Walked(iter, last)
    modifies fd, buf
    ensures Complete(fd.records, blocks, buf.Length, at, len, done)
    ensures SameOutside(old(fd.records), fd.records, at, at + 2 * len)
  {
    LenIs(last + 1, buf.Length);
    SetDumpBitmap(fd, buf, at, len, last, last + 8 * buf.Length, false, done);
    assert Updated(done, last + 8 * buf.Length, false) == done;
  }

  /** write_dump_bitmap */
  method WriteDumpBitmap(fd: File, blocks: seq<Block>, ps: nat, at: nat, len: nat)
    returns (numDumpable: nat, ghost done: set<nat>)
    requires Sorted(blocks, ps) && len == BitmapLen(MaxMapnr(blocks, ps), ps)
    modifies fd
    ensures numDumpable == |Pages(blocks, ps, MaxMapnr(blocks, ps))|
    ensures Complete(fd.records, blocks, ps, at, len, done)
    ensures SameOutside(old(fd.records), fd.records, at, at + 2 * len)
  {
    var buf := new byte[ps](_ => 0);
    numDumpable := 0;
    var lastPfn: nat, pfn: nat := 0, 0;
    var iter: Option<nat> := None;
    done := {};
    ZeroBuffer(buf[..], 0, done);
    while true
      invariant Marking(fd.records, buf[..], blocks, at, len, iter, pfn, lastPfn, done)
      invariant Walked(iter, pfn) <= MaxMapnr(blocks, ps) && (iter.Some? ==> numDumpable > 0)
      invariant numDumpable == |Pages(blocks, ps, Walked(iter, pfn))|
      invariant SameOutside(old(fd.records), fd.records, at, at + 2 * len)
      decreases MaxMapnr(blocks, ps) - Walked(iter, pfn)
    {
      var ok, iter', pfn', _ := GetNextPage(blocks, ps, iter, pfn);
      if !ok {
        break;
      }
      WalkOn(blocks, ps, iter, pfn, iter'.value, pfn');
      ghost var rs := fd.records;
      MarkPage(fd, buf, blocks, at, len, iter, pfn, lastPfn, iter'.value, pfn', done);
      OutsideTrans(old(fd.records), rs, fd.records, at, at + 2 * len, at, at + 2 * len, at, at + 2 * len);
      done := done + {pfn'};
      iter, pfn, lastPfn := iter', pfn', pfn';
      numDumpable := numDumpable + 1;
    }
    WalkEnds(blocks, ps, iter, pfn);
    if numDumpable > 0 {
      ghost var rs := fd.records;
      FlushLast(fd, buf, blocks, at, len, iter, lastPfn, done);
      OutsideTrans(old(fd.records), rs, fd.records, at, at + 2 * len, at, at + 2 * len, at, at + 2 * len);
    }
  }
}
