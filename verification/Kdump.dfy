/** The writer of kdump files, create_kdump_vmcore, and the proof that the reader gets guest memory back. */
module Kdump {
  import opened Basics
  import opened Arith
  import opened Vmcore
  import opened GuestMemory
  import opened KdumpBitmap
  import opened KdumpPages
  import opened KdumpLayout
  import opened KdumpReader

  lemma BitAtIs(rs: seq<Record>, at: nat, len: nat, done: set<nat>, pfn: nat)
    requires Synced(rs, at, len, done) && pfn < 8 * len
    ensures BitAt(rs, at, pfn) <==> pfn in done
  {
    assert ShownAt(rs, at, pfn / 8, done);
    assert 8 * (pfn / 8) + pfn % 8 == pfn;
  }

  lemma {:induction false} BitRankIs(rs: seq<Record>, blocks: seq<Block>, ps: nat, at: nat, len: nat, done: set<nat>,
                                     pfn: nat)
    requires Sorted(blocks, ps) && Synced(rs, at, len, done) && Marked(blocks, ps, done, MaxMapnr(blocks, ps))
    requires pfn <= MaxMapnr(blocks, ps) <= 8 * len
    ensures BitRank(rs, at, pfn) == |Pages(blocks, ps, pfn)|
  {
    if pfn > 0 {
      BitRankIs(rs, blocks, ps, at, len, done, pfn - 1);
      BitAtIs(rs, at, len, done, pfn - 1);
    }
  }

  lemma DataReads(rs: seq<Record>, c: Codec, d: Desc, base: nat, data: seq<byte>, page: seq<byte>)
    requires Stored(rs, base, data) && Describes(c, d, base, data, page)
    ensures ReadData(rs, c, d) == Some(page)
  {
    var lo := d.offset - base;
    StoredPart(rs, base, data, lo, lo + d.size);
    SliceStored(rs, d.offset, data[lo..lo + d.size]);
  }

  lemma DescSlice(rs: seq<Record>, big: bool, op: nat, descs: seq<Desc>, k: nat)
    requires Stored(rs, op, Flat(descs, big)) && k < |descs|
    ensures Slice(rs, op + 24 * k, DESC_SIZE) == Some(Encode(descs[k], big))
  {
    StoredPart(rs, op, Flat(descs, big), 24 * k, 24 * k + 24);
    FlatAt(descs, big, k);
    SliceStored(rs, op + 24 * k, Encode(descs[k], big));
  }

  /** The text of descriptor k, which reads as that descriptor. */
  lemma DescText(rs: seq<Record>, big: bool, op: nat, descs: seq<Desc>, k: nat) returns (s: seq<byte>)
    requires Stored(rs, op, Flat(descs, big)) && k < |descs| && Encodable(descs[k])
    ensures |s| == DESC_SIZE && Slice(rs, op + 24 * k, DESC_SIZE) == Some(s) && Decode(s, big) == descs[k]
  {
    s := Encode(descs[k], big);
    DescSlice(rs, big, op, descs, k);
    DecodeEncode(descs[k], big);
  }

  lemma ReadText(rs: seq<Record>, c: Codec, big: bool, op: nat, k: nat, s: seq<byte>, d: Desc)
    requires |s| == DESC_SIZE && Slice(rs, op + 24 * k, DESC_SIZE) == Some(s) && Decode(s, big) == d
    ensures ReadDesc(rs, c, big, op, k) == ReadData(rs, c, d)
  {
  }

  lemma PageDataReads(rs: seq<Record>, c: Codec, descs: seq<Desc>, base: nat, data: seq<byte>, pages: seq<seq<byte>>,
                      k: nat)
    requires AllDescribed(c, descs, base, data, pages) && Stored(rs, base, data) && k < |descs|
    ensures |descs| == |pages| && ReadData(rs, c, descs[k]) == Some(pages[k])
  {
    DescribedAt(c, descs, base, data, pages, k);
    DataReads(rs, c, descs[k], base, data, pages[k]);
  }

  /** The k-th descriptor leads to the k-th page. */
  lemma DescReads(rs: seq<Record>, c: Codec, big: bool, op: nat, descs: seq<Desc>, data: seq<byte>,
                  pages: seq<seq<byte>>, k: nat)
    requires Stored(rs, op, Flat(descs, big)) && Stored(rs, op + 24 * |descs|, data)
    requires AllDescribed(c, descs, op + 24 * |descs|, data, pages) && k < |descs| && Encodable(descs[k])
    ensures |descs| == |pages| && ReadDesc(rs, c, big, op, k) == Some(pages[k])
  {
    PageDataReads(rs, c, descs, op + 24 * |descs|, data, pages, k);
    var s := DescText(rs, big, op, descs, k);
    ReadText(rs, c, big, op, k, s, descs[k]);
  }

  lemma FieldStored(rs: seq<Record>, base: nat, s: seq<byte>, at: nat, x: nat, big: bool)
    requires Stored(rs, base, s) && at + 4 <= |s| && s[at..at + 4] == Bytes(x, 4, big) && x < TWO32
    ensures ReadField(rs, base + at, big) == Some(x)
  {
    StoredPart(rs, base, s, at, at + 4);
    SliceStored(rs, base + at, Bytes(x, 4, big));
    WordReads(x, big);
  }

  lemma Middle(a: seq<byte>, b: seq<byte>, c: seq<byte>)
    ensures (a + b + c)[|a|..|a| + |b|] == b
  {
  }

  /** DiskDumpHeader: block_size, sub_hdr_size and bitmap_blocks between the other fields. */
  function HeaderBytes(head: seq<byte>, bs: nat, sub: nat, bitmap: nat, tail: seq<byte>, big: bool): seq<byte> {
    head + Bytes(bs, 4, big) + Bytes(sub, 4, big) + Bytes(bitmap, 4, big) + tail
  }

  lemma HeaderReads(rs: seq<Record>, head: seq<byte>, bs: nat, sub: nat, bitmap: nat, tail: seq<byte>, big: bool)
    requires Stored(rs, 0, HeaderBytes(head, bs, sub, bitmap, tail, big)) && bs < TWO32 && sub < TWO32 && bitmap < TWO32
    ensures ReadField(rs, |head|, big) == Some(bs)
    ensures ReadField(rs, |head| + 4, big) == Some(sub)
    ensures ReadField(rs, |head| + 8, big) == Some(bitmap)
  {
    var s, n := HeaderBytes(head, bs, sub, bitmap, tail, big), |head|;
    var x, y, z := Bytes(bs, 4, big), Bytes(sub, 4, big), Bytes(bitmap, 4, big);
    assert s == head + x + (y + z + tail);
    Middle(head, x, y + z + tail);
    FieldStored(rs, 0, s, n, bs, big);
    assert s == (head + x) + y + (z + tail);
    Middle(head + x, y, z + tail);
    FieldStored(rs, 0, s, n + 4, sub, big);
    Middle(head + x + y, z, tail);
    FieldStored(rs, 0, s, n + 8, bitmap, big);
  }

  /** Every page number reads as the guest memory it names, or as absent. */
  ghost predicate Readable(rs: seq<Record>, cls: Class, c: Codec, big: bool, blocks: seq<Block>, ps: nat)
    requires Sorted(blocks, ps)
  {
    forall pfn: nat ::
      && (!Dumpable(blocks, ps, pfn) ==> ReadPage(rs, cls, c, big, pfn) == None)
      && (Dumpable(blocks, ps, pfn) ==> ReadPage(rs, cls, c, big, pfn) == Some(DataOf(blocks, ps, pfn)))
  }

  /** Descriptors have room for every offset and size that occurs. */
  lemma AllEncodable(c: Codec, ps: nat, descs: seq<Desc>, op: nat, data: seq<byte>, pages: seq<seq<byte>>, k: nat)
    requires PageSize(ps) && Inverts(c) && op < TWO32 && |pages| <= 0x4_0000_0000 && k < |descs|
    requires Sent(c, ps, descs, op + 24 * |descs|, data, pages) && |pages[k]| == ps
    ensures Encodable(descs[k])
  {
    AddrBounds(|pages| + 1, ps);
    DescribedAt(c, descs, op + 24 * |descs|, data, pages, k);
  }

  lemma {:induction false} PageSizes(blocks: seq<Block>, ps: nat, n: nat, k: nat)
    requires Sorted(blocks, ps) && k < |Pages(blocks, ps, n)|
    ensures |Pages(blocks, ps, n)[k]| == ps && |Pages(blocks, ps, n)| <= n
  {
    PagesMono(blocks, ps, 0, n);
    if k < |Pages(blocks, ps, n - 1)| {
      PageSizes(blocks, ps, n - 1, k);
    }
  }

  /** Where the reader looks is where the writers wrote. */
  lemma SamePlaces(cls: Class, noteSize: nat, maxMapnr: nat, ps: nat)
    requires PageSize(ps) && maxMapnr > 0 && Fits(cls, noteSize, BitmapLen(maxMapnr, ps), ps)
    ensures var len, sub := BitmapLen(maxMapnr, ps), SubHdrSize(cls, noteSize, ps);
            var bitmap := U32(BitmapBlocks(len, ps));
            && SecondBitmap(Sizes(ps, sub, bitmap)) == OffsetDumpBitmap(cls, noteSize, ps) + len
            && FirstDesc(Sizes(ps, sub, bitmap)) == OffsetPage(cls, noteSize, len, ps)
            && BitmapBits(Sizes(ps, sub, bitmap)) == 8 * len
            && maxMapnr <= 8 * len < 0x4_0000_0000
  {
    var len := BitmapLen(maxMapnr, ps);
    LenAligned(maxMapnr, ps);
    LayoutRight(cls, noteSize, len, ps);
    BitmapsFill(cls, noteSize, len, ps);
    RoundUp(len, ps);
    RoundUp(DivRoundUp(maxMapnr, 8), ps);
    PageIsDiv(maxMapnr + 7, 8);
  }

  /** Given the offset at which they were written, the descriptors lead to every page. */
  lemma RankReads(rs: seq<Record>, c: Codec, big: bool, blocks: seq<Block>, ps: nat, op: nat, descs: seq<Desc>,
                  data: seq<byte>, k: nat)
    requires Sorted(blocks, ps) && PageSize(ps) && Inverts(c) && MaxMapnr(blocks, ps) < 0x4_0000_0000 && op < TWO32
    requires PagesStored(rs, c, blocks, ps, big, op, descs, data) && k < |descs|
    ensures ReadDesc(rs, c, big, op, k) == Some(Pages(blocks, ps, MaxMapnr(blocks, ps))[k])
  {
    var n := MaxMapnr(blocks, ps);
    var pages := Pages(blocks, ps, n);
    PageSizes(blocks, ps, n, k);
    AllEncodable(c, ps, descs, op, data, pages, k);
    DescReads(rs, c, big, op, descs, data, pages, k);
  }

  lemma ReadAtIs(rs: seq<Record>, c: Codec, big: bool, blocks: seq<Block>, ps: nat, at: nat, len: nat, op: nat,
                 done: set<nat>, descs: seq<Desc>, data: seq<byte>, pfn: nat)
    requires Sorted(blocks, ps) && PageSize(ps) && Inverts(c) && pfn < MaxMapnr(blocks, ps) <= 8 * len < 0x4_0000_0000
    requires op < TWO32
    requires Synced(rs, at, len, done) && Marked(blocks, ps, done, MaxMapnr(blocks, ps))
    requires PagesStored(rs, c, blocks, ps, big, op, descs, data)
    ensures ReadAt(rs, c, big, at, op, pfn) == if Dumpable(blocks, ps, pfn) then Some(DataOf(blocks, ps, pfn)) else None
  {
    BitAtIs(rs, at, len, done, pfn);
    if Dumpable(blocks, ps, pfn) {
      BitRankIs(rs, blocks, ps, at, len, done, pfn);
      PageRank(blocks, ps, pfn, MaxMapnr(blocks, ps));
      RankReads(rs, c, big, blocks, ps, op, descs, data, BitRank(rs, at, pfn));
    }
  }

  /** With a header that gives the right offsets the reader finds every page. */
  lemma PageReads(rs: seq<Record>, cls: Class, c: Codec, big: bool, blocks: seq<Block>, ps: nat, z: Sizes, ob: nat,
                  len: nat, op: nat, done: set<nat>, descs: seq<Desc>, data: seq<byte>, pfn: nat)
    requires Sorted(blocks, ps) && PageSize(ps) && Inverts(c) && pfn < MaxMapnr(blocks, ps) <= 8 * len < 0x4_0000_0000
    requires op < TWO32
    requires ReadSizes(rs, cls, big) == Some(z) && SecondBitmap(z) == ob + len && FirstDesc(z) == op
    requires BitmapBits(z) == 8 * len
    requires Complete(rs, blocks, ps, ob, len, done) && PagesStored(rs, c, blocks, ps, big, op, descs, data)
    ensures ReadPage(rs, cls, c, big, pfn) == if Dumpable(blocks, ps, pfn) then Some(DataOf(blocks, ps, pfn)) else None
  {
    ReadAtIs(rs, c, big, blocks, ps, ob + len, len, op, done, descs, data, pfn);
  }

  /** The parts of the header that the model does not look into. */
  datatype Texts = Texts(head: seq<byte>, tail: seq<byte>, sub: seq<byte>, note: seq<byte>)

  predicate Proper(t: Texts, cls: Class) {
    Known(cls) && |t.head| == cls.sizes && t.head[..8] == SIGNATURE && |t.tail| == 24 && |t.sub| == cls.subHeader
  }

  /** Header, sub header and notes are in the file. */
  ghost predicate HeaderStored(rs: seq<Record>, t: Texts, cls: Class, big: bool, len: nat, ps: nat)
    requires ps > 0
  {
    && Stored(rs, 0, HeaderBytes(t.head, ps, SubHdrSize(cls, |t.note|, ps), U32(BitmapBlocks(len, ps)), t.tail, big))
    && Stored(rs, ps, t.sub) && Stored(rs, ps + |t.sub|, t.note)
  }

  lemma HeaderKept(rs: seq<Record>, rs': seq<Record>, t: Texts, cls: Class, big: bool, len: nat, ps: nat, lo: int,
                   hi: int)
    requires PageSize(ps) && Proper(t, cls) && HeaderStored(rs, t, cls, big, len, ps)
    requires SameOutside(rs, rs', lo, hi) && ps + |t.sub| + |t.note| <= lo
    ensures HeaderStored(rs', t, cls, big, len, ps)
  {
    StoredKept(rs, rs', 0,
               HeaderBytes(t.head, ps, SubHdrSize(cls, |t.note|, ps), U32(BitmapBlocks(len, ps)), t.tail, big), lo, hi);
    StoredKept(rs, rs', ps, t.sub, lo, hi);
    StoredKept(rs, rs', ps + |t.sub|, t.note, lo, hi);
  }

  lemma {:induction false} SubHdrBound(cls: Class, noteSize: nat, ps: nat)
    requires PageSize(ps)
    ensures SubHdrSize(cls, noteSize, ps) < TWO32
  {
    var x := U32(U32(cls.subHeader + noteSize) + ps - 1);
    AddrPage(x, ps);
    AddrBounds(Page(x, ps), ps);
  }

  lemma SignatureReads(rs: seq<Record>, head: seq<byte>, s: seq<byte>)
    requires Stored(rs, 0, s) && |head| >= 8 && head <= s && head[..8] == SIGNATURE
    ensures Signed(rs)
  {
    StoredPart(rs, 0, s, 0, 8);
    assert s[0..8] == SIGNATURE;
    SliceStored(rs, 0, SIGNATURE);
  }

  lemma SizesRead(rs: seq<Record>, t: Texts, cls: Class, big: bool, len: nat, ps: nat)
    requires PageSize(ps) && Proper(t, cls)
    requires Stored(rs, 0,
                    HeaderBytes(t.head, ps, SubHdrSize(cls, |t.note|, ps), U32(BitmapBlocks(len, ps)), t.tail, big))
    ensures ReadSizes(rs, cls, big) == Some(Sizes(ps, SubHdrSize(cls, |t.note|, ps), U32(BitmapBlocks(len, ps))))
  {
    SubHdrBound(cls, |t.note|, ps);
    var s := HeaderBytes(t.head, ps, SubHdrSize(cls, |t.note|, ps), U32(BitmapBlocks(len, ps)), t.tail, big);
    SignatureReads(rs, t.head, s);
    HeaderReads(rs, t.head, ps, SubHdrSize(cls, |t.note|, ps), U32(BitmapBlocks(len, ps)), t.tail, big);
  }

  /** create_header32 and create_header64 */
  method CreateHeader(fd: File, t: Texts, cls: Class, big: bool, len: nat, ps: nat)
    returns (offsetDumpBitmap: nat, offsetPage: nat)
    requires PageSize(ps) && Proper(t, cls)
    modifies fd
    ensures HeaderStored(fd.records, t, cls, big, len, ps)
    ensures SameOutside(old(fd.records), fd.records, 0, ps + |t.sub| + |t.note|)
    ensures offsetDumpBitmap == OffsetDumpBitmap(cls, |t.note|, ps) && offsetPage == OffsetPage(cls, |t.note|, len, ps)
  {
    var subHdrSize := SubHdrSize(cls, |t.note|, ps);
    var bitmapBlocks := U32(BitmapBlocks(len, ps));
    var dh := HeaderBytes(t.head, ps, subHdrSize, bitmapBlocks, t.tail, big);
    fd.WriteBuffer(0, dh);
    ghost var rs := fd.records;
    fd.WriteBuffer(ps, t.sub);
    StoredKept(rs, fd.records, 0, dh, ps, ps + |t.sub|);
    rs := fd.records;
    fd.WriteBuffer(ps + |t.sub|, t.note);
    StoredKept(rs, fd.records, 0, dh, ps + |t.sub|, ps + |t.sub| + |t.note|);
    StoredKept(rs, fd.records, ps, t.sub, ps + |t.sub|, ps + |t.sub| + |t.note|);
    offsetDumpBitmap := U32(Addr(U32(1 + subHdrSize), ps));
    offsetPage := U32(Addr(U32(1 + subHdrSize + bitmapBlocks), ps));
  }

  lemma CompleteKept(rs: seq<Record>, rs': seq<Record>, blocks: seq<Block>, ps: nat, at: nat, len: nat, done: set<nat>,
                     lo: nat, hi: nat)
    requires Sorted(blocks, ps) && Complete(rs, blocks, ps, at, len, done) && SameOutside(rs, rs', lo, hi)
    requires at + 2 * len <= lo
    ensures Complete(rs', blocks, ps, at, len, done)
  {
    SyncedKept(rs, rs', at, len, done, lo, hi);
    SyncedKept(rs, rs', at + len, len, done, lo, hi);
  }

  /** Both bitmaps have the bit of a page number set exactly when it is a page of guest memory. */
  ghost predicate BitmapsRight(rs: seq<Record>, blocks: seq<Block>, ps: nat, ob: nat, len: nat) {
    forall pfn: nat | pfn < 8 * len ::
      && (BitAt(rs, ob, pfn) <==> Dumpable(blocks, ps, pfn))
      && (BitAt(rs, ob + len, pfn) <==> Dumpable(blocks, ps, pfn))
  }

  lemma CompleteIsRight(rs: seq<Record>, blocks: seq<Block>, ps: nat, ob: nat, len: nat, done: set<nat>)
    requires Sorted(blocks, ps) && Complete(rs, blocks, ps, ob, len, done)
    ensures BitmapsRight(rs, blocks, ps, ob, len)
  {
    forall pfn: nat | pfn < 8 * len
      ensures BitAt(rs, ob, pfn) <==> Dumpable(blocks, ps, pfn)
      ensures BitAt(rs, ob + len, pfn) <==> Dumpable(blocks, ps, pfn)
    {
      BitAtIs(rs, ob, len, done, pfn);
      BitAtIs(rs, ob + len, len, done, pfn);
      if Dumpable(blocks, ps, pfn) {
        BelowMax(blocks, ps, pfn);
      }
    }
  }

  /** If the regions are apart, no writer touches what another has written, and every page can be read. */
  lemma RoundTrip(rs1: seq<Record>, rs2: seq<Record>, rs3: seq<Record>, t: Texts, cls: Class, c: Codec, big: bool,
                  blocks: seq<Block>, ps: nat, done: set<nat>, descs: seq<Desc>, data: seq<byte>)
    requires Sorted(blocks, ps) && PageSize(ps) && Proper(t, cls) && Inverts(c)
    requires var len := BitmapLen(MaxMapnr(blocks, ps), ps);
             var ob, op := OffsetDumpBitmap(cls, |t.note|, ps), OffsetPage(cls, |t.note|, len, ps);
             && Fits(cls, |t.note|, len, ps)
             && HeaderStored(rs1, t, cls, big, len, ps)
             && SameOutside(rs1, rs2, ob, ob + 2 * len) && Complete(rs2, blocks, ps, ob, len, done)
             && SameOutside(rs2, rs3, op, op + 24 * |descs| + |data|)
             && PagesStored(rs3, c, blocks, ps, big, op, descs, data)
    ensures HeaderStored(rs3, t, cls, big, BitmapLen(MaxMapnr(blocks, ps), ps), ps)
    ensures var len := BitmapLen(MaxMapnr(blocks, ps), ps); BitmapsRight(rs3, blocks, ps,
        OffsetDumpBitmap(cls, |t.note|, ps), len)
    ensures Readable(rs3, cls, c, big, blocks, ps)
  {
    var n := MaxMapnr(blocks, ps);
    var len := BitmapLen(n, ps);
    var ob, op := OffsetDumpBitmap(cls, |t.note|, ps), OffsetPage(cls, |t.note|, len, ps);
    LenAligned(n, ps);
    LayoutRight(cls, |t.note|, len, ps);
    BitmapsFill(cls, |t.note|, len, ps);
    HeaderKept(rs1, rs2, t, cls, big, len, ps, ob, ob + 2 * len);
    HeaderKept(rs2, rs3, t, cls, big, len, ps, op, op + 24 * |descs| + |data|);
    CompleteKept(rs2, rs3, blocks, ps, ob, len, done, op, op + 24 * |descs| + |data|);
    CompleteIsRight(rs3, blocks, ps, ob, len, done);
    SizesRead(rs3, t, cls, big, len, ps);
    SamePlaces(cls, |t.note|, n, ps);
    var z := Sizes(ps, SubHdrSize(cls, |t.note|, ps), U32(BitmapBlocks(len, ps)));
    AllRead(rs3, cls, c, big, blocks, ps, z, ob, len, op, done, descs, data);
  }

  /** And the page numbers past guest memory are not there. */
  lemma AllRead(rs: seq<Record>, cls: Class, c: Codec, big: bool, blocks: seq<Block>, ps: nat, z: Sizes, ob: nat,
                len: nat, op: nat, done: set<nat>, descs: seq<Desc>, data: seq<byte>)
    requires Sorted(blocks, ps) && PageSize(ps) && Inverts(c) && MaxMapnr(blocks, ps) <= 8 * len < 0x4_0000_0000
    requires op < TWO32
    requires ReadSizes(rs, cls, big) == Some(z) && SecondBitmap(z) == ob + len && FirstDesc(z) == op
    requires BitmapBits(z) == 8 * len
    requires Complete(rs, blocks, ps, ob, len, done) && PagesStored(rs, c, blocks, ps, big, op, descs, data)
    requires BitmapsRight(rs, blocks, ps, ob, len)
    ensures Readable(rs, cls, c, big, blocks, ps)
  {
    forall pfn: nat
      ensures !Dumpable(blocks, ps, pfn) ==> ReadPage(rs, cls, c, big, pfn) == None
      ensures Dumpable(blocks, ps, pfn) ==> ReadPage(rs, cls, c, big, pfn) == Some(DataOf(blocks, ps, pfn))
    {
      if Dumpable(blocks, ps, pfn) {
        BelowMax(blocks, ps, pfn);
      }
      if pfn < MaxMapnr(blocks, ps) {
        PageReads(rs, cls, c, big, blocks, ps, z, ob, len, op, done, descs, data, pfn);
      } else {
        PastMemory(rs, cls, c, big, blocks, ps, z, ob, len, pfn);
      }
    }
  }

  lemma PastMemory(rs: seq<Record>, cls: Class, c: Codec, big: bool, blocks: seq<Block>, ps: nat, z: Sizes, ob: nat,
                   len: nat, pfn: nat)
    requires ReadSizes(rs, cls, big) == Some(z) && SecondBitmap(z) == ob + len && BitmapBits(z) == 8 * len
    requires BitmapsRight(rs, blocks, ps, ob, len) && !Dumpable(blocks, ps, pfn)
    ensures ReadPage(rs, cls, c, big, pfn) == None
  {
  }

  // Where the layout overlaps.

  /** The file ends before offset lo. */
  ghost predicate EndsBefore(rs: seq<Record>, lo: int) {
    forall x | x >= lo :: ByteAt(rs, x) == None
  }

  lemma StillEnds(rs: seq<Record>, rs': seq<Record>, end: int, lo: int, hi: int)
    requires EndsBefore(rs, end) && SameOutside(rs, rs', lo, hi) && hi <= end
    ensures EndsBefore(rs', end)
  {
    forall x | x >= end
      ensures ByteAt(rs', x) == None
    {
      assert ByteAt(rs', x) == ByteAt(rs, x);
    }
  }

  /** There is no descriptor past the end of the file. */
  lemma NoDesc(rs: seq<Record>, c: Codec, big: bool, op: nat, k: nat)
    requires EndsBefore(rs, op)
    ensures ReadDesc(rs, c, big, op, k) == None
  {
    assert !PresentAt(rs, op + 24 * k, 0);
  }

  /** The most significant byte of a number that does not need it. */
  lemma {:induction false} TopByte(x: nat, width: nat, big: bool)
    requires width > 0 && x < Pow256(width - 1)
    ensures Bytes(x, width, big)[if big then 0 else width - 1] == 0
  {
    if width > 1 {
      TopByte(x / 256, width - 1, big);
    }
  }

  /** A descriptor written over the signature is not the signature. */
  lemma NotSigned(rs: seq<Record>, big: bool, descs: seq<Desc>)
    requires descs != [] && Stored(rs, 0, Flat(descs, big)) && descs[0].offset < 0x100_0000_0000_0000
    ensures !Signed(rs)
  {
    var d, s := descs[0], Encode(descs[0], big);
    DescSlice(rs, big, 0, descs, 0);
    Pow256Of7();
    TopByte(d.offset, 8, big);
    var i := if big then 0 else 7;
    assert s[i] == Bytes(d.offset, 8, big)[i] == 0 && SIGNATURE[i] != 0;
    if Signed(rs) {
      FirstBytes(rs, s, i);
      assert false;
    }
  }

  lemma Pow256Of7()
    ensures Pow256(7) == 0x100_0000_0000_0000
  {
    Pow256Of8();
  }

  lemma FirstBytes(rs: seq<Record>, s: seq<byte>, i: nat)
    requires Slice(rs, 0, 24) == Some(s) && i < 8 && Signed(rs)
    ensures s[i] == SIGNATURE[i]
  {
    assert PresentAt(rs, 0, i);
    assert s[i] == Slice(rs, 0, 24).value[i] == ByteAt(rs, 0 + i).value;
    assert SIGNATURE[i] == Slice(rs, 0, 8).value[i] == ByteAt(rs, 0 + i).value;
  }

  /** Guest memory has a page, and with its descriptors it takes at most 4 GiB of the file. */
  ghost predicate Sparse(blocks: seq<Block>, ps: nat)
    requires Sorted(blocks, ps)
  {
    var n := |Pages(blocks, ps, MaxMapnr(blocks, ps))|;
    0 < n && 24 * n + Addr(n + 1, ps) <= TWO32
  }

  /** The page data starts at the header: its first descriptor destroys the signature. */
  lemma OverHeader(rs: seq<Record>, cls: Class, c: Codec, big: bool, blocks: seq<Block>, ps: nat, descs: seq<Desc>,
                   data: seq<byte>, pfn: nat)
    requires Sorted(blocks, ps) && Sparse(blocks, ps) && PagesStored(rs, c, blocks, ps, big, 0, descs, data)
    ensures ReadPage(rs, cls, c, big, pfn) == None
  {
    var pages := Pages(blocks, ps, MaxMapnr(blocks, ps));
    DescribedAt(c, descs, 24 * |descs|, data, pages, 0);
    NotSigned(rs, big, descs);
  }

  /** The header is intact and sends the reader past the end of the file. */
  lemma PastEnd(rs: seq<Record>, t: Texts, cls: Class, c: Codec, big: bool, len: nat, ps: nat, pfn: nat)
    requires PageSize(ps) && Proper(t, cls) && Countable(cls, |t.note|, len, ps)
    requires Stored(rs, 0,
                    HeaderBytes(t.head, ps, SubHdrSize(cls, |t.note|, ps), U32(BitmapBlocks(len, ps)), t.tail, big))
    requires EndsBefore(rs, PageOffset(cls, |t.note|, len, ps))
    ensures ReadPage(rs, cls, c, big, pfn) == None
  {
    SizesRead(rs, t, cls, big, len, ps);
    HeaderRight(cls, |t.note|, ps);
    var z := Sizes(ps, SubBlocks(cls, |t.note|, ps), BitmapBlocks(len, ps));
    assert ReadSizes(rs, cls, big) == Some(z) && FirstDesc(z) == PageOffset(cls, |t.note|, len, ps);
    NoDesc(rs, c, big, FirstDesc(z), BitRank(rs, SecondBitmap(z), pfn));
  }

  /** What the three writers have left where the layout does not fit. */
  ghost predicate Overlapped(rs1: seq<Record>, rs2: seq<Record>, rs3: seq<Record>, t: Texts, cls: Class, c: Codec,
                             big: bool, blocks: seq<Block>, ps: nat, descs: seq<Desc>, data: seq<byte>)
    requires Sorted(blocks, ps) && ps > 0
  {
    var len := BitmapLen(MaxMapnr(blocks, ps), ps);
    var ob, op := OffsetDumpBitmap(cls, |t.note|, ps), OffsetPage(cls, |t.note|, len, ps);
    && Countable(cls, |t.note|, len, ps) && !Fits(cls, |t.note|, len, ps)
    && HeaderStored(rs1, t, cls, big, len, ps) && EndsBefore(rs1, ps + |t.sub| + |t.note|)
    && SameOutside(rs1, rs2, ob, ob + 2 * len)
    && SameOutside(rs2, rs3, op, op + 24 * |descs| + |data|) && PagesStored(rs3, c, blocks, ps, big, op, descs, data)
  }

  /** Then no page of such a guest can be read. */
  lemma NothingReads(rs1: seq<Record>, rs2: seq<Record>, rs3: seq<Record>, t: Texts, cls: Class, c: Codec, big: bool,
                     blocks: seq<Block>, ps: nat, descs: seq<Desc>, data: seq<byte>, pfn: nat)
    requires Sorted(blocks, ps) && PageSize(ps) && Offset(TWO32, ps) == 0 && Proper(t, cls) && Sparse(blocks, ps)
    requires Overlapped(rs1, rs2, rs3, t, cls, c, big, blocks, ps, descs, data)
    ensures ReadPage(rs3, cls, c, big, pfn) == None
  {
    var n := MaxMapnr(blocks, ps);
    var len := BitmapLen(n, ps);
    var ob, op, end := OffsetDumpBitmap(cls, |t.note|, ps), OffsetPage(cls, |t.note|, len, ps), PageOffset(cls,
        |t.note|, len, ps);
    LenAligned(n, ps);
    HeaderRight(cls, |t.note|, ps);
    BitmapsFill(cls, |t.note|, len, ps);
    WrappedOffset(cls, |t.note|, len, ps);
    if op == 0 {
      OverHeader(rs3, cls, c, big, blocks, ps, descs, data, pfn);
    } else {
      StillEnds(rs1, rs2, end, ob, ob + 2 * len);
      StillEnds(rs2, rs3, end, op, op + 24 * |descs| + |data|);
      var s := HeaderBytes(t.head, ps, SubHdrSize(cls, |t.note|, ps), U32(BitmapBlocks(len, ps)), t.tail, big);
      StoredKept(rs1, rs2, 0, s, ob, ob + 2 * len);
      StoredKept(rs2, rs3, 0, s, op, op + 24 * |descs| + |data|);
      PastEnd(rs3, t, cls, c, big, len, ps, pfn);
    }
  }

  /** A guest with a page that cannot be read is not readable. */
  lemma NotReadable(rs: seq<Record>, cls: Class, c: Codec, big: bool, blocks: seq<Block>, ps: nat)
    requires Sorted(blocks, ps) && Sparse(blocks, ps) && forall pfn: nat :: ReadPage(rs, cls, c, big, pfn) == None
    ensures !Readable(rs, cls, c, big, blocks, ps)
  {
    var pfn := SomePage(blocks, ps, MaxMapnr(blocks, ps));
    assert Dumpable(blocks, ps, pfn);
  }

  lemma {:induction false} SomePage(blocks: seq<Block>, ps: nat, n: nat) returns (pfn: nat)
    requires Sorted(blocks, ps) && Pages(blocks, ps, n) != []
    ensures Dumpable(blocks, ps, pfn)
  {
    if Dumpable(blocks, ps, n - 1) {
      pfn := n - 1;
    } else {
      pfn := SomePage(blocks, ps, n - 1);
    }
  }

  /** Whether every page is readable is decided by the layout alone. */
  ghost predicate Decided(cls: Class, noteSize: nat, blocks: seq<Block>, ps: nat)
    requires Sorted(blocks, ps) && ps > 0
  {
    Offset(TWO32, ps) == 0 && Countable(cls, noteSize, BitmapLen(MaxMapnr(blocks, ps), ps), ps) && Sparse(blocks, ps)
  }

  lemma Unreadable(rs1: seq<Record>, rs2: seq<Record>, rs3: seq<Record>, t: Texts, cls: Class, c: Codec, big: bool,
                   blocks: seq<Block>, ps: nat, descs: seq<Desc>, data: seq<byte>)
    requires Sorted(blocks, ps) && PageSize(ps) && Proper(t, cls) && Decided(cls, |t.note|, blocks, ps)
    requires Overlapped(rs1, rs2, rs3, t, cls, c, big, blocks, ps, descs, data)
    ensures !Readable(rs3, cls, c, big, blocks, ps)
  {
    forall pfn: nat
      ensures ReadPage(rs3, cls, c, big, pfn) == None
    {
      NothingReads(rs1, rs2, rs3, t, cls, c, big, blocks, ps, descs, data, pfn);
    }
    NotReadable(rs3, cls, c, big, blocks, ps);
  }

  /**
    create_kdump_vmcore.  Reading the file gives guest memory back, page by page,
    whenever the part before the page data is below 4 GiB; and where guest memory
    itself takes at most 4 GiB of the file, only then.
   */
  method CreateKdumpVmcore(t: Texts, cls: Class, c: Codec, big: bool, blocks: seq<Block>, ps: nat) returns (fd: File)
    requires Sorted(blocks, ps) && PageSize(ps) && Proper(t, cls) && Inverts(c)
    ensures var len := BitmapLen(MaxMapnr(blocks, ps), ps);
            Fits(cls, |t.note|, len, ps) ==>
              && HeaderStored(fd.records, t, cls, big, len, ps)
              && BitmapsRight(fd.records, blocks, ps, OffsetDumpBitmap(cls, |t.note|, ps), len)
              && Readable(fd.records, cls, c, big, blocks, ps)
    ensures Decided(cls, |t.note|, blocks, ps) ==>
              (Readable(fd.records, cls, c, big, blocks, ps) <==>
                 Fits(cls, |t.note|, BitmapLen(MaxMapnr(blocks, ps), ps), ps))
  {
    fd := new File();
    var maxMapnr := MaxMapnr(blocks, ps);
    var len := BitmapLen(maxMapnr, ps);
    var offsetDumpBitmap, offsetPage := CreateHeader(fd, t, cls, big, len, ps);
    ghost var rs1 := fd.records;
    var numDumpable, done := WriteDumpBitmap(fd, blocks, ps, offsetDumpBitmap, len);
    ghost var rs2 := fd.records;
    var descs, data := WriteDumpPages(fd, c, blocks, ps, big, offsetPage, numDumpable);
    if Fits(cls, |t.note|, len, ps) {
      RoundTrip(rs1, rs2, fd.records, t, cls, c, big, blocks, ps, done, descs, data);
    } else if Decided(cls, |t.note|, blocks, ps) {
      StillEnds([], rs1, ps + |t.sub| + |t.note|, 0, ps + |t.sub| + |t.note|);
      Unreadable(rs1, rs2, fd.records, t, cls, c, big, blocks, ps, descs, data);
    }
  }

  /** A guest with one page of memory, at 64 TiB. */
  function LonePage(far: nat, ps: nat): seq<Block> {
    [Block(Addr(far, ps), Addr(far, ps) + ps, ZeroPage(ps))]
  }

  lemma LoneIs(far: nat, ps: nat)
    requires PageSize(ps) && far < 0x100_0000_0000
    ensures Sorted(LonePage(far, ps), ps) && MaxMapnr(LonePage(far, ps), ps) == far + 1
    ensures forall pfn: nat :: Dumpable(LonePage(far, ps), ps, pfn) <==> pfn == far
  {
    PageAddr(far, ps, 0);
    PageAddr(far + 1, ps, 0);
    AddrBounds(far, ps);
    forall pfn: nat
      ensures InBlock(LonePage(far, ps)[0], ps, pfn) <==> pfn == far
    {
      AddrMono(pfn, far, ps);
      AddrMono(far, pfn, ps);
    }
  }

  lemma {:induction false} LoneCount(far: nat, ps: nat, n: nat)
    requires Sorted(LonePage(far, ps), ps) && forall pfn: nat :: Dumpable(LonePage(far, ps), ps, pfn) <==> pfn == far
    ensures |Pages(LonePage(far, ps), ps, n)| == if n > far then 1 else 0
  {
    if n > 0 {
      LoneCount(far, ps, n - 1);
    }
  }

  lemma BlocksBound(x: nat, ps: nat)
    requires ps == 4096
    ensures DivRoundUp(x, ps) <= x / 4096 + 1
  {
    PageIsDiv(x + ps - 1, ps);
  }

  /** Its page is lost: such guests exist. */
  lemma LonePageLost(cls: Class, noteSize: nat, far: nat, ps: nat)
    requires Known(cls) && noteSize <= 0x1000_0000 && far == 0x4_0000_0000 && ps == 4096
    ensures var blocks := LonePage(far, ps);
            && Sorted(blocks, ps) && Decided(cls, noteSize, blocks, ps)
            && !Fits(cls, noteSize, BitmapLen(MaxMapnr(blocks, ps), ps), ps)
  {
    var blocks, len := LonePage(far, ps), BitmapLen(far + 1, ps);
    LoneIs(far, ps);
    LoneCount(far, ps, far + 1);
    assert Addr(2, ps) == Addr(1, ps) + ps && Addr(1, ps) == Addr(0, ps) + ps;
    PageIsDiv(TWO32, ps);
    HugeGuestOverlaps(cls, noteSize, far + 1, ps);
    LenAligned(far + 1, ps);
    LayoutIff(cls, noteSize, len, ps);
    LoneCountable(cls, noteSize, far, len, ps);
  }

  lemma LoneCountable(cls: Class, noteSize: nat, far: nat, len: nat, ps: nat)
    requires Known(cls) && noteSize <= 0x1000_0000 && far == 0x4_0000_0000 && ps == 4096
    requires len == BitmapLen(far + 1, ps)
    ensures Countable(cls, noteSize, len, ps)
  {
    BlocksBound(cls.subHeader + noteSize, ps);
    PageIsDiv(far + 8, 8);
    RoundUp(DivRoundUp(far + 1, 8), ps);
    BlocksBound(len, ps);
    AddrIsMul(1 + SubBlocks(cls, noteSize, ps), ps);
  }
}
