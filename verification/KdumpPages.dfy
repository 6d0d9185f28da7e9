/** The page descriptors and page data of a kdump file, written through two caches (qemu/dump.c). */
module KdumpPages {
  import opened Basics
  import opened Arith
  import opened Vmcore
  import opened GuestMemory

  /** PageDescriptor, 24 bytes in the file. */
  datatype Desc = Desc(offset: nat, size: nat, flags: nat, pageFlags: nat)

  function Encode(d: Desc, big: bool): (s: seq<byte>)
    ensures |s| == 24
  {
    Bytes(d.offset, 8, big) + Bytes(d.size, 4, big) + Bytes(d.flags, 4, big) + Bytes(d.pageFlags, 8, big)
  }

  function Decode(s: seq<byte>, big: bool): Desc
    requires |s| == 24
  {
    Desc(Number(s[..8], big), Number(s[8..12], big), Number(s[12..16], big), Number(s[16..], big))
  }

  predicate Encodable(d: Desc) {
    d.offset < TWO64 && d.size < TWO32 && d.flags < TWO32 && d.pageFlags < TWO64
  }

  lemma DecodeEncode(d: Desc, big: bool)
    requires Encodable(d)
    ensures Decode(Encode(d, big), big) == d
  {
    Fields(Bytes(d.offset, 8, big), Bytes(d.size, 4, big), Bytes(d.flags, 4, big), Bytes(d.pageFlags, 8, big));
    LongReads(d.offset, big);
    WordReads(d.size, big);
    WordReads(d.flags, big);
    LongReads(d.pageFlags, big);
  }

  /** Four fields one after the other. */
  lemma Fields(a: seq<byte>, b: seq<byte>, c: seq<byte>, d: seq<byte>)
    requires |a| == 8 && |b| == 4 && |c| == 4 && |d| == 8
    ensures var s := a + b + c + d; |s| == 24 && s[..8] == a && s[8..12] == b && s[12..16] == c && s[16..] == d
  {
  }

  lemma WordReads(x: nat, big: bool)
    requires x < TWO32
    ensures Number(Bytes(x, 4, big), big) == x
  {
    Pow256Of4();
    NumberBytes(x, 4, big);
  }

  lemma LongReads(x: nat, big: bool)
    requires x < TWO64
    ensures Number(Bytes(x, 8, big), big) == x
  {
    Pow256Of8();
    NumberBytes(x, 8, big);
  }

  /** The descriptors as they lie in the file. */
  function Flat(ds: seq<Desc>, big: bool): (s: seq<byte>)
    ensures |s| == 24 * |ds|
  {
    if ds == [] then [] else Flat(ds[..|ds| - 1], big) + Encode(ds[|ds| - 1], big)
  }

  lemma FlatMore(ds: seq<Desc>, d: Desc, big: bool)
    ensures Flat(ds + [d], big) == Flat(ds, big) + Encode(d, big)
  {
    assert (ds + [d])[..|ds|] == ds;
  }

  lemma {:induction false} FlatAt(ds: seq<Desc>, big: bool, k: nat)
    requires k < |ds|
    ensures Flat(ds, big)[24 * k..24 * k + 24] == Encode(ds[k], big)
  {
    var n := |ds| - 1;
    var s := Flat(ds[..n], big);
    if k < n {
      FlatAt(ds[..n], big, k);
      assert Flat(ds, big)[..|s|] == s;
      assert Flat(ds, big)[24 * k..24 * k + 24] == s[24 * k..24 * k + 24];
    }
  }

  /**
    The library behind flag_compress: compress may fail, and decompress undoes
    what it returns.  flag is DUMP_DH_COMPRESSED_ZLIB, _LZO or _SNAPPY.
   */
  datatype Codec = Codec(compress: seq<byte> -> Option<seq<byte>>, decompress: seq<byte> -> seq<byte>, flag: nat)

  ghost predicate Inverts(c: Codec) {
    && (c.flag == 1 || c.flag == 2 || c.flag == 4)
    && forall page :: c.compress(page).Some? ==> c.decompress(c.compress(page).value) == page
  }

  /** A page from its bytes in the file. */
  function Plain(c: Codec, flags: nat, raw: seq<byte>): seq<byte> {
    if flags == 0 then raw else c.decompress(raw)
  }

  predicate AllZero(page: seq<byte>) {
    page == [] || (page[|page| - 1] == 0 && AllZero(page[..|page| - 1]))
  }

  lemma {:induction false} AllZeroIs(page: seq<byte>)
    ensures AllZero(page) <==> forall i | 0 <= i < |page| :: page[i] == 0
  {
    if page != [] {
      AllZeroIs(page[..|page| - 1]);
    }
  }

  /** Two pages of zeros are the same. */
  lemma SameZeros(page: seq<byte>, other: seq<byte>)
    requires AllZero(page) && AllZero(other) && |page| == |other|
    ensures page == other
  {
    AllZeroIs(page);
    AllZeroIs(other);
  }

  function ZeroPage(ps: nat): (s: seq<byte>)
    ensures |s| == ps
  {
    seq(ps, _ => 0)
  }

  lemma ZeroPageIs(ps: nat)
    ensures AllZero(ZeroPage(ps))
  {
    AllZeroIs(ZeroPage(ps));
  }

  /**
    The descriptor locates bytes of data, which starts at offset base, that stand
    for the page; all pages of zeros share the first bytes.
   */
  ghost predicate Describes(c: Codec, d: Desc, base: nat, data: seq<byte>, page: seq<byte>) {
    && base <= d.offset && d.offset - base + d.size <= |data|
    && d.size <= |page| && (d.flags == 0 || d.flags == c.flag) && d.pageFlags == 0
    && Plain(c, d.flags, data[d.offset - base..d.offset - base + d.size]) == page
    && (AllZero(page) ==> d == Desc(base, |page|, 0, 0))
  }

  ghost predicate AllDescribed(c: Codec, descs: seq<Desc>, base: nat, data: seq<byte>, pages: seq<seq<byte>>) {
    if descs == [] || pages == [] then descs == [] && pages == []
    else
      var m, n := |descs| - 1, |pages| - 1;
      Describes(c, descs[m], base, data, pages[n]) && AllDescribed(c, descs[..m], base, data, pages[..n])
  }

  lemma {:induction false} DescribedLength(c: Codec, descs: seq<Desc>, base: nat, data: seq<byte>,
                                           pages: seq<seq<byte>>)
    requires AllDescribed(c, descs, base, data, pages)
    ensures |descs| == |pages|
  {
    if descs != [] {
      DescribedLength(c, descs[..|descs| - 1], base, data, pages[..|pages| - 1]);
    }
  }

  lemma {:induction false} DescribedAt(c: Codec, descs: seq<Desc>, base: nat, data: seq<byte>, pages: seq<seq<byte>>,
                                       k: nat)
    requires AllDescribed(c, descs, base, data, pages) && k < |descs|
    ensures |descs| == |pages| && Describes(c, descs[k], base, data, pages[k])
  {
    DescribedLength(c, descs, base, data, pages);
    var n := |descs| - 1;
    if k < n {
      var ds, ps := descs[..n], pages[..n];
      DescribedAt(c, ds, base, data, ps, k);
      assert ds[k] == descs[k] && ps[k] == pages[k];
    }
  }

  lemma DescribesMore(c: Codec, d: Desc, base: nat, data: seq<byte>, page: seq<byte>, more: seq<byte>)
    requires Describes(c, d, base, data, page)
    ensures Describes(c, d, base, data + more, page)
  {
    var lo, hi := d.offset - base, d.offset - base + d.size;
    assert (data + more)[lo..hi] == data[lo..hi];
  }

  lemma {:induction false} AllDescribedMore(c: Codec, descs: seq<Desc>, base: nat, data: seq<byte>,
                                            pages: seq<seq<byte>>, more: seq<byte>)
    requires AllDescribed(c, descs, base, data, pages)
    ensures AllDescribed(c, descs, base, data + more, pages)
  {
    if descs != [] {
      var m, n := |descs| - 1, |pages| - 1;
      DescribesMore(c, descs[m], base, data, pages[n], more);
      AllDescribedMore(c, descs[..m], base, data, pages[..n], more);
    }
  }

  /** The two caches of write_dump_pages and what has gone through them. */
  ghost predicate Caching(desc: DataCache, data: DataCache, fd: File, ps: nat, big: bool, descs: seq<Desc>)
    reads desc, desc.buf, data, data.buf, fd
  {
    && desc != data && desc.buf != data.buf && desc.fd == data.fd == fd
    && desc.buf.Length == data.buf.Length == 4 * ps
    && desc.Valid() && data.Valid()
    && desc.sent == Flat(descs, big) && desc.base + |desc.sent| <= data.base
  }

  /** Sending page data leaves the descriptors alone. */
  method SendData(desc: DataCache, data: DataCache, fd: File, ps: nat, bytes: seq<byte>, big: bool,
                  ghost descs: seq<Desc>, flagSync: bool)
    requires Caching(desc, data, fd, ps, big, descs) && |bytes| <= 4 * ps && (flagSync ==> bytes == [])
    modifies data, data.buf, fd
    ensures Caching(desc, data, fd, ps, big, descs) && data.sent == old(data.sent) + bytes
    ensures SameOutside(old(fd.records), fd.records, data.base, data.base + |data.sent|)
    ensures flagSync ==> Stored(fd.records, data.base, data.sent)
    ensures Stored(old(fd.records), desc.base, desc.sent) ==> Stored(fd.records, desc.base, desc.sent)
  {
    ghost var rs, lo := fd.records, data.offset;
    data.WriteCache(bytes, flagSync);
    StoredKept(rs, fd.records, desc.base, desc.sent[..desc.offset - desc.base], lo, data.offset);
    if Stored(rs, desc.base, desc.sent) {
      StoredKept(rs, fd.records, desc.base, desc.sent, lo, data.offset);
    }
  }

  /** Sending a descriptor leaves the page data alone. */
  method SendDesc(desc: DataCache, data: DataCache, fd: File, ps: nat, d: Desc, big: bool, ghost descs: seq<Desc>)
    requires Caching(desc, data, fd, ps, big, descs) && 24 <= 4 * ps
    requires desc.base + |desc.sent| + 24 <= data.base
    modifies desc, desc.buf, fd
    ensures Caching(desc, data, fd, ps, big, descs + [d])
    ensures SameOutside(old(fd.records), fd.records, desc.base, data.base)
  {
    ghost var rs, lo := fd.records, desc.offset;
    desc.WriteCache(Encode(d, big), false);
    FlatMore(descs, d, big);
    StoredKept(rs, fd.records, data.base, data.sent[..data.offset - data.base], lo, desc.offset);
  }

  method SyncDesc(desc: DataCache, data: DataCache, fd: File, ps: nat, big: bool, ghost descs: seq<Desc>)
    requires Caching(desc, data, fd, ps, big, descs)
    modifies desc, desc.buf, fd
    ensures Caching(desc, data, fd, ps, big, descs) && Stored(fd.records, desc.base, desc.sent)
    ensures SameOutside(old(fd.records), fd.records, desc.base, data.base)
  {
    ghost var rs, lo := fd.records, desc.offset;
    desc.WriteCache([], true);
    StoredKept(rs, fd.records, data.base, data.sent[..data.offset - data.base], lo, desc.offset);
  }

  /** is_zero_page */
  method IsZeroPage(page: seq<byte>) returns (zero: bool)
    ensures zero <==> AllZero(page)
  {
    var i := 0;
    while i < |page|
      invariant 0 <= i <= |page| && forall k | 0 <= k < i :: page[k] == 0
    {
      if page[i] != 0 {
        AllZeroIs(page);
        return false;
      }
      i := i + 1;
    }
    AllZeroIs(page);
    return true;
  }

  /** The data sent so far starts with the page that all zero pages share, and describes the given pages. */
  ghost predicate Sent(c: Codec, ps: nat, descs: seq<Desc>, base: nat, data: seq<byte>, pages: seq<seq<byte>>) {
    && ps <= |data| <= Addr(|pages| + 1, ps) && AllZero(data[..ps])
    && |descs| == |pages| && AllDescribed(c, descs, base, data, pages)
  }

  lemma SentFirst(c: Codec, ps: nat, base: nat, data: seq<byte>)
    requires data == [] + ZeroPage(ps)
    ensures |data| == ps && Sent(c, ps, [], base, data, [])
  {
    assert data == ZeroPage(ps);
    assert data[..ps] == data;
    ZeroPageIs(ps);
    assert Addr(1, ps) == Addr(0, ps) + ps;
  }

  lemma SentMore(c: Codec, ps: nat, descs: seq<Desc>, base: nat, data: seq<byte>, pages: seq<seq<byte>>,
                 more: seq<byte>, d: Desc, page: seq<byte>)
    requires Sent(c, ps, descs, base, data, pages) && |more| <= ps && Describes(c, d, base, data + more, page)
    ensures Sent(c, ps, descs + [d], base, data + more, pages + [page])
  {
    AllDescribedMore(c, descs, base, data, pages, more);
    assert (descs + [d])[..|descs|] == descs && (pages + [page])[..|pages|] == pages;
    assert (data + more)[..ps] == data[..ps];
  }

  lemma DescribesTail(c: Codec, base: nat, data: seq<byte>, more: seq<byte>, flags: nat, page: seq<byte>)
    requires |more| <= |page| && !AllZero(page) && (flags == 0 || flags == c.flag) && Plain(c, flags, more) == page
    ensures Describes(c, Desc(base + |data|, |more|, flags, 0), base, data + more, page)
  {
    assert (data + more)[|data|..|data| + |more|] == more;
  }

  /** What is stored for a page that is not zero, and its flags: compressed if that is shorter. */
  function Packed(c: Codec, page: seq<byte>): (r: (seq<byte>, nat))
    ensures |r.0| <= |page|
    ensures Inverts(c) ==> (r.1 == 0 || r.1 == c.flag) && Plain(c, r.1, r.0) == page
  {
    var out := c.compress(page);
    if out.Some? && |out.value| < |page| then (out.value, c.flag) else (page, 0)
  }

  /** Page data, and then the descriptor of the page. */
  method SendPage(desc: DataCache, data: DataCache, fd: File, ps: nat, bytes: seq<byte>, d: Desc, big: bool,
                  ghost descs: seq<Desc>)
    requires Caching(desc, data, fd, ps, big, descs) && 24 <= 4 * ps && |bytes| <= 4 * ps
    requires desc.base + |desc.sent| + 24 <= data.base
    modifies desc, desc.buf, data, data.buf, fd
    ensures Caching(desc, data, fd, ps, big, descs + [d]) && data.sent == old(data.sent) + bytes
    ensures SameOutside(old(fd.records), fd.records, desc.base, data.base + |data.sent|)
  {
    SendData(desc, data, fd, ps, bytes, big, descs, false);
    ghost var rs := fd.records;
    SendDesc(desc, data, fd, ps, d, big, descs);
    OutsideTrans(old(fd.records), rs, fd.records, data.base, data.base + |data.sent|, desc.base, data.base, desc.base,
                 data.base + |data.sent|);
  }

  /** What a page adds to the data and which descriptor it gets. */
  lemma PageSent(c: Codec, ps: nat, descs: seq<Desc>, base: nat, data: seq<byte>, pages: seq<seq<byte>>,
                 page: seq<byte>, bytes: seq<byte>, pd: Desc)
    requires Sent(c, ps, descs, base, data, pages) && Inverts(c) && |page| == ps && !AllZero(page)
    requires bytes == Packed(c, page).0 && pd == Desc(base + |data|, |bytes|, Packed(c, page).1, 0)
    ensures Sent(c, ps, descs + [pd], base, data + bytes, pages + [page])
  {
    DescribesTail(c, base, data, bytes, pd.flags, page);
    SentMore(c, ps, descs, base, data, pages, bytes, pd, page);
  }

  lemma ZeroSent(c: Codec, ps: nat, descs: seq<Desc>, base: nat, data: seq<byte>, pages: seq<seq<byte>>,
                 page: seq<byte>)
    requires Sent(c, ps, descs, base, data, pages) && |page| == ps && AllZero(page)
    ensures Sent(c, ps, descs + [Desc(base, ps, 0, 0)], base, data, pages + [page])
  {
    SameZeros(data[..ps], page);
    assert data + [] == data && data[0..ps] == page;
    SentMore(c, ps, descs, base, data, pages, [], Desc(base, ps, 0, 0), page);
  }

  /** The caches have sent descriptors and data for the given pages. */
  ghost predicate SentTo(desc: DataCache, data: DataCache, fd: File, c: Codec, ps: nat, big: bool, descs: seq<Desc>,
                         pages: seq<seq<byte>>)
    reads desc, desc.buf, data, data.buf, fd
  {
    Caching(desc, data, fd, ps, big, descs) && Sent(c, ps, descs, data.base, data.sent, pages)
  }

  /** A page of zeros. */
  method WriteZeroPage(desc: DataCache, data: DataCache, fd: File, c: Codec, ps: nat, big: bool, page: seq<byte>,
                       pdZero: Desc, ghost descs: seq<Desc>, ghost pages: seq<seq<byte>>)
    requires SentTo(desc, data, fd, c, ps, big, descs, pages) && 24 <= 4 * ps && |page| == ps && AllZero(page)
    requires desc.base + |desc.sent| + 24 <= data.base && pdZero == Desc(data.base, ps, 0, 0)
    modifies desc, desc.buf, fd
    ensures SentTo(desc, data, fd, c, ps, big, descs + [pdZero], pages + [page]) && data.sent == old(data.sent)
    ensures SameOutside(old(fd.records), fd.records, desc.base, data.base)
  {
    ZeroSent(c, ps, descs, data.base, data.sent, pages, page);
    SendDesc(desc, data, fd, ps, pdZero, big, descs);
  }

  /** Any other page. */
  method WriteOtherPage(desc: DataCache, data: DataCache, fd: File, c: Codec, ps: nat, big: bool, page: seq<byte>,
                        offsetData: nat, ghost descs: seq<Desc>, ghost pages: seq<seq<byte>>)
    returns (pd: Desc)
    requires SentTo(desc, data, fd, c, ps, big, descs, pages) && 24 <= 4 * ps && |page| == ps && !AllZero(page)
    requires Inverts(c)
    requires desc.base + |desc.sent| + 24 <= data.base && offsetData == data.base + |data.sent|
    modifies desc, desc.buf, data, data.buf, fd
    ensures SentTo(desc, data, fd, c, ps, big, descs + [pd], pages + [page])
    ensures |data.sent| == |old(data.sent)| + pd.size
    ensures SameOutside(old(fd.records), fd.records, desc.base, data.base + |data.sent|)
  {
    var packed := Packed(c, page);
    pd := Desc(offsetData, |packed.0|, packed.1, 0);
    PageSent(c, ps, descs, data.base, data.sent, pages, page, packed.0, pd);
    SendPage(desc, data, fd, ps, packed.0, pd, big, descs);
  }

  /** One turn of write_dump_pages. */
  method WritePage(desc: DataCache, data: DataCache, fd: File, c: Codec, ps: nat, big: bool, page: seq<byte>,
                   pdZero: Desc, offsetData: nat, ghost descs: seq<Desc>, ghost pages: seq<seq<byte>>)
    returns (offsetData': nat, ghost d: Desc)
    requires SentTo(desc, data, fd, c, ps, big, descs, pages) && Inverts(c)
    requires 24 <= 4 * ps && |page| == ps && desc.base + |desc.sent| + 24 <= data.base
    requires pdZero == Desc(data.base, ps, 0, 0) && offsetData == data.base + |data.sent|
    modifies desc, desc.buf, data, data.buf, fd
    ensures SentTo(desc, data, fd, c, ps, big, descs + [d], pages + [page])
    ensures offsetData <= offsetData' == data.base + |data.sent|
    ensures SameOutside(old(fd.records), fd.records, desc.base, data.base + |data.sent|)
  {
    var zero := IsZeroPage(page);
    if zero {
      WriteZeroPage(desc, data, fd, c, ps, big, page, pdZero, descs, pages);
      return offsetData, pdZero;
    }
    var pd := WriteOtherPage(desc, data, fd, c, ps, big, page, offsetData, descs, pages);
    return offsetData + pd.size, pd;
  }

  /** The state between two turns of write_dump_pages. */
  ghost predicate Writing(desc: DataCache, data: DataCache, fd: File, c: Codec, blocks: seq<Block>, ps: nat, big: bool,
                          n: nat, descs: seq<Desc>)
    requires Sorted(blocks, ps)
    reads desc, desc.buf, data, data.buf, fd
  {
    SentTo(desc, data, fd, c, ps, big, descs, Pages(blocks, ps, n))
  }

  /** What write_dump_pages leaves in the file. */
  ghost predicate PagesStored(rs: seq<Record>, c: Codec, blocks: seq<Block>, ps: nat, big: bool, offsetPage: nat,
                              descs: seq<Desc>, data: seq<byte>)
    requires Sorted(blocks, ps)
  {
    && Stored(rs, offsetPage, Flat(descs, big)) && Stored(rs, offsetPage + 24 * |descs|, data)
    && Sent(c, ps, descs, offsetPage + 24 * |descs|, data, Pages(blocks, ps, MaxMapnr(blocks, ps)))
  }

  lemma StoredPages(rs: seq<Record>, c: Codec, blocks: seq<Block>, ps: nat, big: bool, op: nat, descs: seq<Desc>,
                    data: seq<byte>, base: nat)
    requires Sorted(blocks, ps) && base == op + 24 * |descs| && Stored(rs, op, Flat(descs, big))
    requires Stored(rs, base, data)
    requires Sent(c, ps, descs, base, data, Pages(blocks, ps, MaxMapnr(blocks, ps)))
    ensures PagesStored(rs, c, blocks, ps, big, op, descs, data)
  {
  }

  /** prepare_data_cache, twice. */
  method NewCaches(fd: File, ps: nat, big: bool, offsetDesc: nat, offsetData: nat)
    returns (desc: DataCache, data: DataCache)
    requires offsetDesc <= offsetData
    ensures fresh(desc) && fresh(data) && fresh(desc.buf) && fresh(data.buf)
    ensures Caching(desc, data, fd, ps, big, []) && desc.base == offsetDesc && data.base == offsetData
    ensures data.sent == []
  {
    desc := new DataCache(fd, 4 * ps, offsetDesc);
    data := new DataCache(fd, 4 * ps, offsetData);
    ghost var none: seq<Desc> := [];
    assert desc.Valid() && Flat(none, big) == [];
  }

  /** The caches, with the zero page that all pages of zeros share. */
  method PrepareCaches(fd: File, c: Codec, blocks: seq<Block>, ps: nat, big: bool, offsetDesc: nat,
                       offsetData: nat) returns (desc: DataCache, data: DataCache)
    requires Sorted(blocks, ps) && offsetDesc <= offsetData
    modifies fd
    ensures fresh(desc) && fresh(data) && fresh(desc.buf) && fresh(data.buf)
    ensures Writing(desc, data, fd, c, blocks, ps, big, 0, []) && desc.base == offsetDesc && data.base == offsetData
    ensures |data.sent| == ps
    ensures SameOutside(old(fd.records), fd.records, offsetData, offsetData + ps)
  {
    desc, data := NewCaches(fd, ps, big, offsetDesc, offsetData);
    SendData(desc, data, fd, ps, ZeroPage(ps), big, [], false);
    SentFirst(c, ps, data.base, data.sent);
  }

  /** The flushes at the end of write_dump_pages. */
  method SyncCaches(desc: DataCache, data: DataCache, fd: File, ps: nat, big: bool, ghost descs: seq<Desc>)
    requires Caching(desc, data, fd, ps, big, descs)
    modifies desc, desc.buf, data, data.buf, fd
    ensures Stored(fd.records, desc.base, Flat(descs, big)) && Stored(fd.records, data.base, data.sent)
    ensures data.sent == old(data.sent)
    ensures SameOutside(old(fd.records), fd.records, desc.base, data.base + |data.sent|)
  {
    ghost var was := data.sent;
    SyncDesc(desc, data, fd, ps, big, descs);
    ghost var rs := fd.records;
    SendData(desc, data, fd, ps, [], big, descs, true);
    assert was + [] == was;
    OutsideTrans(old(fd.records), rs, fd.records, desc.base, data.base, data.base, data.base + |data.sent|, desc.base,
                 data.base + |data.sent|);
  }

  /** One turn of write_dump_pages, in terms of the walk over guest memory. */
  method WriteNext(desc: DataCache, data: DataCache, fd: File, c: Codec, blocks: seq<Block>, ps: nat, big: bool,
                   iter: Option<nat>, pfn: nat, i: nat, pfn': nat, buf: seq<byte>, pdZero: Desc, offsetData: nat,
                   ghost descs: seq<Desc>)
    returns (offsetData': nat, ghost d: Desc)
    requires Sorted(blocks, ps) && Moved(blocks, ps, iter, pfn, pfn') && i < |blocks| && InBlock(blocks[i], ps, pfn')
    requires buf == PageData(blocks[i], ps, pfn') && 24 <= 4 * ps && Inverts(c)
    requires Writing(desc, data, fd, c, blocks, ps, big, Walked(iter, pfn), descs)
    requires data.base == desc.base + 24 * |Pages(blocks, ps, MaxMapnr(blocks, ps))|
    requires pdZero == Desc(data.base, ps, 0, 0) && offsetData == data.base + |data.sent|
    modifies desc, desc.buf, data, data.buf, fd
    ensures Writing(desc, data, fd, c, blocks, ps, big, pfn' + 1, descs + [d])
    ensures offsetData <= offsetData' == data.base + |data.sent| && pfn' < MaxMapnr(blocks, ps)
    ensures Walked(iter, pfn) <= pfn'
    ensures SameOutside(old(fd.records), fd.records, desc.base, data.base + |data.sent|)
  {
    WalkOn(blocks, ps, iter, pfn, i, pfn');
    PagesMono(blocks, ps, pfn' + 1, MaxMapnr(blocks, ps));
    offsetData', d := WritePage(desc, data, fd, c, ps, big, buf, pdZero, offsetData, descs,
                                Pages(blocks, ps, Walked(iter, pfn)));
  }

  /** The loop of write_dump_pages. */
  method WriteAll(desc: DataCache, data: DataCache, fd: File, c: Codec, blocks: seq<Block>, ps: nat, big: bool,
                  pdZero: Desc, offset: nat) returns (ghost descs: seq<Desc>)
    requires Sorted(blocks, ps) && 24 <= 4 * ps && Inverts(c)
    requires Writing(desc, data, fd, c, blocks, ps, big, 0, [])
    requires data.base == desc.base + 24 * |Pages(blocks, ps, MaxMapnr(blocks, ps))|
    requires pdZero == Desc(data.base, ps, 0, 0) && offset == data.base + |data.sent|
    modifies desc, desc.buf, data, data.buf, fd
    ensures Writing(desc, data, fd, c, blocks, ps, big, MaxMapnr(blocks, ps), descs)
    ensures offset <= data.base + |data.sent|
    ensures SameOutside(old(fd.records), fd.records, desc.base, data.base + |data.sent|)
  {
    var offsetData := offset;
    descs := [];
    var pfn: nat := 0;
    var iter: Option<nat> := None;
    while true
      invariant Walking(blocks, ps, iter, pfn) && Walked(iter, pfn) <= MaxMapnr(blocks, ps)
      invariant Writing(desc, data, fd, c, blocks, ps, big, Walked(iter, pfn), descs)
      invariant offset <= offsetData == data.base + |data.sent|
      invariant SameOutside(old(fd.records), fd.records, desc.base, offsetData)
      decreases MaxMapnr(blocks, ps) - Walked(iter, pfn)
    {
      var ok, iter', pfn', buf := GetNextPage(blocks, ps, iter, pfn);
      if !ok {
        break;
      }
      ghost var rs, d := fd.records, pdZero;
      offsetData, d := WriteNext(desc, data, fd, c, blocks, ps, big, iter, pfn, iter'.value, pfn', buf, pdZero,
                                 offsetData, descs);
      OutsideTrans(old(fd.records), rs, fd.records, desc.base, offsetData, desc.base, offsetData, desc.base,
                   offsetData);
      descs := descs + [d];
      iter, pfn := iter', pfn';
    }
    WalkEnds(blocks, ps, iter, pfn);
    assert Walked(iter, pfn) == MaxMapnr(blocks, ps);
  }

  /** write_dump_pages */
  method WriteDumpPages(fd: File, c: Codec, blocks: seq<Block>, ps: nat, big: bool, offsetPage: nat,
                        numDumpable: nat) returns (ghost descs: seq<Desc>, ghost sent: seq<byte>)
    requires Sorted(blocks, ps) && 24 <= 4 * ps && Inverts(c)
    requires numDumpable == |Pages(blocks, ps, MaxMapnr(blocks, ps))|
    modifies fd
    ensures PagesStored(fd.records, c, blocks, ps, big, offsetPage, descs, sent)
    ensures SameOutside(old(fd.records), fd.records, offsetPage, offsetPage + 24 * numDumpable + |sent|)
  {
    var offsetDesc := offsetPage;
    var offsetData := offsetDesc + 24 * numDumpable;
    var desc, data := PrepareCaches(fd, c, blocks, ps, big, offsetDesc, offsetData);
    ghost var rs := fd.records;
    descs := WriteAll(desc, data, fd, c, blocks, ps, big, Desc(offsetData, ps, 0, 0), offsetData + ps);
    ghost var end := data.base + |data.sent|;
    OutsideTrans(old(fd.records), rs, fd.records, offsetData, offsetData + ps, offsetPage, end, offsetPage, end);
    rs := fd.records;
    SyncCaches(desc, data, fd, ps, big, descs);
    OutsideTrans(old(fd.records), rs, fd.records, offsetPage, end, offsetPage, end, offsetPage, end);
    sent := data.sent;
    StoredPages(fd.records, c, blocks, ps, big, offsetPage, descs, sent, data.base);
  }
}
