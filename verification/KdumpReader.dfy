/** A reader of kdump files: it finds pages the way the format says, from the file alone. */
module KdumpReader {
  import opened Basics
  import opened Vmcore
  import opened GuestMemory
  import opened KdumpPages
  import opened KdumpLayout

  const FIELD_SIZE: nat := 4
  const DESC_SIZE: nat := 24

  /** KDUMP_SIGNATURE */
  const SIGNATURE: seq<byte> := [75, 68, 85, 77, 80, 32, 32, 32]

  function ReadField(rs: seq<Record>, at: nat, big: bool): Option<nat> {
    var s := Slice(rs, at, FIELD_SIZE);
    if s.Some? then Some(Number(s.value, big)) else None
  }

  predicate BitAt(rs: seq<Record>, at: nat, pfn: nat) {
    var b := ByteAt(rs, at + pfn / 8);
    b.Some? && Bit(b.value, pfn % 8)
  }

  /** The number of bits set before that of pfn. */
  function BitRank(rs: seq<Record>, at: nat, pfn: nat): nat {
    if pfn == 0 then 0 else BitRank(rs, at, pfn - 1) + if BitAt(rs, at, pfn - 1) then 1 else 0
  }

  function ReadData(rs: seq<Record>, c: Codec, d: Desc): Option<seq<byte>> {
    var raw := Slice(rs, d.offset, d.size);
    if raw.Some? then Some(Plain(c, d.flags, raw.value)) else None
  }

  /** The page that descriptor k locates. */
  function ReadDesc(rs: seq<Record>, c: Codec, big: bool, op: nat, k: nat): Option<seq<byte>> {
    var s := Slice(rs, op + 24 * k, DESC_SIZE);
    if s.Some? then ReadData(rs, c, Decode(s.value, big)) else None
  }

  /** Page pfn, given the offsets of the second bitmap and of the descriptors. */
  function ReadAt(rs: seq<Record>, c: Codec, big: bool, at: nat, op: nat, pfn: nat): Option<seq<byte>> {
    if BitAt(rs, at, pfn) then ReadDesc(rs, c, big, op, BitRank(rs, at, pfn)) else None
  }

  /** block_size, sub_hdr_size and bitmap_blocks of the header. */
  datatype Sizes = Sizes(bs: nat, sub: nat, bitmap: nat)

  predicate Signed(rs: seq<Record>) {
    Slice(rs, 0, |SIGNATURE|) == Some(SIGNATURE)
  }

  function ReadSizes(rs: seq<Record>, cls: Class, big: bool): Option<Sizes> {
    var bs, sub, bitmap := ReadField(rs, cls.sizes, big), ReadField(rs, cls.sizes + 4, big), ReadField(rs,
        cls.sizes + 8, big);
    if !Signed(rs) || bs.None? || sub.None? || bitmap.None? then None
      else Some(Sizes(bs.value, sub.value, bitmap.value))
  }

  /** The second bitmap starts after the header blocks and half the bitmap blocks. */
  function SecondBitmap(s: Sizes): nat {
    Addr(1 + s.sub, s.bs) + Addr(s.bitmap / 2, s.bs)
  }

  function FirstDesc(s: Sizes): nat {
    Addr(1 + s.sub + s.bitmap, s.bs)
  }

  /** How many pages a bitmap has bits for. */
  function BitmapBits(s: Sizes): nat {
    8 * Addr(s.bitmap / 2, s.bs)
  }

  /**
    Page pfn from the file alone: the header gives the offsets, the second bitmap
    says whether the page is there and which descriptor is its own.
   */
  function ReadPage(rs: seq<Record>, cls: Class, c: Codec, big: bool, pfn: nat): Option<seq<byte>> {
    var s := ReadSizes(rs, cls, big);
    if s.None? || pfn >= BitmapBits(s.value) then None
      else ReadAt(rs, c, big, SecondBitmap(s.value), FirstDesc(s.value), pfn)
  }
}
