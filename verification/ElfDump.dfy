/** The ELF core writer of qemu/dump.c: where memory goes in the file, and what goes there. */
module ElfDump {
  import opened Basics
  import opened Arith
  import opened Vmcore
  import opened GuestMemory

  /** has_filter, begin and length. */
  datatype Filter = Everything | Range(begin: nat, length: nat)

  /** Blocks are listed by rising address, not empty and without overlap. */
  predicate Rising(blocks: seq<Block>) {
    && (forall i | 0 <= i < |blocks| ::
          blocks[i].start < blocks[i].end && |blocks[i].host| == blocks[i].end - blocks[i].start)
    && (forall i, j | 0 <= i < j < |blocks| :: blocks[i].end <= blocks[j].start)
  }

  /** The block is out of the range. */
  predicate Out(b: Block, f: Filter) {
    f.Range? && (b.start >= f.begin + f.length || b.end <= f.begin)
  }

  /** The part of the block that the filter lets through. */
  function Lo(b: Block, f: Filter): nat {
    if f.Range? && f.begin > b.start then f.begin else b.start
  }

  function Hi(b: Block, f: Filter): nat {
    if f.Range? && f.begin + f.length < b.end then f.begin + f.length else b.end
  }

  function Size(b: Block, f: Filter): nat
    requires b.start < b.end
  {
    if Out(b, f) then 0 else Hi(b, f) - Lo(b, f)
  }

  function Piece(b: Block, f: Filter): (s: seq<byte>)
    requires b.start < b.end && |b.host| == b.end - b.start
    ensures |s| == Size(b, f)
  {
    if Out(b, f) then [] else b.host[Lo(b, f) - b.start..Hi(b, f) - b.start]
  }

  // Pieces written one after the other.

  function Flat(ps: seq<seq<byte>>, n: nat): seq<byte>
    requires n <= |ps|
  {
    if n == 0 then [] else Flat(ps, n - 1) + ps[n - 1]
  }

  /** Where piece k starts. */
  function Base(ps: seq<seq<byte>>, k: nat): nat
    requires k <= |ps|
  {
    if k == 0 then 0 else Base(ps, k - 1) + |ps[k - 1]|
  }

  lemma {:induction false} BaseIs(ps: seq<seq<byte>>, k: nat)
    requires k <= |ps|
    ensures Base(ps, k) == |Flat(ps, k)|
  {
    if k > 0 {
      BaseIs(ps, k - 1);
    }
  }

  lemma {:induction false} BaseMono(ps: seq<seq<byte>>, k: nat, n: nat)
    requires k <= n <= |ps|
    ensures Base(ps, k) <= Base(ps, n)
  {
    if k < n {
      BaseMono(ps, k, n - 1);
    }
  }

  /** Byte j of piece k. */
  lemma {:induction false} FlatAt(ps: seq<seq<byte>>, k: nat, j: nat, n: nat)
    requires k < n <= |ps| && j < |ps[k]|
    ensures Base(ps, k) + j < |Flat(ps, n)| && Flat(ps, n)[Base(ps, k) + j] == ps[k][j]
  {
    BaseIs(ps, n - 1);
    if k < n - 1 {
      FlatAt(ps, k, j, n - 1);
    }
  }

  function Pieces(blocks: seq<Block>, f: Filter): (ps: seq<seq<byte>>)
    requires Rising(blocks)
    ensures |ps| == |blocks|
  {
    seq(|blocks|, i requires 0 <= i < |blocks| => Piece(blocks[i], f))
  }

  lemma PiecesAt(blocks: seq<Block>, f: Filter, i: nat)
    requires Rising(blocks) && i < |blocks|
    ensures Pieces(blocks, f)[i] == Piece(blocks[i], f)
  {
  }

  /** The memory part of the file: what the filter lets through of each block. */
  function Memory(blocks: seq<Block>, f: Filter): seq<byte>
    requires Rising(blocks)
  {
    Flat(Pieces(blocks, f), |blocks|)
  }

  /** The address is in the piece of block k. */
  predicate Held(blocks: seq<Block>, f: Filter, k: nat, addr: nat)
    requires k < |blocks|
  {
    !Out(blocks[k], f) && Lo(blocks[k], f) <= addr < Hi(blocks[k], f)
  }

  /** The byte of guest memory at an address of a block. */
  function GuestByte(b: Block, addr: nat): byte
    requires |b.host| == b.end - b.start && b.start <= addr < b.end
  {
    b.host[addr - b.start]
  }

  /** Byte offset + i of the file is the guest byte at addr + i. */
  predicate Shows(file: seq<byte>, offset: nat, b: Block, addr: nat, i: int) {
    && |b.host| == b.end - b.start && 0 <= i && offset + i < |file| && b.start <= addr + i < b.end
    && file[offset + i] == GuestByte(b, addr + i)
  }

  /** What get_offset_range reports: offset and size in the file, or that the memory is not there. */
  datatype Place = Absent | Place(offset: nat, filesz: nat)

  /**
    The place lies in block k, is as long as the mapping or as what is left of the
    block, and the file has guest memory there, byte by byte.
   */
  ghost predicate PlaceIn(blocks: seq<Block>, f: Filter, file: seq<byte>, physAddr: nat, length: nat, p: Place, k: nat)
    requires k < |blocks|
  {
    && p.Place? && Held(blocks, f, k, physAddr)
    && p.filesz == (if physAddr + length <= Hi(blocks[k], f) then length else Hi(blocks[k], f) - physAddr)
    && p.offset + p.filesz <= |file|
    && forall i | 0 <= i < p.filesz :: Shows(file, p.offset, blocks[k], physAddr, i)
  }

  /** How much memory of the first k blocks goes to the file. */
  function Before(blocks: seq<Block>, f: Filter, k: nat): nat
    requires k <= |blocks| && Rising(blocks)
  {
    if k == 0 then 0 else Before(blocks, f, k - 1) + Size(blocks[k - 1], f)
  }

  /** The place follows what is written before it, and stays in block k. */
  ghost predicate Computed(blocks: seq<Block>, f: Filter, memoryOffset: nat, physAddr: nat, length: nat, p: Place,
                           k: nat)
    requires k < |blocks| && Rising(blocks)
  {
    && p.Place? && Held(blocks, f, k, physAddr)
    && p.offset == memoryOffset + Before(blocks, f, k) + (physAddr - Lo(blocks[k], f))
    && p.filesz == if physAddr + length <= Hi(blocks[k], f) then length else Hi(blocks[k], f) - physAddr
  }

  /** get_offset_range */
  method GetOffsetRange(blocks: seq<Block>, f: Filter, memoryOffset: nat, physAddr: nat, length: nat) returns (p: Place)
    requires Rising(blocks)
    ensures p.Absent? ==> forall k | 0 <= k < |blocks| :: !Held(blocks, f, k, physAddr)
    ensures p.Place? ==> exists k | 0 <= k < |blocks| :: Computed(blocks, f, memoryOffset, physAddr, length, p, k)
  {
    if f.Range? && (physAddr < f.begin || physAddr >= f.begin + f.length) {
      return Absent;
    }
    var offset := memoryOffset;
    for k := 0 to |blocks|
      invariant offset == memoryOffset + Before(blocks, f, k)
      invariant forall i | 0 <= i < k :: !Held(blocks, f, i, physAddr)
    {
      var block := blocks[k];
      var start, sizeInBlock;
      if f.Range? {
        if block.start >= f.begin + f.length || block.end <= f.begin {
          continue;
        }
        start := if f.begin <= block.start then block.start else f.begin;
        sizeInBlock := block.end - start;
        if f.begin + f.length < block.end {
          sizeInBlock := sizeInBlock - (block.end - (f.begin + f.length));
        }
      } else {
        start := block.start;
        sizeInBlock := block.end - block.start;
      }
      if physAddr >= start && physAddr < start + sizeInBlock {
        p := Place(physAddr - start + offset,
                   if physAddr + length <= start + sizeInBlock then length else sizeInBlock - (physAddr - start));
        assert Computed(blocks, f, memoryOffset, physAddr, length, p, k);
        return;
      }
      offset := offset + sizeInBlock;
    }
    return Absent;
  }

  lemma BeforeIs(blocks: seq<Block>, f: Filter, k: nat)
    requires Rising(blocks) && k <= |blocks|
    ensures Before(blocks, f, k) == Base(Pieces(blocks, f), k)
  {
    var ps := Pieces(blocks, f);
    forall i | 0 <= i < |ps|
      ensures |ps[i]| == Size(blocks[i], f)
    {
      PiecesAt(blocks, f, i);
    }
    BeforeSizes(blocks, f, ps, k);
  }

  lemma {:induction false} BeforeSizes(blocks: seq<Block>, f: Filter, ps: seq<seq<byte>>, k: nat)
    requires Rising(blocks) && k <= |blocks| == |ps| && forall i | 0 <= i < |ps| :: |ps[i]| == Size(blocks[i], f)
    ensures Before(blocks, f, k) == Base(ps, k)
  {
    if k > 0 {
      BeforeSizes(blocks, f, ps, k - 1);
    }
  }

  /** What get_offset_range reports is where the file has that memory, whatever its header. */
  lemma PlaceIsRight(blocks: seq<Block>, f: Filter, header: seq<byte>, physAddr: nat, length: nat, p: Place, k: nat)
    requires Rising(blocks) && k < |blocks| && Computed(blocks, f, |header|, physAddr, length, p, k)
    ensures PlaceIn(blocks, f, header + Memory(blocks, f), physAddr, length, p, k)
  {
    var file := header + Memory(blocks, f);
    BeforeIs(blocks, f, k);
    forall i | 0 <= i < p.filesz
      ensures Shows(file, p.offset, blocks[k], physAddr, i)
    {
      ByteRight(blocks, f, header, physAddr + i, k, p.offset + i);
    }
    EndRight(blocks, f, header, k);
  }

  lemma EndRight(blocks: seq<Block>, f: Filter, header: seq<byte>, k: nat)
    requires Rising(blocks) && k < |blocks|
    ensures |header| + Base(Pieces(blocks, f), k) + Size(blocks[k], f) <= |header + Memory(blocks, f)|
  {
    PiecesAt(blocks, f, k);
    BaseMono(Pieces(blocks, f), k + 1, |blocks|);
    BaseIs(Pieces(blocks, f), |blocks|);
  }

  lemma PieceByte(b: Block, f: Filter, addr: nat)
    requires b.start < b.end && |b.host| == b.end - b.start && !Out(b, f) && Lo(b, f) <= addr < Hi(b, f)
    ensures Piece(b, f)[addr - Lo(b, f)] == GuestByte(b, addr)
  {
  }

  lemma After(header: seq<byte>, m: seq<byte>, x: nat, at: nat)
    requires x < |m| && at == |header| + x
    ensures (header + m)[at] == m[x]
  {
  }

  /** Where the byte at addr, in the piece of block k, goes. */
  lemma ByteRight(blocks: seq<Block>, f: Filter, header: seq<byte>, addr: nat, k: nat, at: nat)
    requires Rising(blocks) && k < |blocks| && Held(blocks, f, k, addr)
    requires at == addr - Lo(blocks[k], f) + |header| + Base(Pieces(blocks, f), k)
    ensures at < |header + Memory(blocks, f)| && (header + Memory(blocks, f))[at] == GuestByte(blocks[k], addr)
  {
    var ps, j := Pieces(blocks, f), addr - Lo(blocks[k], f);
    PiecesAt(blocks, f, k);
    PieceByte(blocks[k], f, addr);
    FlatAt(ps, k, j, |blocks|);
    After(header, Memory(blocks, f), Base(ps, k) + j, at);
  }

  /** dump_calculate_size */
  method CalculateSize(blocks: seq<Block>, f: Filter) returns (total: nat)
    requires Rising(blocks)
    ensures total == |Memory(blocks, f)|
  {
    total := 0;
    for k := 0 to |blocks|
      invariant total == Before(blocks, f, k)
    {
      var block := blocks[k];
      var size;
      if f.Range? {
        var left := if f.begin > block.start then f.begin else block.start;
        var right := if f.begin + f.length < block.end then f.begin + f.length else block.end;
        size := right - left;
        size := if size > 0 then size else 0;
      } else {
        size := block.end - block.start;
      }
      total := total + size;
    }
    BeforeIs(blocks, f, |blocks|);
    BaseIs(Pieces(blocks, f), |blocks|);
  }

  lemma {:induction false} FlatGap(ps: seq<seq<byte>>, k: nat, n: nat)
    requires k <= n <= |ps| && forall i | k <= i < n :: ps[i] == []
    ensures Flat(ps, n) == Flat(ps, k)
  {
    if k < n {
      FlatGap(ps, k, n - 1);
    }
  }

  /** Blocks k to n - 1 are out of the range. */
  ghost predicate NoneOf(blocks: seq<Block>, f: Filter, k: nat, n: nat) {
    forall i | k <= i < n && i < |blocks| :: Out(blocks[i], f)
  }

  lemma SkipBlocks(blocks: seq<Block>, f: Filter, k: nat, n: nat)
    requires Rising(blocks) && k <= n <= |blocks| && NoneOf(blocks, f, k, n)
    ensures Flat(Pieces(blocks, f), n) == Flat(Pieces(blocks, f), k)
  {
    forall i | k <= i < n
      ensures Pieces(blocks, f)[i] == []
    {
      PiecesAt(blocks, f, i);
    }
    FlatGap(Pieces(blocks, f), k, n);
  }

  /** The fields of DumpState that the ELF writer moves. */
  class ElfWriter {
    const blocks: seq<Block>
    const filter: Filter
    const pageSize: nat
    var nextBlock: nat
    var start: nat
    var out: seq<byte>

    constructor (blocks: seq<Block>, filter: Filter, pageSize: nat, header: seq<byte>)
      ensures this.blocks == blocks && this.filter == filter && this.pageSize == pageSize && out == header
    {
      this.blocks, this.filter, this.pageSize, out := blocks, filter, pageSize, header;
      nextBlock, start := 0, 0;
    }

    /** Ready to write block nextBlock from start on. */
    ghost predicate At()
      reads this
    {
      nextBlock < |blocks| && !Out(blocks[nextBlock], filter)
      && start + blocks[nextBlock].start == Lo(blocks[nextBlock], filter)
    }

    /** get_start_block; false is where it returns -1. */
    method GetStartBlock() returns (found: bool)
      requires Rising(blocks) && blocks != []
      modifies this`nextBlock, this`start
      ensures if found then At() && NoneOf(blocks, filter, 0, nextBlock) else NoneOf(blocks, filter, 0, |blocks|)
    {
      if filter.Everything? {
        nextBlock, start := 0, 0;
        return true;
      }
      for k := 0 to |blocks|
        invariant NoneOf(blocks, filter, 0, k)
      {
        var block := blocks[k];
        if block.start >= filter.begin + filter.length || block.end <= filter.begin {
          continue;
        }
        nextBlock := k;
        start := if filter.begin > block.start then filter.begin - block.start else 0;
        return true;
      }
      return false;
    }

    /** get_next_block; true is where there is no more block. */
    method GetNextBlock(block: nat) returns (last: bool)
      requires Rising(blocks) && block < |blocks|
      modifies this`nextBlock, this`start
      ensures if last then NoneOf(blocks, filter, block + 1, |blocks|)
              else At() && block < nextBlock && NoneOf(blocks, filter, block + 1, nextBlock)
    {
      var k := block;
      while true
        invariant block <= k < |blocks| && NoneOf(blocks, filter, block + 1, k + 1)
        decreases |blocks| - k
      {
        k := k + 1;
        if k == |blocks| {
          return true;
        }
        start, nextBlock := 0, k;
        if filter.Range? {
          if blocks[k].start >= filter.begin + filter.length || blocks[k].end <= filter.begin {
            continue;
          }
          if filter.begin > blocks[k].start {
            start := filter.begin - blocks[k].start;
          }
        }
        return false;
      }
    }

    /** write_memory: whole pages, and what is left over. */
    method WriteMemory(host: seq<byte>, at: nat, size: nat)
      requires pageSize > 0 && at + size <= |host|
      modifies this`out
      ensures out == old(out) + host[at..at + size]
    {
      AddrPage(size, pageSize);
      var i := 0;
      while i < Page(size, pageSize)
        invariant i <= Page(size, pageSize) && Addr(i, pageSize) <= size
        invariant out == old(out) + host[at..at + Addr(i, pageSize)]
      {
        AddrMono(i, Page(size, pageSize), pageSize);
        var from := at + Addr(i, pageSize);
        out := out + host[from..from + pageSize];
        SliceJoin(host, at, from, from + pageSize);
        i := i + 1;
      }
      if Offset(size, pageSize) != 0 {
        var from := at + Addr(i, pageSize);
        out := out + host[from..from + Offset(size, pageSize)];
        SliceJoin(host, at, from, at + size);
      }
    }

    /** One turn of dump_iterate: what the filter lets through of the current block. */
    method WriteBlock()
      requires Rising(blocks) && pageSize > 0 && At()
      modifies this`out
      ensures out == old(out) + Piece(blocks[nextBlock], filter)
    {
      var b := blocks[nextBlock];
      var size := b.end - b.start;
      if filter.Range? {
        size := size - start;
        if filter.begin + filter.length < b.end {
          size := size - (b.end - (filter.begin + filter.length));
        }
      }
      PieceSlice(b, filter, start, size);
      WriteMemory(b.host, start, size);
    }

    /** dump_iterate: the file gets the filtered memory of all blocks, in order. */
    method DumpIterate()
      requires Rising(blocks) && pageSize > 0 && At() && NoneOf(blocks, filter, 0, nextBlock)
      modifies this
      ensures out == old(out) + Memory(blocks, filter)
    {
      SkipBlocks(blocks, filter, 0, nextBlock);
      var last := false;
      ghost var n := nextBlock;
      while !last
        invariant n <= |blocks| && out == old(out) + Flat(Pieces(blocks, filter), n)
        invariant if last then n == |blocks| else At() && n == nextBlock
        decreases |blocks| - n, !last
      {
        var block := nextBlock;
        WriteBlock();
        last := GetNextBlock(block);
        n := if last then |blocks| else nextBlock;
        NextFlat(blocks, filter, old(out), block, n);
      }
    }
  }

  lemma NextFlat(blocks: seq<Block>, f: Filter, out: seq<byte>, k: nat, n: nat)
    requires Rising(blocks) && k < n <= |blocks| && NoneOf(blocks, f, k + 1, n)
    ensures out + Flat(Pieces(blocks, f), n) == out + Flat(Pieces(blocks, f), k) + Piece(blocks[k], f)
  {
    PiecesAt(blocks, f, k);
    SkipBlocks(blocks, f, k + 1, n);
    Assoc(out, Flat(Pieces(blocks, f), k), Piece(blocks[k], f));
  }

  lemma Assoc(a: seq<byte>, b: seq<byte>, c: seq<byte>)
    ensures a + (b + c) == a + b + c
  {
  }

  lemma SliceJoin(s: seq<byte>, a: nat, b: nat, c: nat)
    requires a <= b <= c <= |s|
    ensures s[a..b] + s[b..c] == s[a..c]
  {
  }

  lemma PieceSlice(b: Block, f: Filter, at: nat, size: int)
    requires b.start < b.end && |b.host| == b.end - b.start && !Out(b, f) && at + b.start == Lo(b, f)
    requires size == if f.Range? then
                       b.end - b.start - at - (if f.begin + f.length < b.end then b.end - (f.begin + f.length) else 0)
                     else b.end - b.start
    ensures 0 <= size && at + size <= |b.host| && Piece(b, f) == b.host[at..at + size]
  {
  }

  // The header, and the file as a whole.

  datatype Mapping = Mapping(physAddr: nat, length: nat)

  /** Sizes of Elf_Ehdr, Elf_Phdr and Elf_Shdr. */
  datatype ElfClass = ElfClass(ehdr: nat, phdr: nat, shdr: nat)

  const ELFCLASS32 := ElfClass(52, 32, 40)
  const ELFCLASS64 := ElfClass(64, 56, 64)

  /** have_section: e_phnum is too small for the number of mappings. */
  predicate HaveSection(num: nat) {
    num >= 65533
  }

  /** phdr_num, or sh_info where there is a section: PT_NOTE and the mappings, up to UINT32_MAX. */
  function PhdrNum(num: nat): nat {
    if num <= 0xFFFF_FFFE then 1 + num else 0xFFFF_FFFF
  }

  /** memory_offset */
  function MemoryOffset(cls: ElfClass, num: nat, noteSize: nat): nat {
    cls.ehdr + Addr(PhdrNum(num), cls.phdr) + (if HaveSection(num) then cls.shdr else 0) + noteSize
  }

  /** A place was computed for the mapping. */
  ghost predicate Reported(blocks: seq<Block>, f: Filter, memoryOffset: nat, m: Mapping, p: Place)
    requires Rising(blocks)
  {
    if p.Absent? then forall k | 0 <= k < |blocks| :: !Held(blocks, f, k, m.physAddr)
    else exists k | 0 <= k < |blocks| :: Computed(blocks, f, memoryOffset, m.physAddr, m.length, p, k)
  }

  /** A place is right for the mapping: guest memory is there, or the guest memory is not in the file. */
  ghost predicate Located(blocks: seq<Block>, f: Filter, file: seq<byte>, m: Mapping, p: Place) {
    if p.Absent? then forall k | 0 <= k < |blocks| :: !Held(blocks, f, k, m.physAddr)
    else exists k | 0 <= k < |blocks| :: PlaceIn(blocks, f, file, m.physAddr, m.length, p, k)
  }

  lemma ReportedLocated(blocks: seq<Block>, f: Filter, header: seq<byte>, m: Mapping, p: Place)
    requires Rising(blocks) && Reported(blocks, f, |header|, m, p)
    ensures Located(blocks, f, header + Memory(blocks, f), m, p)
  {
    if p.Place? {
      var k :| 0 <= k < |blocks| && Computed(blocks, f, |header|, m.physAddr, m.length, p, k);
      PlaceIsRight(blocks, f, header, m.physAddr, m.length, p, k);
    }
  }

  /** The contents of headers, which the model does not look into. */
  datatype Texts = Texts(ehdr: seq<byte>, noteHeader: seq<byte>, load: (Mapping, Place) -> seq<byte>, shdr: seq<byte>,
                         notes: seq<byte>)

  ghost predicate Sized(t: Texts, cls: ElfClass) {
    && |t.ehdr| == cls.ehdr && |t.noteHeader| == cls.phdr && |t.shdr| == cls.shdr
    && forall m, p :: |t.load(m, p)| == cls.phdr
  }

  /** write_elf_loads: a PT_LOAD for every mapping that the header has room for. */
  method WriteElfLoads(blocks: seq<Block>, f: Filter, cls: ElfClass, t: Texts, memoryOffset: nat,
                       mappings: seq<Mapping>, maxIndex: nat)
    returns (out: seq<byte>, places: seq<Place>)
    requires Rising(blocks) && Sized(t, cls) && maxIndex == PhdrNum(|mappings|)
    ensures |out| == Addr(|places|, cls.phdr) && |places| + 1 == PhdrNum(|mappings|)
    ensures forall i | 0 <= i < |places| :: Reported(blocks, f, memoryOffset, mappings[i], places[i])
  {
    out, places := [], [];
    var phdrIndex := 1;
    while |places| < |mappings|
      invariant |places| <= |mappings| && phdrIndex == |places| + 1 && (|places| > 0 ==> phdrIndex < maxIndex)
      invariant |out| == Addr(|places|, cls.phdr)
      invariant forall i | 0 <= i < |places| :: Reported(blocks, f, memoryOffset, mappings[i], places[i])
      decreases |mappings| - |places|
    {
      var m := mappings[|places|];
      var p := GetOffsetRange(blocks, f, memoryOffset, m.physAddr, m.length);
      out := out + t.load(m, p);
      places := places + [p];
      phdrIndex := phdrIndex + 1;
      if phdrIndex >= maxIndex {
        break;
      }
    }
  }

  /** dump_begin: everything before the memory, exactly memory_offset bytes. */
  method DumpBegin(blocks: seq<Block>, f: Filter, cls: ElfClass, t: Texts,
                   mappings: seq<Mapping>) returns (out: seq<byte>, places: seq<Place>)
    requires Rising(blocks) && Sized(t, cls)
    ensures |out| == MemoryOffset(cls, |mappings|, |t.notes|) && |places| + 1 == PhdrNum(|mappings|)
    ensures forall i | 0 <= i < |places| :: Reported(blocks, f, |out|, mappings[i], places[i])
  {
    var memoryOffset := MemoryOffset(cls, |mappings|, |t.notes|);
    out := t.ehdr + t.noteHeader;
    var loads;
    loads, places := WriteElfLoads(blocks, f, cls, t, memoryOffset, mappings, PhdrNum(|mappings|));
    out := out + loads;
    if HaveSection(|mappings|) {
      out := out + t.shdr;
    }
    out := out + t.notes;
  }

  /**
    The ELF dump.  Every PT_LOAD names the place of its memory in the file, and
    the memory part is as long as dump_calculate_size says.  None is where no
    block is in the range.
   */
  method CreateVmcore(blocks: seq<Block>, f: Filter, pageSize: nat, cls: ElfClass, t: Texts, mappings: seq<Mapping>)
    returns (file: Option<seq<byte>>, places: seq<Place>)
    requires Rising(blocks) && blocks != [] && pageSize > 0 && Sized(t, cls)
    ensures file.None? <==> NoneOf(blocks, f, 0, |blocks|)
    ensures file.Some? ==> |file.value| == MemoryOffset(cls, |mappings|, |t.notes|) + |Memory(blocks, f)|
    ensures file.Some? ==>
              |places| + 1 == PhdrNum(|mappings|) && forall i | 0 <= i < |places| ::
                Located(blocks, f, file.value, mappings[i], places[i])
  {
    places := [];
    var w := new ElfWriter(blocks, f, pageSize, []);
    var found := w.GetStartBlock();
    if !found {
      return None, places;
    }
    var header;
    header, places := DumpBegin(blocks, f, cls, t, mappings);
    w.out := header;
    w.DumpIterate();
    forall i | 0 <= i < |places|
      ensures Located(blocks, f, w.out, mappings[i], places[i])
    {
      ReportedLocated(blocks, f, header, mappings[i], places[i]);
    }
    return Some(w.out), places;
  }
}
