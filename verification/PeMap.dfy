/** The PE loader's sections and memory blocks, and the translations between addresses and file offsets. */
module PeMap {
  import opened Words
  import opened Options

  // ----- reading the headers -----

  function ByteAt(data: seq<byte>, i: nat): (b: nat)
    requires i < |data|
    ensures b < 256
  {
    data[i]
  }

  function Rd16(data: seq<byte>, off: nat): Option<nat> {
    if off + 2 > |data| then None else Some(ByteAt(data, off) + 256 * ByteAt(data, off + 1))
  }

  function Rd32(data: seq<byte>, off: nat): (r: Option<nat>)
    ensures r.Some? <==> off + 4 <= |data|
    ensures r.Some? ==> r.value < 0x1_0000_0000
  {
    if off + 4 > |data| then None
    else Some(ByteAt(data, off) + 256 * ByteAt(data, off + 1) + 65536 * ByteAt(data, off + 2) +
              16777216 * ByteAt(data, off + 3))
  }

  function Rd64(data: seq<byte>, off: nat): (r: Option<nat>)
    ensures r.Some? ==> r.value < U64
  {
    var low :- Rd32(data, off);
    var high :- Rd32(data, off + 4);
    Some(low + 0x1_0000_0000 * high)
  }

  predicate IsPe(data: seq<byte>) {
    |data| >= 0x40 && data[0] == 0x4d && data[1] == 0x5a &&
    Rd32(data, 0x3c).Some? &&
    var e := Rd32(data, 0x3c).value;
    e + 4 <= |data| && data[e..e + 4] == [0x50, 0x45, 0, 0]
  }

  /** Where the section headers are. */
  datatype Table = Table(start: nat, count: nat)

  /** The table as both address translators find it. */
  function SectionTable(data: seq<byte>): Option<Table> {
    var e :- Rd32(data, 0x3c);
    var count :- Rd16(data, e + 6);
    var optional :- Rd16(data, e + 20);
    Some(Table(e + 24 + optional, count))
  }

  /** The preferred base, from either optional header. */
  function ImageBase(data: seq<byte>): (r: Option<nat>)
    ensures r.Some? ==> r.value < U64
  {
    var e :- Rd32(data, 0x3c);
    var optional :- Rd16(data, e + 20);
    if e + 24 + optional > |data| then None
    else
      var magic :- Rd16(data, e + 24);
      var entry :- Rd32(data, e + 24 + 16);
      if magic == 0x10b then Rd32(data, e + 24 + 28)
      else if magic == 0x20b then Rd64(data, e + 24 + 24)
      else None
  }

  /** The relative address of the entry point, at the same place in both optional headers. */
  function EntryRva(data: seq<byte>): Option<nat> {
    var e :- Rd32(data, 0x3c);
    Rd32(data, e + 24 + 16)
  }

  datatype Header = Header(virtualSize: nat, rva: nat, rawSize: nat, fileOffset: nat, flags: nat)

  /** The fields of one section header. */
  function HeaderAt(data: seq<byte>, off: nat): (h: Header)
    requires off + 40 <= |data|
    ensures h.virtualSize < 0x1_0000_0000 && h.rva < 0x1_0000_0000 && h.rawSize < 0x1_0000_0000
  {
    Header(Rd32(data, off + 8).value, Rd32(data, off + 12).value, Rd32(data, off + 16).value,
           Rd32(data, off + 20).value, Rd32(data, off + 36).value)
  }

  function Span(h: Header): nat {
    Max(h.virtualSize, h.rawSize)
  }

  // ----- the loaded program -----

  datatype Section = Section(va: nat, virtualSize: nat, rawSize: nat, fileOffset: nat)

  datatype Block = Block(va: nat, bytes: seq<byte>, readable: bool, writable: bool, executable: bool)

  datatype Image = Image(base: nat, entry: nat, sections: seq<Section>, blocks: seq<Block>)

  /** Addition in 64 bits. */
  function WrapAdd(a: nat, b: nat): (r: nat)
    ensures a + b < U64 ==> r == a + b
    ensures U64 <= a + b < 2 * U64 ==> r == a + b - U64
  {
    (a + b) % U64
  }

  function SectionOf(base: nat, h: Header): Section {
    Section(WrapAdd(base, h.rva), h.virtualSize, h.rawSize, h.fileOffset)
  }

  /** Raw data when all of it is in the file, zeros otherwise and past it. */
  function Contents(data: seq<byte>, h: Header): (b: seq<byte>)
    ensures |b| == Span(h)
  {
    seq(Span(h), k requires 0 <= k < Span(h) =>
      if h.fileOffset + h.rawSize <= |data| && k < h.rawSize then data[h.fileOffset + k] else 0)
  }

  /** Bit `k` of the section flags. */
  predicate Flag(h: Header, k: nat) {
    Shr(h.flags, k) % 2 == 1
  }

  function BlockOf(data: seq<byte>, base: nat, h: Header): Block {
    Block(WrapAdd(base, h.rva), Contents(data, h), Flag(h, 30) || Flag(h, 29), Flag(h, 31), Flag(h, 29))
  }

  /** The headers of the first `n` sections, if the file holds them all. */
  function Headers(data: seq<byte>, start: nat, n: nat): (r: Option<seq<Header>>)
    ensures r.Some? ==> |r.value| == n
  {
    if n == 0 then Some([])
    else
      var before :- Headers(data, start, n - 1);
      if start + 40 * (n - 1) + 40 > |data| then None
      else Some(before + [HeaderAt(data, start + 40 * (n - 1))])
  }

  function Sections(base: nat, hs: seq<Header>): (s: seq<Section>)
    ensures |s| == |hs|
  {
    seq(|hs|, i requires 0 <= i < |hs| => SectionOf(base, hs[i]))
  }

  function Blocks(data: seq<byte>, base: nat, hs: seq<Header>): (b: seq<Block>)
    ensures |b| == |hs|
  {
    seq(|hs|, i requires 0 <= i < |hs| => BlockOf(data, base, hs[i]))
  }

  function Load(data: seq<byte>): Option<Image> {
    if !IsPe(data) then None
    else
      var base :- ImageBase(data);
      var table :- SectionTable(data);
      var hs :- Headers(data, table.start, table.count);
      var entry :- EntryRva(data);
      Some(Image(base, WrapAdd(base, entry), Sections(base, hs), Blocks(data, base, hs)))
  }

  // ----- address translation -----

  predicate InSection(s: Section, va: nat) {
    s.va <= va < SatAdd(s.va, Max(s.virtualSize, s.rawSize))
  }

  /** The file offset of a virtual address, in the first section that has raw data there. */
  function VaToFileOffset(sections: seq<Section>, va: nat): Option<nat> {
    if sections == [] then None
    else if InSection(sections[0], va) && va - sections[0].va < sections[0].rawSize then
      Some(sections[0].fileOffset + (va - sections[0].va))
    else VaToFileOffset(sections[1..], va)
  }

  predicate InHeader(h: Header, rva: nat) {
    h.rva <= rva < h.rva + Span(h)
  }

  /** The same for a relative address, reading the headers from entry `i` on and stopping where the file ends. */
  function RvaSearch(data: seq<byte>, t: Table, i: nat, rva: nat): Option<nat>
    requires i <= t.count
    decreases t.count - i
  {
    if i == t.count || t.start + 40 * i + 40 > |data| then None
    else
      var h := HeaderAt(data, t.start + 40 * i);
      if InHeader(h, rva) && rva - h.rva < h.rawSize then Some(h.fileOffset + (rva - h.rva))
      else RvaSearch(data, t, i + 1, rva)
  }

  function RvaToFile(data: seq<byte>, rva: nat): Option<nat> {
    if |data| < 0x40 then None
    else
      var t :- SectionTable(data);
      RvaSearch(data, t, 0, rva)
  }

  // ----- the translators agree -----

  /** One section takes an address exactly when its header takes the relative one, except for the very last address. */
  lemma SectionTakes(base: nat, h: Header, rva: nat)
    requires base < U64 && h.rva < 0x1_0000_0000 && h.virtualSize < 0x1_0000_0000 && h.rawSize < 0x1_0000_0000
    requires base + rva < U64
    ensures base + rva != U64 - 1 ==> (InSection(SectionOf(base, h), base + rva) <==> InHeader(h, rva))
    ensures base + rva == U64 - 1 ==> !InSection(SectionOf(base, h), base + rva)
    ensures InSection(SectionOf(base, h), base + rva) ==> base + rva - SectionOf(base, h).va == rva - h.rva
  {
    hide WrapAdd;
  }

  lemma {:induction false} HeadersAt(data: seq<byte>, start: nat, n: nat, i: nat)
    requires Headers(data, start, n).Some? && i < n
    ensures start + 40 * i + 40 <= |data| && Headers(data, start, n).value[i] == HeaderAt(data, start + 40 * i)
    decreases n
  {
    hide HeaderAt;
    if i < n - 1 { HeadersAt(data, start, n - 1, i); }
  }

  lemma {:induction false} SearchesAgree(data: seq<byte>, base: nat, t: Table, hs: seq<Header>, i: nat, rva: nat)
    requires base < U64 && Headers(data, t.start, t.count) == Some(hs) && i <= t.count && base + rva < U64
    ensures base + rva != U64 - 1 ==>
              VaToFileOffset(Sections(base, hs)[i..], base + rva) == RvaSearch(data, t, i, rva)
    ensures base + rva == U64 - 1 ==> VaToFileOffset(Sections(base, hs)[i..], base + rva) == None
    decreases t.count - i
  {
    hide InSection, InHeader, SectionOf, HeaderAt;
    var s := Sections(base, hs);
    if i < t.count {
      HeadersAt(data, t.start, t.count, i);
      SectionTakes(base, hs[i], rva);
      SearchesAgree(data, base, t, hs, i + 1, rva);
      assert s[i..][0] == SectionOf(base, hs[i]) && s[i..][1..] == s[i + 1..];
      SectionFields(base, hs[i]);
    }
  }

  lemma SectionFields(base: nat, h: Header)
    ensures var s := SectionOf(base, h);
            s.rawSize == h.rawSize && s.fileOffset == h.fileOffset && s.virtualSize == h.virtualSize
  {
  }

  /** The headers that a loaded file was built from. */
  function LoadedHeaders(data: seq<byte>): (hs: seq<Header>)
    requires Load(data).Some?
    ensures Load(data).value.sections == Sections(Load(data).value.base, hs)
    ensures Load(data).value.blocks == Blocks(data, Load(data).value.base, hs)
  {
    Headers(data, SectionTable(data).value.start, SectionTable(data).value.count).value
  }

  /** The header has raw data at a relative address. */
  predicate HasRaw(h: Header, rva: nat) {
    h.rva <= rva < h.rva + h.rawSize
  }

  /** The relative address translates by the first header with raw data there. */
  lemma {:induction false} SearchFinds(data: seq<byte>, t: Table, hs: seq<Header>, i: nat, k: nat, rva: nat)
    requires Headers(data, t.start, t.count) == Some(hs) && i <= k < |hs| && HasRaw(hs[k], rva)
    requires forall j :: i <= j < k ==> !HasRaw(hs[j], rva)
    ensures RvaSearch(data, t, i, rva) == Some(hs[k].fileOffset + (rva - hs[k].rva))
    decreases k - i
  {
    hide HeaderAt;
    HeadersAt(data, t.start, t.count, i);
    if i < k { SearchFinds(data, t, hs, i + 1, k, rva); }
  }

  /** In a loaded file: the first header with raw data at the relative address gives the offset. */
  lemma TranslatesByHeader(data: seq<byte>, k: nat, rva: nat)
    requires Load(data).Some? && k < |LoadedHeaders(data)| && HasRaw(LoadedHeaders(data)[k], rva)
    requires forall j :: 0 <= j < k ==> !HasRaw(LoadedHeaders(data)[j], rva)
    ensures var h := LoadedHeaders(data)[k]; RvaToFile(data, rva) == Some(h.fileOffset + (rva - h.rva))
  {
    hide Headers, Sections, Blocks, RvaSearch, HasRaw;
    SearchFinds(data, SectionTable(data).value, LoadedHeaders(data), 0, k, rva);
  }

  lemma {:induction false} SearchFindsNone(data: seq<byte>, t: Table, hs: seq<Header>, i: nat, rva: nat)
    requires Headers(data, t.start, t.count) == Some(hs) && i <= t.count
    ensures RvaSearch(data, t, i, rva) == None <==> forall k :: i <= k < |hs| ==> !HasRaw(hs[k], rva)
    decreases t.count - i
  {
    hide HeaderAt;
    if i < t.count {
      HeadersAt(data, t.start, t.count, i);
      SearchFindsNone(data, t, hs, i + 1, rva);
    }
  }

  /**
   * In a loaded program the two translations agree on an address that does not wrap, exactly if it is not the last
   * address of the address space or no header has raw data there.
   */
  lemma TranslatorsAgreeIff(data: seq<byte>, rva: nat)
    requires Load(data).Some? && Load(data).value.base + rva < U64
    ensures var image := Load(data).value;
            VaToFileOffset(image.sections, image.base + rva) == RvaToFile(data, rva) <==>
            image.base + rva != U64 - 1 || forall h :: h in LoadedHeaders(data) ==> !HasRaw(h, rva)
  {
    hide Headers, Sections, Blocks, VaToFileOffset, RvaSearch, HasRaw;
    var base, t := ImageBase(data).value, SectionTable(data).value;
    var hs := LoadedHeaders(data);
    SearchesAgree(data, base, t, hs, 0, rva);
    SearchFindsNone(data, t, hs, 0, rva);
    assert Sections(base, hs)[0..] == Sections(base, hs);
    assert (forall h :: h in hs ==> !HasRaw(h, rva)) <==> forall k :: 0 <= k < |hs| ==> !HasRaw(hs[k], rva);
  }

  // ----- the memory image is the file -----

  predicate InBlock(b: Block, va: nat) {
    b.va <= va < SatAdd(b.va, |b.bytes|)
  }

  /** Up to `len` bytes from an address, out of the first block that holds it. */
  function ReadVa(blocks: seq<Block>, va: nat, len: nat): Option<seq<byte>> {
    if blocks == [] then None
    else if InBlock(blocks[0], va) then
      var off := va - blocks[0].va;
      var end := if off + len < |blocks[0].bytes| then off + len else |blocks[0].bytes|;
      if off >= |blocks[0].bytes| then None else Some(blocks[0].bytes[off..end])
    else ReadVa(blocks[1..], va, len)
  }

  /** What a byte of memory should be: the file byte its address translates to, or zero where there is none. */
  function FileByte(data: seq<byte>, sections: seq<Section>, va: nat): nat {
    var off := VaToFileOffset(sections, va);
    if off.Some? then InFile(data, off.value) else 0
  }

  /** A file byte, with zeros past the end. */
  function InFile(data: seq<byte>, off: nat): nat {
    if off < |data| then data[off] else 0
  }

  /** The section has raw data at an address. */
  predicate HasRawAt(s: Section, va: nat) {
    InSection(s, va) && va - s.va < s.rawSize
  }

  /** The first section that spans an address, or the number of sections. */
  function FirstSpanning(sections: seq<Section>, va: nat): (i: nat)
    ensures i <= |sections| && (i < |sections| ==> InSection(sections[i], va))
    ensures forall k :: 0 <= k < i ==> !InSection(sections[k], va)
  {
    if sections == [] || InSection(sections[0], va) then 0 else 1 + FirstSpanning(sections[1..], va)
  }

  /** The first section that has raw data at an address, or the number of sections. */
  function FirstRaw(sections: seq<Section>, va: nat): (i: nat)
    ensures i <= |sections| && (i < |sections| ==> HasRawAt(sections[i], va))
    ensures forall k :: 0 <= k < i ==> !HasRawAt(sections[k], va)
  {
    if sections == [] || HasRawAt(sections[0], va) then 0 else 1 + FirstRaw(sections[1..], va)
  }

  lemma {:induction false} TranslatesByFirstRaw(sections: seq<Section>, va: nat)
    ensures var t := FirstRaw(sections, va);
            VaToFileOffset(sections, va) ==
            if t == |sections| then None else Some(sections[t].fileOffset + (va - sections[t].va))
  {
    hide InSection;
    if sections != [] { TranslatesByFirstRaw(sections[1..], va); }
  }

  /** The raw data of a section is in the file. */
  predicate Fits(data: seq<byte>, s: Section) {
    s.fileOffset + s.rawSize <= |data|
  }

  /** Byte `d` of the buffer of a section. */
  function HeldByte(data: seq<byte>, s: Section, d: nat): nat {
    if Fits(data, s) && d < s.rawSize then data[s.fileOffset + d] else 0
  }

  lemma BlockLikeSection(data: seq<byte>, base: nat, h: Header, va: nat)
    ensures var b, s := BlockOf(data, base, h), SectionOf(base, h);
            (InBlock(b, va) <==> InSection(s, va)) && b.va == s.va && |b.bytes| == Span(h)
    ensures forall d :: 0 <= d < Span(h) ==> BlockOf(data, base, h).bytes[d] == HeldByte(data, SectionOf(base, h), d)
  {
  }

  /** A read comes out of the block of the first section that spans the address. */
  lemma {:induction false} ReadsFirstSpanning(data: seq<byte>, base: nat, hs: seq<Header>, va: nat, len: nat)
    ensures var sections, read := Sections(base, hs), ReadVa(Blocks(data, base, hs), va, len);
            var i := FirstSpanning(sections, va);
            (read.Some? <==> i < |sections|) &&
            (read.Some? ==>
              var d, size := va - sections[i].va, Span(hs[i]);
              0 <= d < size && |read.value| == Min(len, size - d) &&
              forall k :: 0 <= k < |read.value| ==> read.value[k] == HeldByte(data, sections[i], d + k))
    decreases |hs|
  {
    hide InSection, InBlock, SectionOf, BlockOf, HeldByte;
    var sections, blocks := Sections(base, hs), Blocks(data, base, hs);
    if hs != [] {
      BlockLikeSection(data, base, hs[0], va);
      if InBlock(blocks[0], va) {
        InsideBlock(blocks[0], va);
      } else {
        ReadsFirstSpanning(data, base, hs[1..], va, len);
        assert sections[1..] == Sections(base, hs[1..]) && blocks[1..] == Blocks(data, base, hs[1..]);
      }
    }
  }

  lemma InsideBlock(b: Block, va: nat)
    requires InBlock(b, va)
    ensures b.va <= va && va - b.va < |b.bytes|
  {
  }

  /**
   * What the section table and the file have to say for byte `k` of a read at `va`. The read comes out of section `i`,
   * the first that spans `va`; the address of the byte translates by section `t`, the first with raw data there.
   */
  predicate MemoryAgrees(data: seq<byte>, sections: seq<Section>, va: nat, k: nat)
    requires FirstSpanning(sections, va) < |sections|
  {
    var i, t := FirstSpanning(sections, va), FirstRaw(sections, va + k);
    var d := va + k - sections[i].va;
    if t == |sections| then
      // no raw data anywhere: only the last address can still lie in the raw data of the buffer
      va + k < U64 - 1 || HeldByte(data, sections[i], d) == 0
    else if t == i then
      // raw data that does not fit is not loaded at all
      Fits(data, sections[i]) || InFile(data, sections[i].fileOffset + d) == 0
    else if t > i then
      // zero fill in front of the raw data of a later section
      InFile(data, sections[t].fileOffset + (va + k - sections[t].va)) == 0
    else
      // an earlier section that begins inside the read
      HeldByte(data, sections[i], d) == InFile(data, sections[t].fileOffset + (va + k - sections[t].va))
  }

  /**
   * A byte read from memory is the file byte that its address translates to, or zero where it translates to none,
   * exactly under that condition. At the address of the read itself (k = 0) the last case does not arise.
   */
  lemma MemoryIsFileIff(data: seq<byte>, va: nat, len: nat, k: nat)
    requires Load(data).Some?
    requires var read := ReadVa(Load(data).value.blocks, va, len); read.Some? && k < |read.value|
    ensures var image := Load(data).value;
            FirstSpanning(image.sections, va) < |image.sections| &&
            (ReadVa(image.blocks, va, len).value[k] == FileByte(data, image.sections, va + k) <==>
             MemoryAgrees(data, image.sections, va, k)) &&
            (k == 0 ==> FirstSpanning(image.sections, va) <= FirstRaw(image.sections, va))
  {
    hide Headers, VaToFileOffset, ReadVa, SectionOf, BlockOf, Load;
    var base, hs := Load(data).value.base, LoadedHeaders(data);
    var sections := Sections(base, hs);
    ReadsFirstSpanning(data, base, hs, va, len);
    TranslatesByFirstRaw(sections, va + k);
    SectionFields(base, hs[FirstSpanning(sections, va)]);
  }

  /** No address lies in two sections. */
  ghost predicate Disjoint(sections: seq<Section>) {
    forall i, j, va: nat :: 0 <= i < j < |sections| && InSection(sections[i], va) ==> !InSection(sections[j], va)
  }

  /** The raw data of every section is in the file. */
  ghost predicate RawInFile(data: seq<byte>, sections: seq<Section>) {
    forall i :: 0 <= i < |sections| ==> Fits(data, sections[i])
  }

  /** Where sections do not overlap and their raw data lies in the file, memory is the file. */
  lemma MemoryIsFile(data: seq<byte>, va: nat, len: nat, k: nat)
    requires Load(data).Some?
    requires var image := Load(data).value;
             Disjoint(image.sections) && RawInFile(data, image.sections) && va + k < U64 - 1 &&
             ReadVa(image.blocks, va, len).Some? && k < |ReadVa(image.blocks, va, len).value|
    ensures var image := Load(data).value;
            ReadVa(image.blocks, va, len).value[k] == FileByte(data, image.sections, va + k)
  {
    hide Headers, VaToFileOffset, ReadVa, SectionOf, BlockOf, Load, FileByte;
    var base, hs := Load(data).value.base, LoadedHeaders(data);
    var sections := Sections(base, hs);
    MemoryIsFileIff(data, va, len, k);
    ReadsFirstSpanning(data, base, hs, va, len);
    var i := FirstSpanning(sections, va);
    SectionFields(base, hs[i]);
    assert InSection(sections[i], va + k);
  }

  // ----- the loops of the source -----

  /** One section's buffer: zeros, then the raw data copied in if the file holds it. */
  method SectionBytes(data: seq<byte>, h: Header) returns (b: seq<byte>)
    ensures b == Contents(data, h)
  {
    var bytes := new byte[Span(h)](_ => 0);
    if h.fileOffset + h.rawSize <= |data| && h.rawSize > 0 {
      var k := 0;
      while k < h.rawSize
        invariant 0 <= k <= h.rawSize
        invariant forall j :: 0 <= j < bytes.Length ==> bytes[j] == if j < k then data[h.fileOffset + j] else 0
      {
        bytes[k] := data[h.fileOffset + k];
        k := k + 1;
      }
    }
    b := bytes[..];
  }

  method LoadPe(data: seq<byte>) returns (r: Option<Image>)
    ensures r == Load(data)
  {
    hide Rd16, Rd32, HeaderAt, Contents, IsPe;
    if !IsPe(data) { return None; }
    if ImageBase(data).None? || SectionTable(data).None? { return None; }
    var entry := EntryRva(data).value;
    hide ImageBase, SectionTable, EntryRva;
    var base, t := ImageBase(data).value, SectionTable(data).value;
    var sections, blocks := [], [];
    ghost var hs: seq<Header> := [];
    for i := 0 to t.count
      invariant Headers(data, t.start, i) == Some(hs) && |hs| == i
      invariant sections == Sections(base, hs) && blocks == Blocks(data, base, hs)
    {
      var off := t.start + 40 * i;
      if off + 40 > |data| {
        HeadersStop(data, t.start, i, t.count);
        return None;
      }
      var h := HeaderAt(data, off);
      var bytes := SectionBytes(data, h);
      sections := sections + [SectionOf(base, h)];
      blocks := blocks + [Block(WrapAdd(base, h.rva), bytes, Flag(h, 30) || Flag(h, 29), Flag(h, 31), Flag(h, 29))];
      hs := hs + [h];
    }
    return Some(Image(base, WrapAdd(base, entry), sections, blocks));
  }

  lemma {:induction false} HeadersStop(data: seq<byte>, start: nat, i: nat, n: nat)
    requires i < n && start + 40 * i + 40 > |data|
    ensures Headers(data, start, n) == None
    decreases n
  {
    if i < n - 1 { HeadersStop(data, start, i, n - 1); }
  }

  method RvaToFileOffset(data: seq<byte>, rva: nat) returns (r: Option<nat>)
    ensures r == RvaToFile(data, rva)
  {
    hide Rd16, Rd32, SectionTable, HeaderAt;
    if |data| < 0x40 || SectionTable(data).None? { return None; }
    var t := SectionTable(data).value;
    for i := 0 to t.count
      invariant RvaSearch(data, t, 0, rva) == RvaSearch(data, t, i, rva)
    {
      var off := t.start + 40 * i;
      if off + 40 > |data| { break; }
      var h := HeaderAt(data, off);
      if InHeader(h, rva) {
        var delta := rva - h.rva;
        if delta < h.rawSize {
          return Some(h.fileOffset + delta);
        }
      }
    }
    return None;
  }
}
