/** Files with given headers, that load; and three on which the address translations or the memory image differ. */
module PeFiles {
  import opened Options
  import opened PeMap
  import opened Words

  // ----- writing headers -----

  /** Byte `k` of a 32-bit field, least significant first. */
  function Field(v: nat, k: nat): byte {
    if k == 0 then v % 256
    else if k == 1 then v / 256 % 256
    else if k == 2 then v / 65536 % 256
    else v / 16777216 % 256
  }

  /** Byte `k` of a section header. */
  function HeaderByte(h: Header, k: nat): byte {
    if 8 <= k < 12 then Field(h.virtualSize, k - 8)
    else if 12 <= k < 16 then Field(h.rva, k - 12)
    else if 16 <= k < 20 then Field(h.rawSize, k - 16)
    else if 20 <= k < 24 then Field(h.fileOffset, k - 20)
    else if 36 <= k < 40 then Field(h.flags, k - 36)
    else 0
  }

  /** Where the PE header is, how long the optional header is and of which kind, and what it says. */
  datatype Front = Front(pe: nat, optional: nat, plus: bool, base: nat, entry: nat)

  predicate FrontOk(f: Front) {
    && 0x40 <= f.pe < 0x1_0000_0000 && 32 <= f.optional < 0x1_0000 && f.entry < 0x1_0000_0000
    && f.base < if f.plus then U64 else 0x1_0000_0000
  }

  /** A PE32+ header right after the DOS header. */
  function Plain(base: nat): Front {
    Front(0x40, 32, true, base, 0)
  }

  function TableStart(f: Front): nat {
    f.pe + 24 + f.optional
  }

  /** Byte `k` of the PE header: signature, section count, size of the optional header, and what that holds. */
  function PeByte(f: Front, count: nat, k: nat): byte {
    if k == 0 then 0x50
    else if k == 1 then 0x45
    else if k == 6 then count % 256
    else if k == 7 then count / 256 % 256
    else if k == 20 then f.optional % 256
    else if k == 21 then f.optional / 256 % 256
    else if k == 24 then 0x0b
    else if k == 25 then if f.plus then 0x02 else 0x01
    else if 40 <= k < 44 then Field(f.entry, k - 40)
    else if f.plus && 48 <= k < 52 then Field(f.base % 0x1_0000_0000, k - 48)
    else if f.plus && 52 <= k < 56 then Field(f.base / 0x1_0000_0000, k - 52)
    else if !f.plus && 52 <= k < 56 then Field(f.base, k - 52)
    else 0
  }

  predicate HeaderFits(h: Header) {
    h.virtualSize < 0x1_0000_0000 && h.rva < 0x1_0000_0000 && h.rawSize < 0x1_0000_0000 &&
    h.fileOffset < 0x1_0000_0000 && h.flags < 0x1_0000_0000
  }

  predicate Writable(f: Front, hs: seq<Header>) {
    FrontOk(f) && |hs| < 0x1_0000 && forall i :: 0 <= i < |hs| ==> HeaderFits(hs[i])
  }

  function FileByteAt(f: Front, hs: seq<Header>, k: nat): byte {
    if k == 0 then 0x4d
    else if k == 1 then 0x5a
    else if 0x3c <= k < 0x40 then Field(f.pe, k - 0x3c)
    else if k < f.pe then 0
    else if k < TableStart(f) then PeByte(f, |hs|, k - f.pe)
    else if (k - TableStart(f)) / 40 < |hs| then
      HeaderByte(hs[(k - TableStart(f)) / 40], (k - TableStart(f)) % 40)
    else 0
  }

  /** A file that holds exactly these headers. */
  function FileOf(f: Front, hs: seq<Header>): (data: seq<byte>)
    ensures |data| == TableStart(f) + 40 * |hs|
  {
    seq(TableStart(f) + 40 * |hs|, k requires 0 <= k < TableStart(f) + 40 * |hs| => FileByteAt(f, hs, k))
  }

  lemma FieldBack(v: nat)
    requires v < 0x1_0000_0000
    ensures Field(v, 0) + 256 * Field(v, 1) + 65536 * Field(v, 2) + 16777216 * Field(v, 3) == v
  {
    var a, b, c := v / 256, v / 65536, v / 16777216;
    LowPart(v, 256);
    LowPart(a, 256);
    LowPart(b, 256);
    DivModUnique(v, 65536, a / 256, a % 256 * 256 + v % 256);
    DivModUnique(v, 16777216, b / 256, b % 256 * 65536 + v % 65536);
    assert c < 256;
  }

  lemma LowPart(v: nat, n: nat)
    requires n > 0
    ensures v == v / n * n + v % n && v % n < n
  {
  }

  lemma ReadsField(data: seq<byte>, off: nat, v: nat)
    requires off + 4 <= |data| && v < 0x1_0000_0000
    requires forall k: nat :: k < 4 ==> data[off + k] == Field(v, k)
    ensures Rd32(data, off) == Some(v)
  {
    assert data[off + 0] == Field(v, 0) && data[off + 1] == Field(v, 1);
    assert data[off + 2] == Field(v, 2) && data[off + 3] == Field(v, 3);
    FieldBack(v);
  }

  lemma HeaderBytesAt(f: Front, hs: seq<Header>, i: nat, k: nat)
    requires FrontOk(f) && i < |hs| && k < 40
    ensures FileOf(f, hs)[TableStart(f) + 40 * i + k] == HeaderByte(hs[i], k)
  {
    hide HeaderByte, PeByte;
    DivModUnique(40 * i + k, 40, i, k);
  }

  lemma ReadsHeaderField(f: Front, hs: seq<Header>, i: nat, at: nat, v: nat)
    requires FrontOk(f) && i < |hs| && at + 4 <= 40 && v < 0x1_0000_0000
    requires forall k: nat :: k < 4 ==> HeaderByte(hs[i], at + k) == Field(v, k)
    ensures Rd32(FileOf(f, hs), TableStart(f) + 40 * i + at) == Some(v)
  {
    hide HeaderByte, FileOf, Field, Rd32, TableStart;
    forall k: nat | k < 4
      ensures FileOf(f, hs)[TableStart(f) + 40 * i + at + k] == Field(v, k)
    {
      HeaderBytesAt(f, hs, i, at + k);
    }
    ReadsField(FileOf(f, hs), TableStart(f) + 40 * i + at, v);
  }

  lemma FieldsOf(h: Header)
    ensures forall k: nat :: k < 4 ==>
              HeaderByte(h, 8 + k) == Field(h.virtualSize, k) && HeaderByte(h, 12 + k) == Field(h.rva, k) &&
              HeaderByte(h, 16 + k) == Field(h.rawSize, k) && HeaderByte(h, 20 + k) == Field(h.fileOffset, k) &&
              HeaderByte(h, 36 + k) == Field(h.flags, k)
  {
    hide Field;
  }

  lemma WrittenHeader(f: Front, hs: seq<Header>, i: nat)
    requires Writable(f, hs) && i < |hs|
    ensures HeaderAt(FileOf(f, hs), TableStart(f) + 40 * i) == hs[i]
  {
    hide FileOf, Field, Rd32, HeaderByte, TableStart, FrontOk;
    FieldsOf(hs[i]);
    assert HeaderFits(hs[i]);
    ReadsHeaderField(f, hs, i, 8, hs[i].virtualSize);
    ReadsHeaderField(f, hs, i, 12, hs[i].rva);
    ReadsHeaderField(f, hs, i, 16, hs[i].rawSize);
    ReadsHeaderField(f, hs, i, 20, hs[i].fileOffset);
    ReadsHeaderField(f, hs, i, 36, hs[i].flags);
  }

  lemma {:induction false} WrittenHeaders(f: Front, hs: seq<Header>, n: nat)
    requires Writable(f, hs) && n <= |hs|
    ensures Headers(FileOf(f, hs), TableStart(f), n) == Some(hs[..n])
  {
    hide FileOf, HeaderAt, Writable, TableStart;
    if n > 0 {
      WrittenHeaders(f, hs, n - 1);
      WrittenHeader(f, hs, n - 1);
      assert hs[..n] == hs[..n - 1] + [hs[n - 1]];
    }
  }

  /** Every front of either kind and every list of section headers is that of a file that loads, with just these. */
  lemma FileLoads(f: Front, hs: seq<Header>)
    requires Writable(f, hs)
    ensures var data := FileOf(f, hs);
            Load(data) == Some(Image(f.base, WrapAdd(f.base, f.entry), Sections(f.base, hs), Blocks(data, f.base, hs)))
    ensures LoadedHeaders(FileOf(f, hs)) == hs
  {
    FrontOf(f, hs);
    FileFront(f, hs);
    WrittenHeaders(f, hs, |hs|);
    hide *;
    assert hs[..|hs|] == hs;
    LoadIs(FileOf(f, hs), f.base, f.entry, Table(TableStart(f), |hs|), hs);
  }

  lemma FrontOf(f: Front, hs: seq<Header>)
    requires Writable(f, hs)
    ensures FrontOk(f) && |hs| < 0x1_0000
  {
  }

  lemma LoadIs(data: seq<byte>, base: nat, entry: nat, t: Table, hs: seq<Header>)
    requires IsPe(data) && SectionTable(data) == Some(t) && ImageBase(data) == Some(base)
    requires EntryRva(data) == Some(entry) && Headers(data, t.start, t.count) == Some(hs)
    ensures Load(data) == Some(Image(base, WrapAdd(base, entry), Sections(base, hs), Blocks(data, base, hs)))
    ensures LoadedHeaders(data) == hs
  {
    hide IsPe, SectionTable, ImageBase, EntryRva, Headers, Sections, Blocks;
  }

  /** The bytes of the front, one by one. */
  lemma FrontBytes(f: Front, hs: seq<Header>, k: nat)
    requires FrontOk(f) && k < 24 + f.optional
    ensures FileOf(f, hs)[f.pe + k] == PeByte(f, |hs|, k)
  {
    hide PeByte, HeaderByte;
  }

  lemma PeFieldAt(f: Front, hs: seq<Header>, at: nat, v: nat)
    requires FrontOk(f) && at + 4 <= 56 && v < 0x1_0000_0000
    requires forall k: nat :: k < 4 ==> PeByte(f, |hs|, at + k) == Field(v, k)
    ensures Rd32(FileOf(f, hs), f.pe + at) == Some(v)
  {
    hide PeByte, FileOf, Field, Rd32;
    forall k: nat | k < 4
      ensures FileOf(f, hs)[f.pe + at + k] == Field(v, k)
    {
      FrontBytes(f, hs, at + k);
    }
    ReadsField(FileOf(f, hs), f.pe + at, v);
  }

  lemma PeHalfAt(f: Front, hs: seq<Header>, at: nat)
    requires FrontOk(f) && at + 2 <= 56
    ensures Rd16(FileOf(f, hs), f.pe + at) == Some(PeByte(f, |hs|, at) + 256 * PeByte(f, |hs|, at + 1))
  {
    FrontBytes(f, hs, at);
    FrontBytes(f, hs, at + 1);
    hide PeByte, FileOf;
  }

  lemma DosHeader(f: Front, hs: seq<Header>)
    requires FrontOk(f)
    ensures IsPe(FileOf(f, hs)) && Rd32(FileOf(f, hs), 0x3c) == Some(f.pe)
  {
    var data := FileOf(f, hs);
    forall k: nat | k < 4
      ensures data[0x3c + k] == Field(f.pe, k)
    {
      hide PeByte, HeaderByte;
    }
    ReadsField(data, 0x3c, f.pe);
    FrontBytes(f, hs, 0);
    FrontBytes(f, hs, 1);
    FrontBytes(f, hs, 2);
    FrontBytes(f, hs, 3);
    assert data[0] == 0x4d && data[1] == 0x5a;
    hide FileOf, Rd32, Field;
    assert data[f.pe..f.pe + 4] == [0x50, 0x45, 0, 0];
  }

  lemma FrontTable(f: Front, hs: seq<Header>)
    requires FrontOk(f) && |hs| < 0x1_0000
    ensures SectionTable(FileOf(f, hs)) == Some(Table(TableStart(f), |hs|))
    ensures Rd16(FileOf(f, hs), f.pe + 20) == Some(f.optional) && f.pe + 24 + f.optional <= |FileOf(f, hs)|
  {
    DosHeader(f, hs);
    PeHalfAt(f, hs, 6);
    PeHalfAt(f, hs, 20);
    HalfBack(|hs|);
    HalfBack(f.optional);
    hide FileOf, Rd32, Rd16, IsPe;
  }

  lemma FrontMagic(f: Front, hs: seq<Header>)
    requires FrontOk(f)
    ensures Rd16(FileOf(f, hs), f.pe + 24) == Some(if f.plus then 0x20b else 0x10b)
    ensures Rd32(FileOf(f, hs), f.pe + 40) == Some(f.entry)
  {
    PeHalfAt(f, hs, 24);
    PeFieldAt(f, hs, 40, f.entry);
    hide FileOf, Rd32, Rd16;
  }

  lemma FrontBase(f: Front, hs: seq<Header>)
    requires FrontOk(f)
    ensures (if f.plus then Rd64(FileOf(f, hs), f.pe + 48) else Rd32(FileOf(f, hs), f.pe + 52)) == Some(f.base)
  {
    hide FileOf, Rd32;
    if f.plus {
      PeFieldAt(f, hs, 48, f.base % 0x1_0000_0000);
      PeFieldAt(f, hs, 52, f.base / 0x1_0000_0000);
    } else {
      PeFieldAt(f, hs, 52, f.base);
    }
  }

  lemma FileFront(f: Front, hs: seq<Header>)
    requires FrontOk(f) && |hs| < 0x1_0000
    ensures var data := FileOf(f, hs);
            IsPe(data) && SectionTable(data) == Some(Table(TableStart(f), |hs|)) &&
            ImageBase(data) == Some(f.base) && EntryRva(data) == Some(f.entry)
  {
    hide *;
    DosHeader(f, hs);
    FrontTable(f, hs);
    FrontMagic(f, hs);
    FrontBase(f, hs);
    BaseIs(FileOf(f, hs), f.pe, f.optional, f.plus, f.base);
  }

  lemma BaseIs(data: seq<byte>, e: nat, optional: nat, plus: bool, base: nat)
    requires Rd32(data, 0x3c) == Some(e) && Rd16(data, e + 20) == Some(optional) && e + 24 + optional <= |data|
    requires Rd16(data, e + 24) == Some(if plus then 0x20b else 0x10b) && Rd32(data, e + 40).Some?
    requires (if plus then Rd64(data, e + 48) else Rd32(data, e + 52)) == Some(base)
    ensures ImageBase(data) == Some(base) && EntryRva(data) == Rd32(data, e + 40)
  {
    hide Rd16, Rd32, Rd64;
  }

  lemma HalfBack(v: nat)
    requires v < 0x1_0000
    ensures v % 256 + 256 * (v / 256 % 256) == v
  {
  }

  // ----- what is refused -----

  /** A file loads exactly if both signatures are there, the magic is one of two, and all headers are in the file. */
  lemma LoadsIff(data: seq<byte>)
    ensures Load(data).Some? <==>
            && |data| >= 0x40 && data[0] == 0x4d && data[1] == 0x5a
            && var e := Rd32(data, 0x3c).value;
               && e + 26 <= |data| && data[e..e + 4] == [0x50, 0x45, 0, 0]
               && var (count, optional) := (Rd16(data, e + 6).value, Rd16(data, e + 20).value);
                  var magic := Rd16(data, e + 24).value;
                  && e + 24 + optional + 40 * count <= |data|
                  && ((magic == 0x10b && e + 56 <= |data|) || (magic == 0x20b && e + 56 <= |data|))
  {
    if IsPe(data) && ImageBase(data).Some? && SectionTable(data).Some? {
      HeadersIff(data, SectionTable(data).value.start, SectionTable(data).value.count);
    }
  }

  lemma {:induction false} HeadersIff(data: seq<byte>, start: nat, n: nat)
    requires start <= |data|
    ensures Headers(data, start, n).Some? <==> start + 40 * n <= |data|
  {
    hide HeaderAt;
    if n > 0 { HeadersIff(data, start, n - 1); }
  }

  // ----- what a loaded section is -----

  lemma HighPowers()
    ensures Pow2(29) == 0x2000_0000 && Pow2(30) == 0x4000_0000 && Pow2(31) == 0x8000_0000
  {
    Pow2Of15();
    SmallPowers();
    Pow2Add(15, 14);
    Pow2Add(1, 13);
    Pow2Add(1, 29);
    Pow2Add(1, 30);
  }

  /** The permissions are bits 29 to 31 of the section flags; what can be run can be read. */
  lemma Permissions(data: seq<byte>, base: nat, h: Header)
    ensures var b := BlockOf(data, base, h);
            && (b.executable <==> h.flags / 0x2000_0000 % 2 == 1)
            && (b.readable <==> h.flags / 0x4000_0000 % 2 == 1 || h.flags / 0x2000_0000 % 2 == 1)
            && (b.writable <==> h.flags / 0x8000_0000 % 2 == 1)
  {
    HighPowers();
    ShrIsDiv(h.flags, 29);
    ShrIsDiv(h.flags, 30);
    ShrIsDiv(h.flags, 31);
    hide Shr, Pow2, Contents;
  }

  /** Every byte of a section's virtual size and raw size is in memory, and no other. */
  lemma SectionExtent(f: Front, h: Header, k: nat)
    requires Writable(f, [h]) && f.base + h.rva + Max(h.virtualSize, h.rawSize) < U64
    requires f.base + h.rva + k < U64
    ensures var data := FileOf(f, [h]);
            Load(data).Some? &&
            (ReadVa(Load(data).value.blocks, f.base + h.rva + k, 1).Some? <==> k < h.virtualSize || k < h.rawSize)
  {
    var va := f.base + h.rva + k;
    FileLoads(f, [h]);
    OneSection(FileOf(f, [h]), f.base, h, va);
    hide FileOf, Load, ReadVa, Blocks, BlockOf, WrapAdd;
  }

  lemma OneSection(data: seq<byte>, base: nat, h: Header, va: nat)
    ensures ReadVa(Blocks(data, base, [h]), va, 1).Some? <==> InSection(SectionOf(base, h), va)
  {
    hide ReadVa, Blocks, SectionOf, InSection;
    ReadsFirstSpanning(data, base, [h], va, 1);
    assert Sections(base, [h]) == [SectionOf(base, h)];
  }

  // ----- files on which memory, translation and file differ -----

  /** A file of one section that ends with the address space: its last byte translates one way and not the other. */
  lemma LastAddressDiffers()
    ensures var data := FileOf(Plain(U64 - 0x1000), [Header(0x1000, 0, 0x1000, 0, 0)]);
            Load(data).Some? && Load(data).value.base + 0xfff == U64 - 1 &&
            RvaToFile(data, 0xfff) == Some(0xfff) && VaToFileOffset(Load(data).value.sections, U64 - 1) == None
  {
    var h, base := Header(0x1000, 0, 0x1000, 0, 0), U64 - 0x1000;
    var data := FileOf(Plain(base), [h]);
    FileLoads(Plain(base), [h]);
    FileFront(Plain(base), [h]);
    WrittenHeaders(Plain(base), [h], 1);
    HeadersAt(data, 0x78, 1, 0);
    assert [h][..1] == [h];
    hide FileOf, Load;
    SearchesAgree(data, base, Table(0x78, 1), [h], 0, 0xfff);
    assert Sections(base, [h])[0..] == Sections(base, [h]);
    assert RvaSearch(data, Table(0x78, 1), 0, 0xfff) == Some(0xfff);
  }

  /** One byte read at an address of the first section, in a file that holds these headers. */
  lemma FirstSectionRead(base: nat, hs: seq<Header>, va: nat)
    requires Writable(Plain(base), hs) && hs != [] && InSection(SectionOf(base, hs[0]), va)
    ensures var data, s := FileOf(Plain(base), hs), SectionOf(base, hs[0]);
            Load(data).Some? && Load(data).value.sections == Sections(base, hs) &&
            ReadVa(Load(data).value.blocks, va, 1) == Some([HeldByte(data, s, va - s.va)])
  {
    hide FileOf, Load, ReadVa, SectionOf, BlockOf, Blocks, HeldByte, InSection;
    FileLoads(Plain(base), hs);
    assert FirstSpanning(Sections(base, hs), va) == 0;
    FirstByteRead(FileOf(Plain(base), hs), base, hs, va);
  }

  lemma FirstByteRead(data: seq<byte>, base: nat, hs: seq<Header>, va: nat)
    requires hs != [] && FirstSpanning(Sections(base, hs), va) == 0
    ensures InSection(SectionOf(base, hs[0]), va)
    ensures ReadVa(Blocks(data, base, hs), va, 1) ==
            Some([HeldByte(data, SectionOf(base, hs[0]), va - SectionOf(base, hs[0]).va)])
  {
    hide ReadVa, SectionOf, Blocks, HeldByte, FirstSpanning;
    ReadsFirstSpanning(data, base, hs, va, 1);
    var read := ReadVa(Blocks(data, base, hs), va, 1).value;
    assert read == [read[0]];
  }

  /**
   * A file whose raw data runs past its end: nothing of it is loaded, so memory holds zero instead of the file byte.
   */
  lemma TruncatedRawDiffers(base: nat, h: Header)
    requires base == 0x1000 && h == Header(0x1000, 0, 0x1000, 0, 0)
    ensures var data := FileOf(Plain(base), [h]);
            Load(data).Some? && Disjoint(Load(data).value.sections) &&
            ReadVa(Load(data).value.blocks, base, 1) == Some([0]) &&
              FileByte(data, Load(data).value.sections, base) == 0x4d
  {
    var hs := [h];
    var data := FileOf(Plain(base), hs);
    FirstByteIs(Plain(base), hs);
    var s := SectionOf(base, h);
    assert s == Section(base, 0x1000, 0x1000, 0);
    FirstSectionRead(base, hs, base);
    hide FileOf, Load, ReadVa, VaToFileOffset, FirstRaw, FirstSpanning, SectionOf;
    assert Sections(base, hs) == [s];
    OneTranslates(data, s);
  }

  lemma FirstByteIs(f: Front, hs: seq<Header>)
    requires FrontOk(f)
    ensures |FileOf(f, hs)| == f.pe + 24 + f.optional + 40 * |hs| && FileOf(f, hs)[0] == 0x4d
  {
  }

  lemma OneTranslates(data: seq<byte>, s: Section)
    requires data != [] && data[0] == 0x4d && s == Section(0x1000, 0x1000, 0x1000, 0)
    ensures FileByte(data, [s], 0x1000) == 0x4d
  {
    hide VaToFileOffset;
    TranslatesByFirstRaw([s], 0x1000);
  }

  /** In overlapping sections an address translates by the later one where the earlier has only zero fill. */
  lemma SecondTranslates(data: seq<byte>, base: nat, sections: seq<Section>)
    requires data != [] && data[0] == 0x4d && base == 0x1000
    requires sections == [Section(base, 0x20, 0x10, 0), Section(base + 0x10, 0x10, 0x10, 0)]
    ensures FileByte(data, sections, base + 0x10) == 0x4d
  {
    hide VaToFileOffset;
    TranslatesByFirstRaw(sections, base + 0x10);
  }

  /** A file of two sections that overlap: the zero fill of the first hides the raw data of the second. */
  lemma OverlapDiffers(base: nat, hs: seq<Header>)
    requires base == 0x1000 && hs == [Header(0x20, 0, 0x10, 0, 0), Header(0x10, 0x10, 0x10, 0, 0)]
    ensures var data := FileOf(Plain(base), hs);
            Load(data).Some? && RawInFile(data, Load(data).value.sections) &&
            ReadVa(Load(data).value.blocks, base + 0x10, 1) == Some([0]) &&
            FileByte(data, Load(data).value.sections, base + 0x10) == 0x4d
  {
    var data := FileOf(Plain(base), hs);
    assert data[0] == 0x4d;
    hide FileOf, Load, ReadVa, VaToFileOffset, Blocks, FileByte, FirstSpanning, FirstRaw;
    assert SectionOf(base, hs[0]) == Section(base, 0x20, 0x10, 0);
    assert SectionOf(base, hs[1]) == Section(base + 0x10, 0x10, 0x10, 0);
    FirstSectionRead(base, hs, base + 0x10);
    assert Sections(base, hs) == [SectionOf(base, hs[0]), SectionOf(base, hs[1])];
    SecondTranslates(data, base, Sections(base, hs));
  }
}
