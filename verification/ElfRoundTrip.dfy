/** The reader undoes the writer: every ELF image reads back as the sections, symbols and
    relocations it was built from. */
module ElfRoundTrip {
  import opened Arith
  import opened Bytes
  import opened Bits
  import opened Names
  import opened Objects
  import opened StringTable
  import opened ElfFormat
  import opened ElfSpec
  import opened ElfReader

  // ------------------------------------------------- layout refines emission

  /** The layout loop never places a chunk before the end of the previous one, for any
      alignments whatsoever, and its position covers everything placed so far. */
  lemma {:induction false} LayoutOrdered(c: Class, ds: seq<SecDesc>, k: nat)
    requires k <= |ds|
    ensures Ordered(EhdrSize(c), Placements(c, ds, k))
    ensures End(EhdrSize(c), Placements(c, ds, k)) <= Pos(c, ds, k)
  {
    if k > 1 {
      LayoutOrdered(c, ds, k - 1);
      AlignUpBounds(Pos(c, ds, k - 1), ds[k - 1].align);
      var front := Placements(c, ds, k - 1);
      var ps := Placements(c, ds, k);
      if HasBytes(ds[k - 1]) { assert ps[..|ps| - 1] == front; } else { assert ps == front; }
    }
  }

  lemma {:induction false} PosMonotone(c: Class, ds: seq<SecDesc>, j: nat, k: nat)
    requires j <= k <= |ds|
    ensures Pos(c, ds, j) <= Pos(c, ds, k)
  {
    if j < k {
      PosMonotone(c, ds, j, k - 1);
      if k > 1 { AlignUpBounds(Pos(c, ds, k - 1), ds[k - 1].align); }
    }
  }

  lemma FileOffBound(c: Class, ds: seq<SecDesc>, k: nat)
    requires k < |ds|
    ensures FileOff(c, ds, k) <= Pos(c, ds, |ds|) <= Shoff(c, ds)
  {
    PosMonotone(c, ds, k + 1, |ds|);
    AlignUpBounds(Pos(c, ds, |ds|), Word(c));
    if k == 0 { PosMonotone(c, ds, 0, |ds|); }
  }

  /** Contents, and sections that only reserve space, start at a multiple of a power-of-two
      alignment, and the padding in front of them is shorter than the alignment. */
  lemma OffsetAligned(c: Class, ds: seq<SecDesc>, k: nat)
    requires 1 <= k < |ds| && (ds[k].shType == SHT_NOBITS || ds[k].data != [])
    ensures IsPow2(ds[k].align) ==> FileOff(c, ds, k) % ds[k].align == 0
    ensures Pos(c, ds, k) <= FileOff(c, ds, k)
    ensures FileOff(c, ds, k) < Pos(c, ds, k) + if ds[k].align > 0 then ds[k].align else 1
  {
    AlignUpBounds(Pos(c, ds, k), ds[k].align);
    if IsPow2(ds[k].align) { AlignUpLeast(Pos(c, ds, k), ds[k].align, 0); }
  }

  lemma {:induction false} PlacementOf(c: Class, ds: seq<SecDesc>, n: nat, k: nat)
    requires 1 <= k < n <= |ds| && HasBytes(ds[k])
    ensures Placement(FileOff(c, ds, k), ds[k].data) in Placements(c, ds, n)
  {
    if k < n - 1 { PlacementOf(c, ds, n - 1, k); }
  }

  /** b is a faithful image of descriptors ds under header record eh and name table t. */
  ghost predicate Laid(b: seq<byte>, c: Class, eh: Record, ds: seq<SecDesc>, t: StrTable) {
    && (forall i | 0 <= i < |ds| :: ds[i].name in t.offsets)
    && Shaped(EhdrShape(c), eh)
    && At(b, 0, Join(eh))
    && At(b, Shoff(c, ds), Table(HeaderRecords(c, ds, t.offsets)))
    && (forall k | 1 <= k < |ds| && HasBytes(ds[k]) :: At(b, FileOff(c, ds, k), ds[k].data))
  }

  lemma ChunksOrdered(c: Class, ds: seq<SecDesc>, table: seq<byte>)
    ensures Ordered(EhdrSize(c), AllChunks(c, ds, table))
    ensures End(EhdrSize(c), AllChunks(c, ds, table)) == Shoff(c, ds) + |table|
  {
    var chunks := AllChunks(c, ds, table);
    LayoutOrdered(c, ds, |ds|);
    AlignUpBounds(Pos(c, ds, |ds|), Word(c));
    assert chunks[..|chunks| - 1] == Placements(c, ds, |ds|);
  }

  /** Emission puts every chunk where the layout predicted it, and the file ends right
      after the section headers. */
  lemma EmissionLaid(c: Class, eh: Record, ds: seq<SecDesc>, t: StrTable)
    requires forall i | 0 <= i < |ds| :: ds[i].name in t.offsets
    requires Shaped(EhdrShape(c), eh)
    ensures var b := FileOf(c, Join(eh), ds, t.offsets);
            && Laid(b, c, eh, ds, t) && |b| == Shoff(c, ds) + |ds| * ShdrSize(c)
            && ZeroBetween(b, EhdrSize(c), AllChunks(c, ds, Table(HeaderRecords(c, ds, t.offsets))))
  {
    var recs := HeaderRecords(c, ds, t.offsets);
    EhdrWidth(c);
    SplitJoin(EhdrShape(c), eh);
    EmissionPlaces(c, Join(eh), ds, Table(recs));
    ShdrWidth(c);
    TableSize(ShdrShape(c), recs);
  }

  /** Bytes at or behind start that belong to no chunk are zero. */
  ghost predicate ZeroBetween(b: seq<byte>, start: nat, chunks: seq<Placement>) {
    forall x | start <= x < |b| && !Covered(chunks, x) :: b[x] == 0
  }

  lemma EmissionPlaces(c: Class, eh: seq<byte>, ds: seq<SecDesc>, table: seq<byte>)
    requires |eh| == EhdrSize(c)
    ensures var b := Emit(eh, AllChunks(c, ds, table));
            && At(b, 0, eh) && At(b, Shoff(c, ds), table) && |b| == Shoff(c, ds) + |table|
            && (forall k | 1 <= k < |ds| && HasBytes(ds[k]) :: At(b, FileOff(c, ds, k), ds[k].data))
            && ZeroBetween(b, |eh|, AllChunks(c, ds, table))
  {
    var chunks := AllChunks(c, ds, table);
    var b := Emit(eh, chunks);
    ChunksOrdered(c, ds, table);
    EmitPlaces(eh, chunks);
    ChunksAt(b, c, ds, chunks);
    var last := |chunks| - 1;
    assert At(b, chunks[last].off, chunks[last].data);
  }

  lemma ChunksAt(b: seq<byte>, c: Class, ds: seq<SecDesc>, chunks: seq<Placement>)
    requires Placements(c, ds, |ds|) <= chunks
    requires forall k | 0 <= k < |chunks| :: At(b, chunks[k].off, chunks[k].data)
    ensures forall k | 1 <= k < |ds| && HasBytes(ds[k]) :: At(b, FileOff(c, ds, k), ds[k].data)
  {
    forall k | 1 <= k < |ds| && HasBytes(ds[k]) ensures At(b, FileOff(c, ds, k), ds[k].data) {
      PlacementOf(c, ds, |ds|, k);
      var i :| 0 <= i < |Placements(c, ds, |ds|)| &&
               Placements(c, ds, |ds|)[i] == Placement(FileOff(c, ds, k), ds[k].data);
      assert chunks[i] == Placements(c, ds, |ds|)[i];
    }
  }

  // ------------------------------------------------------------ reading headers

  /** Every number fits the field it is written to. */
  ghost predicate DescFits(c: Class, d: SecDesc) {
    && d.shType < 0x1_0000_0000
    && d.flags < 0x1_0000_0000
    && d.link < 0x1_0000_0000
    && d.info < 0x1_0000_0000
    && d.align < 0x1_0000_0000
    && d.entSize < 0x100
    && d.noSize < Pow256(Word(c))
  }

  ghost predicate Fits(b: seq<byte>, c: Class, ds: seq<SecDesc>, t: StrTable) {
    && 0 < |ds| < 0xFF00
    && |b| < Pow256(Word(c))
    && |t.data| <= 0x1_0000_0000
    && (forall k | 0 <= k < |ds| :: DescFits(c, ds[k]))
  }

  lemma HeaderFrom(b: seq<byte>, c: Class, osabi: u8, f: Record, machine: nat, shoff: nat, n: nat, last: nat)
    requires Shaped(EhdrShape(c), f) && At(b, 0, Join(f)) && f[0] == Ident(c, osabi)
    requires FromLE(f[1]) == ET_REL && FromLE(f[2]) == machine && FromLE(f[6]) == shoff
    requires FromLE(f[11]) == ShdrSize(c) && FromLE(f[12]) == n && FromLE(f[13]) == last
    ensures ReadHeader(b) == Some(Header(c, osabi, machine, shoff, ShdrSize(c), n, last))
  {
    ReadJoined(EhdrShape(c), b, 0, f);
    IdentReads(b, c, osabi, f);
  }

  lemma HeaderReads(b: seq<byte>, c: Class, osabi: u8, machine: u16, shoff: nat, n: u16, last: u16)
    requires At(b, 0, Join(EhdrRecord(c, osabi, machine, shoff, n, last))) && shoff < Pow256(Word(c))
    ensures ReadHeader(b) == Some(Header(c, osabi, machine, shoff, ShdrSize(c), n, last))
  {
    EhdrFieldsRead(c, osabi, machine, shoff, n, last);
    HeaderFrom(b, c, osabi, EhdrRecord(c, osabi, machine, shoff, n, last), machine, shoff, n, last);
  }

  lemma EhdrFieldsRead(c: Class, osabi: u8, machine: u16, shoff: nat, shnum: u16, shstrndx: u16)
    requires shoff < Pow256(Word(c))
    ensures var f := EhdrRecord(c, osabi, machine, shoff, shnum, shstrndx);
            && FromLE(f[1]) == ET_REL && FromLE(f[2]) == machine && FromLE(f[6]) == shoff
            && FromLE(f[11]) == ShdrSize(c) && FromLE(f[12]) == shnum && FromLE(f[13]) == shstrndx
  {
    Pow256Values();
    LEFits(2, ET_REL);
    LEFits(2, machine);
    LEFits(Word(c), shoff);
    LEFits(2, ShdrSize(c));
    LEFits(2, shnum);
    LEFits(2, shstrndx);
  }

  lemma IdentReads(b: seq<byte>, c: Class, osabi: u8, eh: Record)
    requires Shaped(EhdrShape(c), eh) && eh[0] == Ident(c, osabi) && At(b, 0, Join(eh))
    ensures Sub(b, 0, 16) == Some(Ident(c, osabi))
    ensures ReadClass(Ident(c, osabi)) == Some(c)
  {
    assert Join(eh)[..16] == eh[0];
    assert b[0..16] == Join(eh)[..16];
    assert Ident(c, osabi)[..4] == [0x7F, 0x45, 0x4C, 0x46];
  }

  /** Header k reads back with every field of descriptor d, and leads to its bytes. */
  ghost predicate Seen(b: seq<byte>, h: Header, k: nat, d: SecDesc, name: nat) {
    var r := ReadShdr(b, h, k);
    && r.Some?
    && r.value.name == name && r.value.shType == d.shType && r.value.flags == d.flags
    && r.value.size == DescSize(d) && r.value.link == d.link && r.value.info == d.info
    && r.value.align == d.align && r.value.entsize == d.entSize
    && Contents(b, r.value) == Some(d.data)
  }

  lemma DescSizeFits(b: seq<byte>, c: Class, eh: Record, ds: seq<SecDesc>, t: StrTable, k: nat)
    requires Laid(b, c, eh, ds, t) && Fits(b, c, ds, t) && k < |ds| && (k == 0 ==> ds[0].data == [])
    ensures DescSize(ds[k]) < Pow256(Word(c)) && FileOff(c, ds, k) < Pow256(Word(c))
  {
    FileOffBound(c, ds, k);
    assert DescFits(c, ds[k]);
  }

  lemma ShdrReads(b: seq<byte>, h: Header, eh: Record, ds: seq<SecDesc>, t: StrTable, k: nat)
    requires Laid(b, h.class_, eh, ds, t) && Fits(b, h.class_, ds, t) && t.Sound() && Sane(ds)
    requires h.shoff == Shoff(h.class_, ds) && h.shentsize == ShdrSize(h.class_) && h.shnum == |ds|
    requires k < |ds|
    ensures Seen(b, h, k, ds[k], t.offsets[ds[k].name])
  {
    var c := h.class_;
    var recs := HeaderRecords(c, ds, t.offsets);
    ShdrWidth(c);
    ReadTable(ShdrShape(c), b, h.shoff, recs, k);
    DescSizeFits(b, c, eh, ds, t, k);
    ContentsRead(b, c, eh, ds, t, k);
    ShdrFieldsRead(c, ds[k].(fileOff := FileOff(c, ds, k)), t, ds[k].name);
  }

  /** Sections without file bytes carry no data. */
  predicate Sane(ds: seq<SecDesc>) {
    |ds| > 0 && ds[0].data == [] && forall k | 0 <= k < |ds| && ds[k].shType == SHT_NOBITS :: ds[k].data == []
  }

  lemma ContentsRead(b: seq<byte>, c: Class, eh: Record, ds: seq<SecDesc>, t: StrTable, k: nat)
    requires Laid(b, c, eh, ds, t) && Sane(ds) && k < |ds|
    ensures ds[k].shType != SHT_NOBITS ==> Sub(b, FileOff(c, ds, k), |ds[k].data|) == Some(ds[k].data)
  {
    var off, d := FileOff(c, ds, k), ds[k];
    FileOffBound(c, ds, k);
    if HasBytes(d) {
      assert k > 0;
      assert At(b, off, d.data);
      SubAt(b, off, d.data);
    } else if d.shType != SHT_NOBITS {
      assert off <= Shoff(c, ds) <= |b|;
      SubNothing(b, off);
    }
  }

  lemma ShdrFieldsRead(c: Class, d: SecDesc, t: StrTable, n: Name)
    requires DescFits(c, d) && DescSize(d) < Pow256(Word(c)) && d.fileOff < Pow256(Word(c))
    requires t.Sound() && n in t.offsets && |t.data| <= 0x1_0000_0000
    ensures var f := ShdrRecord(c, d, t.offsets[n]);
            && FromLE(f[0]) == t.offsets[n] && FromLE(f[1]) == d.shType && FromLE(f[2]) == d.flags
            && FromLE(f[4]) == d.fileOff && FromLE(f[5]) == DescSize(d) && FromLE(f[6]) == d.link
            && FromLE(f[7]) == d.info && FromLE(f[8]) == d.align && FromLE(f[9]) == d.entSize
  {
    Pow256Values();
    assert Terminated(t.data, t.offsets[n], n);
    var w := Word(c);
    assert Pow256(w) >= 0x1_0000_0000;
    LEFits(4, t.offsets[n]);
    LEFits(4, d.shType);
    LEFits(w, d.flags);
    LEFits(w, d.fileOff);
    LEFits(w, DescSize(d));
    LEFits(4, d.link);
    LEFits(4, d.info);
    LEFits(w, d.align);
    LEFits(w, d.entSize);
  }

  /** What the reader sees of descriptors ds, section by section. */
  ghost predicate Readable(b: seq<byte>, h: Header, ds: seq<SecDesc>, names: map<Name, nat>) {
    && h.shnum == |ds| && h.shstrndx == |ds| - 1
    && (forall k | 0 <= k < |ds| :: ds[k].name in names)
    && forall k: nat | k < |ds| :: Seen(b, h, k, ds[k], names[ds[k].name])
  }

  lemma ImageReadable(b: seq<byte>, h: Header, eh: Record, ds: seq<SecDesc>, t: StrTable)
    requires Laid(b, h.class_, eh, ds, t) && Fits(b, h.class_, ds, t) && t.Sound() && Sane(ds)
    requires h.shoff == Shoff(h.class_, ds) && h.shentsize == ShdrSize(h.class_)
    requires h.shnum == |ds| && h.shstrndx == |ds| - 1
    ensures Readable(b, h, ds, t.offsets)
  {
    forall k: nat | k < |ds| ensures Seen(b, h, k, ds[k], t.offsets[ds[k].name]) {
      ShdrReads(b, h, eh, ds, t, k);
    }
  }

  // ----------------------------------------------------------- reading sections

  /** Stated as an implication: its callers have the premise as it stands. */
  lemma StringReads(b: seq<byte>, h: Header, s: nat, d: SecDesc, name: nat, t: StrTable, n: Name)
    requires d.data == t.data && t.Sound() && n in t.offsets && NulFree(n)
    ensures Seen(b, h, s, d, name) ==> StringAt(b, h, s, t.offsets[n]) == Some(n)
  {
    SoundReads(t, n);
  }

  function ViewOf(d: SecDesc): SectionView {
    SectionView(d.name, d.shType, d.flags, d.align, d.link, d.info, d.entSize, DescSize(d), d.data)
  }

  function ViewsOf(ds: seq<SecDesc>): (vs: seq<SectionView>)
    ensures |vs| == |ds| && forall i | 0 <= i < |ds| :: vs[i] == ViewOf(ds[i])
  {
    seq(|ds|, i requires 0 <= i < |ds| => ViewOf(ds[i]))
  }

  lemma SectionReads(b: seq<byte>, h: Header, i: nat, d: SecDesc, strs: SecDesc, t: StrTable)
    requires t.Sound() && strs.data == t.data && d.name in t.offsets && strs.name in t.offsets && NulFree(d.name)
    ensures Seen(b, h, i, d, t.offsets[d.name]) && Seen(b, h, h.shstrndx, strs, t.offsets[strs.name]) ==>
              ReadSection(b, h, i) == Some(ViewOf(d))
  {
    StringReads(b, h, h.shstrndx, strs, t.offsets[strs.name], t, d.name);
  }

  lemma SectionsCollected(b: seq<byte>, h: Header, vs: seq<SectionView>)
    requires |vs| == h.shnum && forall i: nat | i < |vs| :: ReadSection(b, h, i) == Some(vs[i])
    ensures ReadSections(b, h) == Some(vs)
  {
    CollectAll(|vs|, (i: nat) => ReadSection(b, h, i), vs);
  }

  /** Every descriptor, null section included, reads back by name, header and bytes. */
  lemma SectionsRead(b: seq<byte>, h: Header, ds: seq<SecDesc>, t: StrTable)
    requires Readable(b, h, ds, t.offsets) && t.Sound()
    requires |ds| > 0 && ds[|ds| - 1].data == t.data
    requires forall k | 0 <= k < |ds| :: NulFree(ds[k].name)
    ensures ReadSections(b, h) == Some(ViewsOf(ds))
  {
    var strs := ds[|ds| - 1];
    forall i: nat | i < |ds| ensures ReadSection(b, h, i) == Some(ViewOf(ds[i])) {
      SectionReads(b, h, i, ds[i], strs, t);
    }
    SectionsCollected(b, h, ViewsOf(ds));
  }

  // ------------------------------------------------------------ reading symbols

  function SymbolViewOf(r: Row): SymbolView {
    SymbolView(r.name, r.info / 16, r.info % 16, r.shndx, r.value, r.size, 0)
  }

  function SymbolViewsOf(rows: seq<Row>): (vs: seq<SymbolView>)
    ensures |vs| == |rows| && forall i | 0 <= i < |rows| :: vs[i] == SymbolViewOf(rows[i])
  {
    seq(|rows|, i requires 0 <= i < |rows| => SymbolViewOf(rows[i]))
  }

  predicate RowFits(r: Row) {
    r.info < 0x100 && r.shndx < 0x1_0000 && r.value < 0x1_0000_0000 && r.size < 0x1_0000_0000 && NulFree(r.name)
  }

  /** Section m reads as the symbol table of rows, with its strings in section s. */
  ghost predicate SymtabSeen(b: seq<byte>, h: Header, m: nat, s: nat, rows: seq<Row>, t: StrTable) {
    && (forall i | 0 <= i < |rows| :: rows[i].name in t.offsets && RowFits(rows[i]))
    && t.Sound() && |t.data| <= 0x1_0000_0000
    && TableSeen(b, h, m, SymShape(h.class_), SymRecords(h.class_, Stamp(rows, t.offsets)))
    && ReadShdr(b, h, m).value.link == s
    && (forall n | n in t.offsets && NulFree(n) :: StringAt(b, h, s, t.offsets[n]) == Some(n))
  }

  /** Section q's contents read as the table recs of records of shape ws. */
  ghost predicate TableSeen(b: seq<byte>, h: Header, q: nat, ws: seq<nat>, recs: seq<Record>) {
    && AllShaped(ws, recs)
    && ReadShdr(b, h, q).Some?
    && var sh := ReadShdr(b, h, q).value;
       sh.entsize == Width(ws) && Entries(sh) == |recs| && At(b, sh.offset, Table(recs))
  }

  lemma TableIsSeen(b: seq<byte>, h: Header, q: nat, d: SecDesc, name: nat, ws: seq<nat>, recs: seq<Record>)
    requires Seen(b, h, q, d, name) && d.shType != SHT_NOBITS
    requires AllShaped(ws, recs) && d.data == Table(recs) && d.entSize == Width(ws) > 0
    ensures TableSeen(b, h, q, ws, recs)
  {
    EntryCount(ws, recs);
  }

  lemma EntryReads(b: seq<byte>, h: Header, q: nat, ws: seq<nat>, recs: seq<Record>, k: nat)
    requires TableSeen(b, h, q, ws, recs) && k < |recs|
    ensures var sh := ReadShdr(b, h, q).value;
            ReadRecord(ws, b, Slot(sh.offset, k, sh.entsize)) == Some(recs[k])
  {
    ReadTable(ws, b, ReadShdr(b, h, q).value.offset, recs, k);
  }

  lemma Quotient(n: nat, w: nat)
    requires w > 0
    ensures (n * w) / w == n
  {
    DivModUnique(n * w, w, n, 0);
  }

  lemma EntryCount(ws: seq<nat>, recs: seq<Record>)
    requires AllShaped(ws, recs) && Width(ws) > 0
    ensures |Table(recs)| / Width(ws) == |recs|
  {
    TableSize(ws, recs);
    Quotient(|recs|, Width(ws));
  }

  lemma SymFieldsRead(c: Class, r: Row, off: nat)
    requires RowFits(r) && off < 0x1_0000_0000
    ensures var f := SymRecord(c, Sym(off, r.info, r.shndx, r.value, r.size));
            && FromLE(f[0]) == off
            && (c.Elf64? ==> FromLE(f[1]) == r.info && FromLE(f[2]) == 0 && FromLE(f[3]) == r.shndx
                             && FromLE(f[4]) == r.value && FromLE(f[5]) == r.size)
            && (c.Elf32? ==> FromLE(f[3]) == r.info && FromLE(f[4]) == 0 && FromLE(f[5]) == r.shndx
                             && FromLE(f[1]) == r.value && FromLE(f[2]) == r.size)
  {
    Pow256Values();
    var w := Word(c);
    LEFits(4, off);
    LEFits(1, r.info);
    LEFits(1, 0);
    LEFits(2, r.shndx);
    LEFits(w, r.value);
    LEFits(w, r.size);
  }

  lemma SymbolFrom(b: seq<byte>, h: Header, m: nat, k: nat, sh: Shdr, f: Record, r: Row)
    requires ReadShdr(b, h, m) == Some(sh) && k < Entries(sh)
    requires ReadRecord(SymShape(h.class_), b, Slot(sh.offset, k, sh.entsize)) == Some(f)
    requires StringAt(b, h, sh.link, FromLE(f[0])) == Some(r.name)
    requires h.class_.Elf64? ==> FromLE(f[1]) == r.info && FromLE(f[2]) == 0 && FromLE(f[3]) == r.shndx
                                 && FromLE(f[4]) == r.value && FromLE(f[5]) == r.size
    requires h.class_.Elf32? ==> FromLE(f[3]) == r.info && FromLE(f[4]) == 0 && FromLE(f[5]) == r.shndx
                                 && FromLE(f[1]) == r.value && FromLE(f[2]) == r.size
    ensures ReadSymbol(b, h, m, k) == Some(SymbolViewOf(r))
  {
  }

  lemma SymbolReads(b: seq<byte>, h: Header, m: nat, s: nat, rows: seq<Row>, t: StrTable, k: nat)
    requires k < |rows|
    ensures SymtabSeen(b, h, m, s, rows, t) ==> ReadSymbol(b, h, m, k) == Some(SymbolViewOf(rows[k]))
  {
    if SymtabSeen(b, h, m, s, rows, t) {
      var recs := SymRecords(h.class_, Stamp(rows, t.offsets));
      EntryReads(b, h, m, SymShape(h.class_), recs, k);
      SoundReads(t, rows[k].name);
      SymFieldsRead(h.class_, rows[k], t.offsets[rows[k].name]);
      SymbolFrom(b, h, m, k, ReadShdr(b, h, m).value, recs[k], rows[k]);
    }
  }

  /** The symbol table reads back row by row, names included. */
  lemma SymbolsRead(b: seq<byte>, h: Header, m: nat, s: nat, rows: seq<Row>, t: StrTable)
    ensures SymtabSeen(b, h, m, s, rows, t) ==> ReadSymbols(b, h, m) == Some(SymbolViewsOf(rows))
  {
    if SymtabSeen(b, h, m, s, rows, t) {
      var f := (k: nat) => ReadSymbol(b, h, m, k);
      forall k: nat | k < |rows| ensures f(k) == Some(SymbolViewsOf(rows)[k]) {
        SymbolReads(b, h, m, s, rows, t, k);
      }
      CollectAll(|rows|, f, SymbolViewsOf(rows));
    }
  }

  // -------------------------------------------------------- reading relocations

  /** The relocation has a native type and its target a row. */
  predicate Targeted(machine: u16, rows: seq<Row>, index: map<Name, nat>, r: Reloc) {
    Resolvable(machine, index, r) && index[r.symbol] < |rows|
  }

  predicate AllTargeted(machine: u16, rows: seq<Row>, index: map<Name, nat>, rs: seq<Reloc>) {
    forall i | 0 <= i < |rs| :: Targeted(machine, rows, index, rs[i])
  }

  /** What a relocation means to a reader: its site, the symbol entry of its target, its
      native type and its explicit addend. */
  function RelocViewOf(machine: u16, rows: seq<Row>, index: map<Name, nat>, r: Reloc): RelocView
    requires Targeted(machine, rows, index, r)
  {
    RelocView(r.offset, index[r.symbol], SymbolViewOf(rows[index[r.symbol]]), RelocType(machine, r.kind).value,
              r.addend)
  }

  function RelocViewsOf(machine: u16, rows: seq<Row>, index: map<Name, nat>, rs: seq<Reloc>): (vs: seq<RelocView>)
    requires AllTargeted(machine, rows, index, rs)
    ensures |vs| == |rs| && forall i | 0 <= i < |rs| :: vs[i] == RelocViewOf(machine, rows, index, rs[i])
  {
    seq(|rs|, i requires 0 <= i < |rs| => RelocViewOf(machine, rows, index, rs[i]))
  }

  /** The addend and the type fit their fields: always so in ELF64. */
  predicate RelocFits(c: Class, machine: u16, r: Reloc) {
    && (c.Elf32? ==> -0x8000_0000 <= r.addend < 0x8000_0000)
    && (RelocType(machine, r.kind).Some? ==> RelocType(machine, r.kind).value < TypeLimit(c))
  }

  lemma RelaFieldsRead(c: Class, r: Reloc, machine: u16, sym: nat)
    requires RelocFits(c, machine, r) && RelocType(machine, r.kind).Some? && sym < SymLimit(c)
    ensures var rtype := RelocType(machine, r.kind).value;
            var f := RelaRecord(c, r.offset, RInfo(c, sym, rtype), r.addend);
            && FromLE(f[0]) == r.offset && InfoSym(c, FromLE(f[1])) == sym && InfoType(c, FromLE(f[1])) == rtype
            && Signed(Word(c), FromLE(f[2])) == r.addend
  {
    var rtype := RelocType(machine, r.kind).value;
    Pow256Word(c);
    RInfoFields(c, sym, rtype);
    LEFits(Word(c), r.offset);
    LEFits(Word(c), RInfo(c, sym, rtype));
    SignedFits(Word(c), r.addend);
  }

  /** The names map to rows of that name. */
  ghost predicate Points(index: map<Name, nat>, rows: seq<Row>) {
    forall n | n in index :: index[n] < |rows| && rows[index[n]].name == n
  }

  lemma RelocFrom(b: seq<byte>, h: Header, q: nat, k: nat, sh: Shdr, f: Record, v: RelocView)
    requires ReadShdr(b, h, q) == Some(sh)
    requires ReadRecord(RelaShape(h.class_), b, Slot(sh.offset, k, sh.entsize)) == Some(f)
    requires InfoSym(h.class_, FromLE(f[1])) == v.index && ReadSymbol(b, h, sh.link, v.index) == Some(v.sym)
    requires FromLE(f[0]) == v.offset && InfoType(h.class_, FromLE(f[1])) == v.rtype
    requires Signed(Word(h.class_), FromLE(f[2])) == v.addend
    ensures ReadReloc(b, h, q, k) == Some(v)
  {
  }

  lemma RelocReads(b: seq<byte>, h: Header, machine: u16, m: nat, s: nat, rows: seq<Row>, t: StrTable,
                   index: map<Name, nat>, q: nat, rs: seq<Reloc>, k: nat)
    requires SymtabSeen(b, h, m, s, rows, t) && |rows| <= SymLimit(h.class_)
    requires AllResolvable(machine, index, rs) && k < |rs| && RelocFits(h.class_, machine, rs[k])
    requires index[rs[k].symbol] < |rows|
    requires TableSeen(b, h, q, RelaShape(h.class_), RelaRecords(h.class_, machine, index, rs))
    requires ReadShdr(b, h, q).value.link == m
    ensures ReadReloc(b, h, q, k) == Some(RelocViewOf(machine, rows, index, rs[k]))
  {
    var recs := RelaRecords(h.class_, machine, index, rs);
    var target := index[rs[k].symbol];
    EntryReads(b, h, q, RelaShape(h.class_), recs, k);
    RelaFieldsRead(h.class_, rs[k], machine, target);
    SymbolReads(b, h, m, s, rows, t, target);
    RelocFrom(b, h, q, k, ReadShdr(b, h, q).value, recs[k], RelocViewOf(machine, rows, index, rs[k]));
  }

  lemma RelocsRead(b: seq<byte>, h: Header, machine: u16, m: nat, s: nat, rows: seq<Row>, t: StrTable,
                   index: map<Name, nat>, q: nat, rs: seq<Reloc>)
    requires SymtabSeen(b, h, m, s, rows, t) && |rows| <= SymLimit(h.class_)
    requires AllResolvable(machine, index, rs) && AllTargeted(machine, rows, index, rs)
    requires forall k | 0 <= k < |rs| :: RelocFits(h.class_, machine, rs[k])
    requires TableSeen(b, h, q, RelaShape(h.class_), RelaRecords(h.class_, machine, index, rs))
    requires ReadShdr(b, h, q).value.link == m
    ensures ReadRelocs(b, h, q) == Some(RelocViewsOf(machine, rows, index, rs))
  {
    var f := (k: nat) => ReadReloc(b, h, q, k);
    forall k: nat | k < |rs| ensures f(k) == Some(RelocViewsOf(machine, rows, index, rs)[k]) {
      assert Targeted(machine, rows, index, rs[k]);
      RelocReads(b, h, machine, m, s, rows, t, index, q, rs, k);
    }
    CollectAll(|rs|, f, RelocViewsOf(machine, rows, index, rs));
  }
}
