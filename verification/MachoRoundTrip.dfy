/** Layout and recovery of Mach-O object files: emission meets the predicted offsets, and the
    reader recovers what the writer was given. */
module MachoRoundTrip {
  import opened Bytes
  import opened Bits
  import opened Names
  import opened Objects
  import opened StringTable
  import opened Layout
  import opened MachoFormat
  import opened MachoSpec
  import R = MachoReader

  // ------------------------------------------------------------------- layout

  function BuildOff(x: Input): nat { HDR_SIZE + SegCmdLen(|x.secs|) }

  function SymtabOff(x: Input): nat { BuildOff(x) + BuildLen(x.build) }

  lemma PiecesAt(h: seq<byte>, s: seq<byte>, t: seq<byte>, v: seq<byte>, y: seq<byte>)
    ensures var p := h + s + t + v + y;
            && At(p, 0, h) && At(p, |h|, s) && At(p, |h| + |s|, t) && At(p, |h| + |s| + |t|, v)
            && At(p, |h| + |s| + |t| + |v|, y)
  {
    var p := h + s + t + v + y;
    AtEnd(h, s);
    AtEnd(h + s, t);
    AtEnd(h + s + t, v);
    AtEnd(h + s + t + v, y);
    assert h <= p && h + s <= p && h + s + t <= p && h + s + t + v <= p;
    assert At(h, 0, h);
    AtPrefix(h, 0, h, p);
    AtPrefix(h + s, |h|, s, p);
    AtPrefix(h + s + t, |h| + |s|, t, p);
    AtPrefix(h + s + t + v, |h| + |s| + |t|, v, p);
  }

  /** Pieces of the predicted sizes fill the header area. */
  lemma PiecesFill(x: Input, h: seq<byte>, s: seq<byte>, recs: seq<byte>, v: seq<byte>, y: seq<byte>)
    requires |h| == HDR_SIZE && |s| == SEG_CMD_SIZE && |recs| == |x.secs| * SECTION_SIZE
    requires |v| == BuildLen(x.build) && |y| == SYMTAB_CMD_SIZE
    ensures var p := h + s + recs + v + y;
            && |p| == DataStart(x) && At(p, 0, h) && At(p, HDR_SIZE, s) && At(p, HDR_SIZE + SEG_CMD_SIZE, recs)
            && At(p, BuildOff(x), v) && At(p, SymtabOff(x), y)
  {
    PiecesAt(h, s, recs, v, y);
  }

  /** Where the parts of the header area lie. */
  ghost predicate HeadLaid(b: seq<byte>, x: Input, t: Tables)
    requires Writable(x, t)
  {
    && At(b, 0, Join(FileHeader(x))) && At(b, HDR_SIZE, Join(SegmentCommand(x)))
    && At(b, HDR_SIZE + SEG_CMD_SIZE, Table(SectionRecords(x)))
    && At(b, BuildOff(x), BuildBytes(x.build))
    && At(b, SymtabOff(x), Join(SymtabCommand(x, |t.rows|, |t.strtab.data|)))
  }

  lemma PieceSizes(x: Input, t: Tables)
    requires Writable(x, t)
    ensures |Join(FileHeader(x))| == HDR_SIZE && |Join(SegmentCommand(x))| == SEG_CMD_SIZE
    ensures |Table(SectionRecords(x))| == |x.secs| * SECTION_SIZE && |BuildBytes(x.build)| == BuildLen(x.build)
    ensures |Join(SymtabCommand(x, |t.rows|, |t.strtab.data|))| == SYMTAB_CMD_SIZE
  {
    HdrWidth();
    SegCmdWidth();
    SectionWidth();
    SixWordsWidth();
    SplitJoin(HDR, FileHeader(x));
    SplitJoin(SEG_CMD, SegmentCommand(x));
    TableSize(SECTION, SectionRecords(x));
    SplitJoin(SIX_WORDS, SymtabCommand(x, |t.rows|, |t.strtab.data|));
    if x.build.Some? { SplitJoin(SIX_WORDS, BuildCommand(x.build.value)); }
  }

  lemma PreambleLaid(x: Input, t: Tables)
    requires Writable(x, t)
    ensures |Preamble(x, t)| == DataStart(x) && HeadLaid(Preamble(x, t), x, t)
  {
    PieceSizes(x, t);
    PiecesFill(x, Join(FileHeader(x)), Join(SegmentCommand(x)), Table(SectionRecords(x)), BuildBytes(x.build),
               Join(SymtabCommand(x, |t.rows|, |t.strtab.data|)));
  }

  lemma HeadStays(p: seq<byte>, b: seq<byte>, x: Input, t: Tables)
    requires Writable(x, t) && HeadLaid(p, x, t) && p <= b
    ensures HeadLaid(b, x, t)
  {
    AtPrefix(p, 0, Join(FileHeader(x)), b);
    AtPrefix(p, HDR_SIZE, Join(SegmentCommand(x)), b);
    AtPrefix(p, HDR_SIZE + SEG_CMD_SIZE, Table(SectionRecords(x)), b);
    AtPrefix(p, BuildOff(x), BuildBytes(x.build), b);
    AtPrefix(p, SymtabOff(x), Join(SymtabCommand(x, |t.rows|, |t.strtab.data|)), b);
  }

  lemma ChunkSize(x: Input, t: Tables, s: Section)
    requires AllResolvable(x.cpu, t.rows, t.index, s.relocs)
    ensures |ChunkData(x, t.rows, t.index, s)| == |s.code| + |s.relocs| * RELOC_SIZE
  {
    PairWidth();
    TableSize(RELOC, RelocRecords(x.cpu, t.rows, t.index, s.relocs));
  }

  lemma ChunksSized(x: Input, t: Tables)
    requires Writable(x, t)
    ensures Sized(Extents(x.secs), ChunkDatas(x, t))
  {
    forall k | 0 <= k < |x.secs| ensures |ChunkDatas(x, t)[k]| == Extents(x.secs)[k].size {
      ChunkSize(x, t, x.secs[k]);
    }
  }

  lemma NlistSize(rows: seq<Row>, offsets: map<Name, nat>)
    requires Stored(rows, offsets)
    ensures |Table(NlistRecords(rows, offsets))| == |rows| * NLIST_SIZE
  {
    NlistWidth();
    TableSize(NLIST, NlistRecords(rows, offsets));
  }

  lemma PlacementsOrdered(x: Input, t: Tables)
    requires Writable(x, t)
    ensures Ordered(DataStart(x), Placements(x, t))
    ensures End(DataStart(x), Placements(x, t)) == StrOff(x, |t.rows|) + |t.strtab.data|
  {
    var chunks := Chunks(DataStart(x), Extents(x.secs), ChunkDatas(x, t), |x.secs|);
    var nlists := Placement(SymOff(x), Table(NlistRecords(t.rows, t.strtab.offsets)));
    ChunksSized(x, t);
    ChunksLaid(DataStart(x), Extents(x.secs), ChunkDatas(x, t), |x.secs|);
    AppendOrdered(DataStart(x), chunks, nlists);
    NlistSize(t.rows, t.strtab.offsets);
    AppendOrdered(DataStart(x), chunks + [nlists], Placement(StrOff(x, |t.rows|), t.strtab.data));
  }

  /** What a file must hold where for the reader. */
  ghost predicate Laid(b: seq<byte>, x: Input, t: Tables)
    requires Writable(x, t)
  {
    && HeadLaid(b, x, t)
    && (forall k | 0 <= k < |x.secs| && !IsZerofill(x.secs[k]) ::
          At(b, DataOff(x, k), ChunkData(x, t.rows, t.index, x.secs[k])))
    && At(b, SymOff(x), Table(NlistRecords(t.rows, t.strtab.offsets)))
    && At(b, StrOff(x, |t.rows|), t.strtab.data)
  }

  lemma ChunkPlaced(x: Input, t: Tables, k: nat)
    requires Writable(x, t) && k < |x.secs| && !IsZerofill(x.secs[k])
    ensures Placement(DataOff(x, k), ChunkData(x, t.rows, t.index, x.secs[k])) in Placements(x, t)
  {
    ChunkAmong(DataStart(x), Extents(x.secs), ChunkDatas(x, t), |x.secs|, k);
  }

  /** Emission meets the predicted layout: header area, section data with its relocations,
      symbols and strings lie where the commands say, without overlap, and what lies
      between is zero. */
  lemma FileLaid(x: Input, t: Tables)
    requires Writable(x, t)
    ensures Laid(FileOf(x, t), x, t)
    ensures |FileOf(x, t)| == SymOff(x) + |t.rows| * NLIST_SIZE + |t.strtab.data|
    ensures forall p | DataStart(x) <= p < |FileOf(x, t)| && !Covered(Placements(x, t), p) :: FileOf(x, t)[p] == 0
  {
    var pre, ps, b := Preamble(x, t), Placements(x, t), FileOf(x, t);
    PreambleLaid(x, t);
    PlacementsOrdered(x, t);
    EmitPlaces(pre, ps);
    HeadStays(pre, b, x, t);
    forall k | 0 <= k < |x.secs| && !IsZerofill(x.secs[k])
      ensures At(b, DataOff(x, k), ChunkData(x, t.rows, t.index, x.secs[k]))
    {
      ChunkPlaced(x, t, k);
      EmittedAt(pre, ps, Placement(DataOff(x, k), ChunkData(x, t.rows, t.index, x.secs[k])));
    }
    EmittedAt(pre, ps, Placement(SymOff(x), Table(NlistRecords(t.rows, t.strtab.offsets))));
    EmittedAt(pre, ps, Placement(StrOff(x, |t.rows|), t.strtab.data));
  }

  // ------------------------------------------------------------------ symbols

  function SymbolViewOf(r: Row): R.SymbolView { R.SymbolView(RowString(r), r.ntype, r.sect, r.desc, r.value) }

  function SymbolViewsOf(rows: seq<Row>): (vs: seq<R.SymbolView>)
    ensures |vs| == |rows| && forall i | 0 <= i < |rows| :: vs[i] == SymbolViewOf(rows[i])
  {
    seq(|rows|, i requires 0 <= i < |rows| => SymbolViewOf(rows[i]))
  }

  predicate RowFits(r: Row) {
    r.ntype < 0x100 && r.sect < 0x100 && r.desc < 0x1_0000 && r.value < 0x1_0000_0000 && NulFree(r.name)
  }

  /** The symbol table st of the file is the table of rows. */
  ghost predicate RowsSeen(b: seq<byte>, st: R.Symtab, rows: seq<Row>, t: StrTable) {
    && st.nSyms == |rows| && st.strings == t.data && t.Sound() && |t.data| <= 0x1_0000_0000
    && Stored(rows, t.offsets) && (forall i | 0 <= i < |rows| :: RowFits(rows[i]))
    && At(b, st.symOff, Table(NlistRecords(rows, t.offsets)))
  }

  lemma NlistFieldsRead(r: Row, strx: nat)
    requires RowFits(r) && strx < 0x1_0000_0000
    ensures var f := NlistRecord(r, strx);
            && FromLE(f[0]) == strx && FromLE(f[1]) == r.ntype && FromLE(f[2]) == r.sect && FromLE(f[3]) == r.desc
            && FromLE(f[4]) == r.value
  {
    Pow256Values();
    LEFits(4, strx);
    LEFits(1, r.ntype);
    LEFits(1, r.sect);
    LEFits(2, r.desc);
    LEFits(8, r.value);
  }

  lemma RowStringFree(r: Row)
    requires NulFree(r.name)
    ensures NulFree(RowString(r))
  {
  }

  lemma StringReads(t: StrTable, n: Name)
    requires t.Sound() && n in t.offsets && NulFree(n) && |t.data| <= 0x1_0000_0000
    ensures CStr(t.data, t.offsets[n]) == Some(n) && t.offsets[n] < 0x1_0000_0000
  {
    SoundReads(t, n);
  }

  lemma SymbolFrom(b: seq<byte>, st: R.Symtab, k: nat, f: Record, v: R.SymbolView)
    requires k < st.nSyms && ReadRecord(NLIST, b, Slot(st.symOff, k, NLIST_SIZE)) == Some(f)
    requires CStr(st.strings, FromLE(f[0])) == Some(v.name)
    requires FromLE(f[1]) == v.ntype && FromLE(f[2]) == v.sect && FromLE(f[3]) == v.desc && FromLE(f[4]) == v.value
    ensures R.ReadSymbol(b, st, k) == Some(v)
  {
  }

  lemma SymbolReads(b: seq<byte>, st: R.Symtab, rows: seq<Row>, t: StrTable, k: nat)
    requires RowsSeen(b, st, rows, t) && k < |rows|
    ensures R.ReadSymbol(b, st, k) == Some(SymbolViewOf(rows[k]))
  {
    var r := rows[k];
    NlistWidth();
    ReadTable(NLIST, b, st.symOff, NlistRecords(rows, t.offsets), k);
    RowStringFree(r);
    StringReads(t, RowString(r));
    NlistFieldsRead(r, t.offsets[RowString(r)]);
    SymbolFrom(b, st, k, NlistRecord(r, t.offsets[RowString(r)]), SymbolViewOf(r));
  }

  lemma SymbolsRead(b: seq<byte>, st: R.Symtab, rows: seq<Row>, t: StrTable)
    requires RowsSeen(b, st, rows, t)
    ensures R.ReadSymbols(b, st) == Some(SymbolViewsOf(rows))
  {
    var f := (k: nat) => R.ReadSymbol(b, st, k);
    forall k: nat | k < |rows| ensures f(k) == Some(SymbolViewsOf(rows)[k]) { SymbolReads(b, st, rows, t, k); }
    CollectAll(|rows|, f, SymbolViewsOf(rows));
  }

  // ---------------------------------------------------------------- relocations

  /** What a relocation means to a reader. */
  function TargetOf(cpu: u32, rows: seq<Row>, index: map<Name, nat>, r: Reloc): R.Target
    requires Resolvable(cpu, rows, index, r)
  {
    var row := rows[index[r.symbol]];
    if ByName(cpu, row, Describe(cpu, r.kind).value) then R.ToSymbol(SymbolViewOf(row)) else R.ToSection(row.sect)
  }

  function RelocViewOf(cpu: u32, rows: seq<Row>, index: map<Name, nat>, r: Reloc): R.RelocView
    requires Resolvable(cpu, rows, index, r)
  {
    var d := Describe(cpu, r.kind).value;
    R.RelocView(r.offset, TargetOf(cpu, rows, index, r), d.pcrel, d.length, d.rtype)
  }

  function RelocViewsOf(cpu: u32, rows: seq<Row>, index: map<Name, nat>, rs: seq<Reloc>): (vs: seq<R.RelocView>)
    requires AllResolvable(cpu, rows, index, rs)
    ensures |vs| == |rs| && forall i | 0 <= i < |rs| :: vs[i] == RelocViewOf(cpu, rows, index, rs[i])
  {
    seq(|rs|, i requires 0 <= i < |rs| => RelocViewOf(cpu, rows, index, rs[i]))
  }

  lemma RelocFieldsRead(cpu: u32, rows: seq<Row>, index: map<Name, nat>, r: Reloc)
    requires Resolvable(cpu, rows, index, r) && |rows| <= 0x100_0000 && rows[index[r.symbol]].sect < 0x100
    ensures var f := RelocRecord(cpu, rows, index, r);
            var d, i := Describe(cpu, r.kind).value, index[r.symbol];
            && FromLE(f[0]) == r.offset
            && Decodes(FromLE(f[1]), SymbolNumFor(cpu, rows, i, d), d.pcrel, d.length, ByName(cpu, rows[i], d), d.rtype)
  {
    var d, i := Describe(cpu, r.kind).value, index[r.symbol];
    PackedFields(SymbolNumFor(cpu, rows, i, d), d.pcrel, d.length, ByName(cpu, rows[i], d), d.rtype);
    Pow256Values();
    LEFits(4, r.offset);
    LEFits(4, InfoFor(cpu, rows, i, d));
  }

  lemma RelocFrom(b: seq<byte>, st: R.Symtab, off: nat, k: nat, f: Record, v: R.RelocView, num: nat)
    requires ReadRecord(RELOC, b, Slot(off, k, RELOC_SIZE)) == Some(f) && FromLE(f[0]) == v.address
    requires Decodes(FromLE(f[1]), num, v.pcrel, v.length, v.target.ToSymbol?, v.rtype)
    requires match v.target
             case ToSymbol(sym) => R.ReadSymbol(b, st, num) == Some(sym)
             case ToSection(n) => n == num
    ensures R.ReadReloc(b, st, off, k) == Some(v)
  {
  }

  lemma RelocReads(b: seq<byte>, st: R.Symtab, rows: seq<Row>, t: StrTable, cpu: u32, index: map<Name, nat>, off: nat,
                   rs: seq<Reloc>, k: nat)
    requires RowsSeen(b, st, rows, t) && |rows| <= 0x100_0000 && AllResolvable(cpu, rows, index, rs) && k < |rs|
    requires At(b, off, Table(RelocRecords(cpu, rows, index, rs)))
    ensures R.ReadReloc(b, st, off, k) == Some(RelocViewOf(cpu, rows, index, rs[k]))
  {
    var r := rs[k];
    var d, i := Describe(cpu, r.kind).value, index[r.symbol];
    PairWidth();
    ReadTable(RELOC, b, off, RelocRecords(cpu, rows, index, rs), k);
    assert RowFits(rows[i]);
    RelocFieldsRead(cpu, rows, index, r);
    SymbolReads(b, st, rows, t, i);
    RelocFrom(b, st, off, k, RelocRecord(cpu, rows, index, r), RelocViewOf(cpu, rows, index, r),
              SymbolNumFor(cpu, rows, i, d));
  }

  lemma RelocsRead(b: seq<byte>, st: R.Symtab, rows: seq<Row>, t: StrTable, cpu: u32, index: map<Name, nat>, off: nat,
                   rs: seq<Reloc>)
    requires RowsSeen(b, st, rows, t) && |rows| <= 0x100_0000 && AllResolvable(cpu, rows, index, rs)
    requires At(b, off, Table(RelocRecords(cpu, rows, index, rs)))
    ensures R.ReadRelocs(b, st, off, |rs|) == Some(RelocViewsOf(cpu, rows, index, rs))
  {
    var f := (k: nat) => R.ReadReloc(b, st, off, k);
    forall k: nat | k < |rs| ensures f(k) == Some(RelocViewsOf(cpu, rows, index, rs)[k]) {
      RelocReads(b, st, rows, t, cpu, index, off, rs, k);
    }
    CollectAll(|rs|, f, RelocViewsOf(cpu, rows, index, rs));
  }

  // ------------------------------------------------------------------- sections

  function SectionViewOf(x: Input, t: Tables, s: Section): R.SectionView
    requires Named(s) && AllResolvable(x.cpu, t.rows, t.index, s.relocs)
  {
    R.SectionView(SegName(s), SectName(s), Size(s), Log2Of(Align(s)), SectionFlags(s),
                  if IsZerofill(s) then [] else PatchedCode(x.cpu, s),
                  if IsZerofill(s) then [] else RelocViewsOf(x.cpu, t.rows, t.index, s.relocs))
  }

  function SectionViewsOf(x: Input, t: Tables): (vs: seq<R.SectionView>)
    requires AllNamed(x.secs) && forall i | 0 <= i < |x.secs| :: AllResolvable(x.cpu, t.rows, t.index, x.secs[i].relocs)
    ensures |vs| == |x.secs| && forall i | 0 <= i < |x.secs| :: vs[i] == SectionViewOf(x, t, x.secs[i])
  {
    seq(|x.secs|, i requires 0 <= i < |x.secs| => SectionViewOf(x, t, x.secs[i]))
  }

  predicate NameFits(n: Name) { |n| <= 16 && NulFree(n) }

  predicate HeaderFits(x: Input, k: nat)
    requires k < |x.secs| && Named(x.secs[k])
  {
    && NameFits(SegName(x.secs[k])) && NameFits(SectName(x.secs[k]))
    && Size(x.secs[k]) < 0x1_0000_0000_0000_0000
    && DataOff(x, k) < 0x1_0000_0000 && RelocOff(x, k) < 0x1_0000_0000 && RelocCount(x.secs[k]) < 0x1_0000_0000
  }

  lemma FlagsFit(s: Section)
    ensures SectionFlags(s) < 0x1_0000_0000 && (SectionFlags(s) % 256 == S_ZEROFILL <==> IsZerofill(s))
  {
  }

  lemma Log2Fits(a: nat)
    ensures Log2Of(a) <= a
  {
    if a > 1 { Log2Fits(a / 2); }
  }

  lemma SectionFieldsRead(x: Input, k: nat)
    requires k < |x.secs| && Named(x.secs[k]) && HeaderFits(x, k)
    ensures var f, s := SectionRecord(x, k), x.secs[k];
            && FromLE(f[3]) == Size(s) && FromLE(f[4]) == DataOff(x, k) && FromLE(f[5]) == Log2Of(Align(s))
            && FromLE(f[6]) == RelocOff(x, k) && FromLE(f[7]) == RelocCount(s) && FromLE(f[8]) == SectionFlags(s)
  {
    var s := x.secs[k];
    Pow256Values();
    FlagsFit(s);
    Log2Fits(Align(s));
    LEFits(8, Size(s));
    LEFits(4, DataOff(x, k));
    LEFits(4, Log2Of(Align(s)));
    LEFits(4, RelocOff(x, k));
    LEFits(4, RelocCount(s));
    LEFits(4, SectionFlags(s));
  }

  lemma NamesRead(x: Input, k: nat)
    requires k < |x.secs| && Named(x.secs[k]) && HeaderFits(x, k)
    ensures Trimmed(SectionRecord(x, k)[0]) == SectName(x.secs[k])
        && Trimmed(SectionRecord(x, k)[1]) == SegName(x.secs[k])
  {
    TrimPadded(SectName(x.secs[k]), 16);
    TrimPadded(SegName(x.secs[k]), 16);
  }

  lemma SectionFrom(b: seq<byte>, st: R.Symtab, off: nat, i: nat, f: Record, v: R.SectionView)
    requires ReadRecord(SECTION, b, Slot(off, i, SECTION_SIZE)) == Some(f)
    requires Trimmed(f[0]) == v.name && Trimmed(f[1]) == v.segment
    requires FromLE(f[3]) == v.size && FromLE(f[5]) == v.log2Align && FromLE(f[8]) == v.flags
    requires R.ReadData(b, v.flags, FromLE(f[4]), v.size) == Some(v.data)
    requires R.ReadRelocs(b, st, FromLE(f[6]), FromLE(f[7])) == Some(v.relocs)
    ensures R.ReadSection(b, st, off, i) == Some(v)
  {
  }

  /** Section k's bytes and relocations lie where its header says. */
  ghost predicate ChunkSeen(b: seq<byte>, x: Input, t: Tables, k: nat)
    requires k < |x.secs|
  {
    && AllResolvable(x.cpu, t.rows, t.index, x.secs[k].relocs)
    && (!IsZerofill(x.secs[k]) ==> At(b, DataOff(x, k), ChunkData(x, t.rows, t.index, x.secs[k])))
  }

  lemma DataReads(b: seq<byte>, x: Input, t: Tables, k: nat)
    requires k < |x.secs| && ChunkSeen(b, x, t, k)
    ensures R.ReadData(b, SectionFlags(x.secs[k]), DataOff(x, k), Size(x.secs[k]))
            == Some(if IsZerofill(x.secs[k]) then [] else PatchedCode(x.cpu, x.secs[k]))
  {
    var s := x.secs[k];
    FlagsFit(s);
    if !IsZerofill(s) {
      AtSplit(b, DataOff(x, k), PatchedCode(x.cpu, s), Table(RelocRecords(x.cpu, t.rows, t.index, s.relocs)));
    }
  }

  lemma SectionRelocsRead(b: seq<byte>, st: R.Symtab, x: Input, t: Tables, k: nat)
    requires k < |x.secs| && ChunkSeen(b, x, t, k) && RowsSeen(b, st, t.rows, t.strtab) && |t.rows| <= 0x100_0000
    ensures R.ReadRelocs(b, st, RelocOff(x, k), RelocCount(x.secs[k]))
            == Some(if IsZerofill(x.secs[k]) then [] else RelocViewsOf(x.cpu, t.rows, t.index, x.secs[k].relocs))
  {
    var s := x.secs[k];
    if !IsZerofill(s) && s.relocs != [] {
      AtSplit(b, DataOff(x, k), PatchedCode(x.cpu, s), Table(RelocRecords(x.cpu, t.rows, t.index, s.relocs)));
      RelocsRead(b, st, t.rows, t.strtab, x.cpu, t.index, RelocOff(x, k), s.relocs);
    }
  }

  lemma SectionReads(b: seq<byte>, st: R.Symtab, x: Input, t: Tables, off: nat, k: nat)
    requires k < |x.secs| && ChunkSeen(b, x, t, k) && RowsSeen(b, st, t.rows, t.strtab) && |t.rows| <= 0x100_0000
    requires Named(x.secs[k]) && HeaderFits(x, k)
    requires ReadRecord(SECTION, b, Slot(off, k, SECTION_SIZE)) == Some(SectionRecord(x, k))
    ensures R.ReadSection(b, st, off, k) == Some(SectionViewOf(x, t, x.secs[k]))
  {
    SectionFieldsRead(x, k);
    NamesRead(x, k);
    DataReads(b, x, t, k);
    SectionRelocsRead(b, st, x, t, k);
    SectionFrom(b, st, off, k, SectionRecord(x, k), SectionViewOf(x, t, x.secs[k]));
  }

  lemma SectionsRead(b: seq<byte>, st: R.Symtab, off: nat, vs: seq<R.SectionView>)
    requires forall k: nat | k < |vs| :: R.ReadSection(b, st, off, k) == Some(vs[k])
    ensures R.ReadSections(b, st, off, |vs|) == Some(vs)
  {
    CollectAll(|vs|, (i: nat) => R.ReadSection(b, st, off, i), vs);
  }
}
