/** The tables an ELF file is made of: where descriptors end up, which rows are local, and
    when every number fits its field. */
module ElfTables {
  import opened Bytes
  import opened Names
  import opened Objects
  import opened StringTable
  import opened ElfFormat
  import opened ElfSpec
  import opened ElfRoundTrip

  // ------------------------------------------------- the section index formulas

  /** Where each part of an assembled and closed descriptor list ends up. */
  ghost predicate Positioned(p: Parts, ds: seq<SecDesc>) {
    && |ds| == SymtabPos(p) + 3
    && ds[0] == NullDesc
    && (forall i | 0 <= i < |p.content| :: ds[1 + i] == p.content[i])
    && (forall i | 0 <= i < |p.rela| :: ds[RelaPos(p) + i] == p.rela[i])
    && (forall i | 0 <= i < |p.group| :: ds[GroupPos(p) + i] == p.group[i])
    && (forall i | 0 <= i < |p.note| :: ds[NotePos(p) + i] == p.note[i])
    && ds[SymtabPos(p)] == p.symtab && ds[SymtabPos(p) + 1] == p.strtab
    && ds[SymtabPos(p) + 2] == StrtabDesc(Ascii(".shstrtab"), NameTable(Assemble(p)).data)
  }

  /** A list between two others, element by element. */
  lemma PieceAt(a: seq<SecDesc>, d: seq<SecDesc>, rest: seq<SecDesc>)
    ensures forall i | 0 <= i < |d| :: (a + d + rest)[|a| + i] == d[i]
  {
  }

  lemma Position(p: Parts)
    ensures Positioned(p, Closed(Assemble(p)))
  {
    var ds, n := Closed(Assemble(p)), [NullDesc];
    var last := [p.symtab] + [p.strtab] + [StrtabDesc(Ascii(".shstrtab"), NameTable(Assemble(p)).data)];
    var r4 := p.note + last;
    var r3 := p.group + r4;
    var r2 := p.rela + r3;
    assert ds == n + p.content + r2;
    PieceAt(n, p.content, r2);
    assert ds == (n + p.content) + p.rela + r3;
    PieceAt(n + p.content, p.rela, r3);
    assert ds == (n + p.content + p.rela) + p.group + r4;
    PieceAt(n + p.content + p.rela, p.group, r4);
    assert ds == (n + p.content + p.rela + p.group) + p.note + last;
    PieceAt(n + p.content + p.rela + p.group, p.note, last);
  }

  /** The indices computed before the descriptor list exists are the positions at which
      the descriptors end up, whatever mix of relocated, link-once and stack-note
      sections there is. */
  lemma IndexFormulas(x: Input)
    requires Buildable(x)
    ensures Positioned(PartsOf(x), Descs(x))
    ensures SymtabPos(PartsOf(x)) == SymtabIdx(x)
  {
    Position(PartsOf(x));
  }

  // --------------------------------------------------------------- input bounds

  predicate SymbolNamesFree(s: Section) { forall j | 0 <= j < |s.symbols| :: NulFree(s.symbols[j].name) }

  predicate RelocsFit(c: Class, machine: u16, s: Section) {
    forall j | 0 <= j < |s.relocs| :: NulFree(s.relocs[j].symbol) && RelocFits(c, machine, s.relocs[j])
  }

  predicate SectionFits(c: Class, machine: u16, s: Section) {
    && (s.kind == Custom ==> NulFree(s.custom))
    && SymbolNamesFree(s) && RelocsFit(c, machine, s)
    && (NoBits(s) ==> VSize(s) < Pow256(Word(c)))
  }

  /** The input stays within the width of the format's fields and has NUL-free names. */
  ghost predicate InputFits(x: Input) {
    && SymtabIdx(x) + 3 < 0xFF00
    && |Rows(x.secs)| < SymLimit(x.class_)
    && |Strtab(x.secs).data| <= 0x1_0000_0000
    && forall i | 0 <= i < |x.secs| :: SectionFits(x.class_, x.machine, x.secs[i])
  }

  ghost predicate InBounds(x: Input)
    requires Buildable(x)
  {
    InputFits(x) && |Shstrtab(x).data| <= 0x1_0000_0000 && |Image(x)| < Pow256(Word(x.class_))
  }

  // ------------------------------------------------------------------- row facts

  predicate DefFits(n: nat, d: Def) { d.sec < n && NulFree(d.sym.name) }

  lemma DefRowFits(n: nat, d: Def)
    requires DefFits(n, d) && n < 0xFF00
    ensures RowFits(DefRow(d))
  {
    StInfoFields(Bind(d.sym.binding), SymType(d.sym.kind));
  }

  lemma {:induction false} LocalRowsFit(n: nat, ds: seq<Def>)
    requires n < 0xFF00 && forall k | 0 <= k < |ds| :: DefFits(n, ds[k])
    ensures forall k | 0 <= k < |LocalRows(ds)| :: RowFits(LocalRows(ds)[k])
    ensures forall k | 0 <= k < |LocalRows(ds)| :: LocalRows(ds)[k].info / 16 == STB_LOCAL
  {
    if ds != [] {
      LocalRowsFit(n, ds[..|ds| - 1]);
      var d := ds[|ds| - 1];
      DefRowFits(n, d);
      StInfoFields(Bind(d.sym.binding), SymType(d.sym.kind));
    }
  }

  lemma {:induction false} ExportedRowsFit(n: nat, ds: seq<Def>)
    requires n < 0xFF00 && forall k | 0 <= k < |ds| :: DefFits(n, ds[k])
    ensures forall k | 0 <= k < |ExportedRows(ds)| :: RowFits(ExportedRows(ds)[k])
    ensures forall k | 0 <= k < |ExportedRows(ds)| :: ExportedRows(ds)[k].info / 16 in {STB_GLOBAL, STB_WEAK}
  {
    if ds != [] {
      ExportedRowsFit(n, ds[..|ds| - 1]);
      var d := ds[|ds| - 1];
      DefRowFits(n, d);
      StInfoFields(Bind(d.sym.binding), SymType(d.sym.kind));
    }
  }

  lemma {:induction false} ExternalRowsAre(ns: seq<Name>)
    ensures |ExternalRows(ns)| == |ns|
    ensures forall k | 0 <= k < |ns| :: ExternalRows(ns)[k] == ExternalRow(ns[k])
  {
    if ns != [] { ExternalRowsAre(ns[..|ns| - 1]); }
  }

  lemma ExternalRowsFit(ns: seq<Name>)
    requires forall k | 0 <= k < |ns| :: NulFree(ns[k])
    ensures forall k | 0 <= k < |ExternalRows(ns)| :: RowFits(ExternalRows(ns)[k])
    ensures forall k | 0 <= k < |ExternalRows(ns)| :: ExternalRows(ns)[k].info / 16 == STB_GLOBAL
  {
    StInfoFields(STB_GLOBAL, STT_NOTYPE);
    ExternalRowsAre(ns);
  }

  lemma {:induction false} HeadRowsFit(n: nat)
    requires n < 0xFF00
    ensures forall k | 0 <= k < |HeadRows(n)| :: RowFits(HeadRows(n)[k]) && HeadRows(n)[k].info / 16 == STB_LOCAL
    ensures HeadRows(n)[0] == NullRow
    ensures forall k | 1 <= k <= n :: HeadRows(n)[k] == SectionRow(k - 1)
  {
    StInfoFields(STB_LOCAL, STT_SECTION);
    if n > 0 { HeadRowsFit(n - 1); }
  }

  lemma DefsFit(secs: seq<Section>)
    requires forall i | 0 <= i < |secs| :: SymbolNamesFree(secs[i])
    ensures forall k | 0 <= k < |AllDefs(secs)| :: DefFits(|secs|, AllDefs(secs)[k])
  {
    forall k | 0 <= k < |AllDefs(secs)| ensures DefFits(|secs|, AllDefs(secs)[k]) {
      var d := AllDefs(secs)[k];
      assert d in AllDefs(secs);
      DefsMember(secs, |secs|, 0, d);
      assert d.sym in secs[d.sec].symbols;
    }
  }

  lemma ExternalsFree(secs: seq<Section>)
    requires forall i, j | 0 <= i < |secs| && 0 <= j < |secs[i].relocs| :: NulFree(secs[i].relocs[j].symbol)
    ensures forall k | 0 <= k < |Externals(secs, false)| :: NulFree(Externals(secs, false)[k])
  {
    ExternalsFacts(secs, false);
    forall k | 0 <= k < |Externals(secs, false)| ensures NulFree(Externals(secs, false)[k]) {
      var n := Externals(secs, false)[k];
      assert External(secs, n);
      var u :| u in AllUses(secs) && u.rel.symbol == n;
      UsesMember(secs, |secs|, 0, u);
    }
  }

  /** Locals first: exactly the rows below sh_info are STB_LOCAL, and all rows fit their record. */
  lemma RowsPartitioned(secs: seq<Section>)
    requires |secs| < 0xFF00
    requires forall i | 0 <= i < |secs| :: SymbolNamesFree(secs[i])
    requires forall i, j | 0 <= i < |secs| && 0 <= j < |secs[i].relocs| :: NulFree(secs[i].relocs[j].symbol)
    ensures forall k | 0 <= k < |Rows(secs)| :: RowFits(Rows(secs)[k])
    ensures forall k | 0 <= k < |LocalPart(secs)| :: Rows(secs)[k].info / 16 == STB_LOCAL
    ensures forall k | |LocalPart(secs)| <= k < |Rows(secs)| :: Rows(secs)[k].info / 16 in {STB_GLOBAL, STB_WEAK}
  {
    DefsFit(secs);
    ExternalsFree(secs);
    HeadRowsFit(|secs|);
    LocalRowsFit(|secs|, AllDefs(secs));
    ExportedRowsFit(|secs|, AllDefs(secs));
    ExternalRowsFit(Externals(secs, false));
  }

  // ------------------------------------------------------------ descriptor facts

  lemma PartOf(p: Parts, ds: seq<SecDesc>, k: nat)
    requires Positioned(p, ds) && k < |ds|
    ensures
      || (k == 0 && ds[k] == NullDesc)
      || (1 <= k < RelaPos(p) && ds[k] == p.content[k - 1])
      || (RelaPos(p) <= k < GroupPos(p) && ds[k] == p.rela[k - RelaPos(p)])
      || (GroupPos(p) <= k < NotePos(p) && ds[k] == p.group[k - GroupPos(p)])
      || (NotePos(p) <= k < SymtabPos(p) && ds[k] == p.note[k - NotePos(p)])
      || (k == SymtabPos(p) && ds[k] == p.symtab)
      || (k == SymtabPos(p) + 1 && ds[k] == p.strtab)
      || (k == SymtabPos(p) + 2 && ds[k] == StrtabDesc(Ascii(".shstrtab"), NameTable(Assemble(p)).data))
  {
    if 1 <= k < RelaPos(p) {
      assert ds[1 + (k - 1)] == p.content[k - 1];
    } else if RelaPos(p) <= k < GroupPos(p) {
      assert ds[RelaPos(p) + (k - RelaPos(p))] == p.rela[k - RelaPos(p)];
    } else if GroupPos(p) <= k < NotePos(p) {
      assert ds[GroupPos(p) + (k - GroupPos(p))] == p.group[k - GroupPos(p)];
    } else if NotePos(p) <= k < SymtabPos(p) {
      assert ds[NotePos(p) + (k - NotePos(p))] == p.note[k - NotePos(p)];
    }
  }

  /** Whatever holds of every part holds of every descriptor. */
  lemma PartHolds(p: Parts, ds: seq<SecDesc>, k: nat, holds: SecDesc -> bool)
    requires Positioned(p, ds) && k < |ds|
    requires holds(NullDesc) && holds(p.symtab) && holds(p.strtab)
    requires holds(StrtabDesc(Ascii(".shstrtab"), NameTable(Assemble(p)).data))
    requires forall i | 0 <= i < |p.content| :: holds(p.content[i])
    requires forall i | 0 <= i < |p.rela| :: holds(p.rela[i])
    requires forall i | 0 <= i < |p.group| :: holds(p.group[i])
    requires forall i | 0 <= i < |p.note| :: holds(p.note[i])
    ensures holds(ds[k])
  {
    PartOf(p, ds, k);
  }

  /** A descriptor that its header can hold and a reader can name. */
  ghost predicate DescGood(c: Class, d: SecDesc) {
    DescFits(c, d) && NulFree(d.name) && (d.shType == SHT_NOBITS ==> d.data == [])
  }

  lemma ContentGood(c: Class, machine: u16, s: Section)
    requires SectionFits(c, machine, s)
    ensures DescGood(c, ContentDesc(c, s)) && ContentDesc(c, s).shType !in {SHT_RELA, SHT_SYMTAB}
  {
    Pow256Word(c);
  }

  lemma RelaGood(x: Input, index: map<Name, nat>, i: nat, symtab: nat)
    requires i < |x.secs| && AllResolvable(x.machine, index, x.secs[i].relocs)
    requires SectionFits(x.class_, x.machine, x.secs[i]) && i < 0xFF00 && symtab < 0xFF00
    ensures DescGood(x.class_, RelaDesc(x, index, i, symtab))
  {
    Pow256Word(x.class_);
    ContentGood(x.class_, x.machine, x.secs[i]);
  }

  lemma {:induction false} ComdatSigBound(syms: seq<Symbol>, index: map<Name, nat>, n: nat)
    requires forall m | m in index :: index[m] < n
    ensures ComdatSig(syms, index).Some? ==> ComdatSig(syms, index).value < n
  {
    if syms != [] { ComdatSigBound(syms[1..], index, n); }
  }

  lemma GroupGood(x: Input, index: map<Name, nat>, i: nat, symtab: nat)
    requires i < |x.secs| && ComdatSig(x.secs[i].symbols, index).Some?
    requires symtab < 0xFF00 && forall m | m in index :: index[m] < 0x1_0000_0000
    ensures DescGood(x.class_, GroupDesc(x.secs, index, i, symtab))
  {
    Pow256Word(x.class_);
    ComdatSigBound(x.secs[i].symbols, index, 0x1_0000_0000);
  }

  lemma NoteGood(c: Class)
    ensures DescGood(c, NoteDesc)
  {
    Pow256Word(c);
  }

  lemma SymtabGood(c: Class, syms: seq<Sym>, strtab: nat, firstGlobal: nat)
    requires strtab < 0xFF00 && firstGlobal <= 0xFFFF_FFFF
    ensures DescGood(c, SymtabDesc(c, syms, strtab, firstGlobal))
  {
    Pow256Word(c);
  }

  lemma StrtabGood(c: Class, n: Name, data: seq<byte>)
    requires NulFree(n)
    ensures DescGood(c, StrtabDesc(n, data))
  {
    Pow256Word(c);
  }

  lemma NullGood(c: Class)
    ensures DescGood(c, NullDesc)
  {
    Pow256Word(c);
  }

  /** symIndex: every name leads to a row of that name, never to a section row. */
  lemma IndexPoints(secs: seq<Section>)
    ensures Points(Index(secs), Rows(secs))
    ensures forall n | n in Index(secs) :: 1 + |secs| <= Index(secs)[n] < |Rows(secs)|
  {
    LastIndexFacts(RowNames(Rows(secs)), 1 + |secs|);
  }

  lemma ContentsGood(c: Class, machine: u16, secs: seq<Section>)
    requires forall i | 0 <= i < |secs| :: SectionFits(c, machine, secs[i])
    ensures var ds := ContentDescs(c, secs, |secs|);
            forall i | 0 <= i < |ds| :: DescGood(c, ds[i]) && ds[i].shType !in {SHT_RELA, SHT_SYMTAB}
  {
    var ds := ContentDescs(c, secs, |secs|);
    forall i | 0 <= i < |ds| ensures DescGood(c, ds[i]) && ds[i].shType !in {SHT_RELA, SHT_SYMTAB} {
      ContentGood(c, machine, secs[i]);
    }
  }

  lemma RelasGood(x: Input, index: map<Name, nat>)
    requires forall i | 0 <= i < |x.secs| :: AllResolvable(x.machine, index, x.secs[i].relocs)
    requires forall i | 0 <= i < |x.secs| :: SectionFits(x.class_, x.machine, x.secs[i])
    requires SymtabIdx(x) < 0xFF00
    ensures var ds := RelaDescs(x, index, |x.secs|);
            forall i | 0 <= i < |ds| :: DescGood(x.class_, ds[i])
  {
    var ds := RelaDescs(x, index, |x.secs|);
    forall i | 0 <= i < |ds| ensures DescGood(x.class_, ds[i]) {
      RelaGood(x, index, Relocated(x.secs, |x.secs|)[i], SymtabIdx(x));
    }
  }

  lemma GroupsGood(x: Input, index: map<Name, nat>)
    requires forall i | 0 <= i < |x.secs| && x.secs[i].linkOnce :: ComdatSig(x.secs[i].symbols, index).Some?
    requires SymtabIdx(x) < 0xFF00 && forall m | m in index :: index[m] < 0x1_0000_0000
    ensures var ds := GroupDescs(x, index, |x.secs|);
            forall i | 0 <= i < |ds| :: DescGood(x.class_, ds[i])
  {
    var ds := GroupDescs(x, index, |x.secs|);
    forall i | 0 <= i < |ds| ensures DescGood(x.class_, ds[i]) {
      GroupGood(x, index, LinkOnce(x.secs, |x.secs|)[i], SymtabIdx(x));
    }
  }

  ghost predicate PartsGood(c: Class, p: Parts) {
    && (forall i | 0 <= i < |p.content| :: DescGood(c, p.content[i]) && p.content[i].shType !in {SHT_RELA, SHT_SYMTAB})
    && (forall i | 0 <= i < |p.rela| :: DescGood(c, p.rela[i]))
    && (forall i | 0 <= i < |p.group| :: DescGood(c, p.group[i]))
    && (forall i | 0 <= i < |p.note| :: DescGood(c, p.note[i]))
    && DescGood(c, p.symtab) && DescGood(c, p.strtab)
  }

  lemma TablesGoodAs(c: Class, p: Parts, syms: seq<Sym>, strtab: nat, firstGlobal: nat, strings: seq<byte>)
    requires strtab < 0xFF00 && firstGlobal <= 0xFFFF_FFFF
    requires p.symtab == SymtabDesc(c, syms, strtab, firstGlobal) && p.strtab == StrtabDesc(Ascii(".strtab"), strings)
    ensures DescGood(c, p.symtab) && DescGood(c, p.strtab)
  {
    SymtabGood(c, syms, strtab, firstGlobal);
    StrtabGood(c, Ascii(".strtab"), strings);
  }

  lemma TablesGood(x: Input)
    requires Buildable(x) && SymtabIdx(x) + 3 < 0xFF00 && |LocalPart(x.secs)| < 0x1_0000_0000
    ensures DescGood(x.class_, PartsOf(x).symtab) && DescGood(x.class_, PartsOf(x).strtab)
  {
    TablesGoodAs(x.class_, PartsOf(x), Syms(x.secs), SymtabIdx(x) + 1, |LocalPart(x.secs)|, Strtab(x.secs).data);
  }

  lemma NotesGood(x: Input)
    requires Buildable(x)
    ensures forall i | 0 <= i < |PartsOf(x).note| :: DescGood(x.class_, PartsOf(x).note[i])
  {
    NoteGood(x.class_);
  }

  lemma ContentPartGood(x: Input)
    requires Buildable(x) && forall i | 0 <= i < |x.secs| :: SectionFits(x.class_, x.machine, x.secs[i])
    ensures forall i | 0 <= i < |PartsOf(x).content| ::
              DescGood(x.class_, PartsOf(x).content[i]) && PartsOf(x).content[i].shType !in {SHT_RELA, SHT_SYMTAB}
  {
    ContentsGood(x.class_, x.machine, x.secs);
  }

  lemma RelaPartGood(x: Input)
    requires Buildable(x) && forall i | 0 <= i < |x.secs| :: SectionFits(x.class_, x.machine, x.secs[i])
    requires SymtabIdx(x) + 3 < 0xFF00
    ensures forall i | 0 <= i < |PartsOf(x).rela| :: DescGood(x.class_, PartsOf(x).rela[i])
  {
    ErrorFree(x, Index(x.secs));
    RelasGood(x, Index(x.secs));
  }

  lemma GroupPartGood(x: Input)
    requires Buildable(x) && SymtabIdx(x) + 3 < 0xFF00 && |Rows(x.secs)| < 0x1_0000_0000
    ensures forall i | 0 <= i < |PartsOf(x).group| :: DescGood(x.class_, PartsOf(x).group[i])
  {
    ComdatErrorFree(x.secs, Index(x.secs), |x.secs|);
    IndexPoints(x.secs);
    GroupsGood(x, Index(x.secs));
  }

  lemma InputPartsGood(x: Input)
    requires Buildable(x) && InputFits(x)
    ensures PartsGood(x.class_, PartsOf(x))
  {
    ContentPartGood(x);
    RelaPartGood(x);
    GroupPartGood(x);
    NotesGood(x);
    TablesGood(x);
  }

  lemma AllDescsGood(c: Class, p: Parts, ds: seq<SecDesc>)
    requires Positioned(p, ds) && PartsGood(c, p)
    ensures forall k | 0 <= k < |ds| :: DescGood(c, ds[k])
    ensures Sane(ds)
  {
    forall k | 0 <= k < |ds| ensures DescGood(c, ds[k]) { DescGoodAt(c, p, ds, k); }
  }

  /** The first descriptor and the last, which are no parts of the input's. */
  lemma EndsGood(c: Class, names: seq<byte>)
    ensures DescGood(c, NullDesc) && DescGood(c, StrtabDesc(Ascii(".shstrtab"), names))
  {
    NullGood(c);
    StrtabGood(c, Ascii(".shstrtab"), names);
  }

  lemma DescGoodAt(c: Class, p: Parts, ds: seq<SecDesc>, k: nat)
    requires Positioned(p, ds) && PartsGood(c, p) && k < |ds|
    ensures DescGood(c, ds[k])
  {
    EndsGood(c, NameTable(Assemble(p)).data);
    PartHolds(p, ds, k, d => DescGood(c, d));
  }

  // ------------------------------------------------------------------ the tables

  lemma StrtabSound(secs: seq<Section>)
    ensures Strtab(secs).Sound()
  {
    BaseTablesWellFormed();
    InternAllWellFormed(Sentinel, RowNames(Rows(secs)));
  }

  lemma InputRowsFit(x: Input)
    requires InputFits(x)
    ensures forall i | 0 <= i < |Rows(x.secs)| ::
              Rows(x.secs)[i].name in Strtab(x.secs).offsets && RowFits(Rows(x.secs)[i])
  {
    StrtabHasRows(x.secs);
    RowsPartitioned(x.secs);
  }

  /** The tables and descriptors of an input, kept apart from how they are computed. */
  datatype Tables = Tables(p: Parts, rows: seq<Row>, strtab: StrTable, index: map<Name, nat>, firstGlobal: nat)

  ghost predicate RowsGood(t: Tables) {
    && (forall i | 0 <= i < |t.rows| :: t.rows[i].name in t.strtab.offsets && RowFits(t.rows[i]))
    && t.strtab.Sound() && |t.strtab.data| <= 0x1_0000_0000
    && Points(t.index, t.rows)
  }

  ghost predicate SymtabGiven(x: Input, t: Tables) {
    && RowsGood(t)
    && t.p.symtab.shType == SHT_SYMTAB && t.p.symtab.entSize == SymSize(x.class_)
    && t.p.symtab.link == SymtabPos(t.p) + 1
    && t.p.symtab.data == Table(SymRecords(x.class_, Stamp(t.rows, t.strtab.offsets)))
    && t.p.strtab.data == t.strtab.data
  }

  ghost predicate ContentGiven(x: Input, t: Tables) {
    && |t.p.content| == |x.secs|
    && forall i | 0 <= i < |x.secs| :: t.p.content[i] == ContentDesc(x.class_, x.secs[i])
  }

  /** d describes the relocation section of section i. */
  ghost predicate RelaFor(x: Input, t: Tables, i: nat, d: SecDesc) {
    && d.shType == SHT_RELA && d.info == 1 + i && d.link == SymtabPos(t.p) && d.entSize == RelaSize(x.class_)
    && d.flags == SHF_INFO_LINK && d.align == Word(x.class_) && d.noSize == 0
    && i < |x.secs| && AllResolvable(x.machine, t.index, x.secs[i].relocs) && d.name == RelaName(x.secs[i])
    && d.data == Table(RelaRecords(x.class_, x.machine, t.index, x.secs[i].relocs))
  }

  ghost predicate RelaGiven(x: Input, t: Tables) {
    && (forall i | 0 <= i < |x.secs| :: AllResolvable(x.machine, t.index, x.secs[i].relocs))
    && |t.p.rela| == |Relocated(x.secs, |x.secs|)|
    && forall j | 0 <= j < |t.p.rela| :: RelaFor(x, t, Relocated(x.secs, |x.secs|)[j], t.p.rela[j])
  }

  /** d describes the COMDAT group of section i. */
  ghost predicate GroupFor(x: Input, t: Tables, i: nat, d: SecDesc) {
    && i < |x.secs| && ComdatSig(x.secs[i].symbols, t.index).Some?
    && d == GroupDesc(x.secs, t.index, i, SymtabPos(t.p))
  }

  ghost predicate GroupGiven(x: Input, t: Tables) {
    && |t.p.group| == |LinkOnce(x.secs, |x.secs|)|
    && forall j | 0 <= j < |t.p.group| :: GroupFor(x, t, LinkOnce(x.secs, |x.secs|)[j], t.p.group[j])
  }

  ghost function TablesOf(x: Input): Tables
    requires Buildable(x)
  {
    Tables(PartsOf(x), Rows(x.secs), Strtab(x.secs), Index(x.secs), |LocalPart(x.secs)|)
  }

  lemma SymtabGivenOf(x: Input)
    requires Buildable(x) && InputFits(x)
    ensures SymtabGiven(x, TablesOf(x))
  {
    StrtabHasRows(x.secs);
    InputRowsFit(x);
    StrtabSound(x.secs);
    IndexPoints(x.secs);
    IndexFormulas(x);
  }

  lemma ContentGivenOf(x: Input)
    requires Buildable(x)
    ensures ContentGiven(x, TablesOf(x))
  {
  }

  lemma RelaGivenOf(x: Input)
    requires Buildable(x)
    ensures RelaGiven(x, TablesOf(x))
  {
    ErrorFree(x, Index(x.secs));
    IndexFormulas(x);
    var t := TablesOf(x);
    forall j | 0 <= j < |t.p.rela| ensures RelaFor(x, t, Relocated(x.secs, |x.secs|)[j], t.p.rela[j]) {
      RelaForOf(x, t, Relocated(x.secs, |x.secs|)[j], t.p.rela[j]);
    }
  }

  lemma RelaForOf(x: Input, t: Tables, i: nat, d: SecDesc)
    requires i < |x.secs| && AllResolvable(x.machine, t.index, x.secs[i].relocs)
    requires d == RelaDesc(x, t.index, i, SymtabPos(t.p))
    ensures RelaFor(x, t, i, d)
  {
  }

  lemma GroupGivenOf(x: Input)
    requires Buildable(x)
    ensures GroupGiven(x, TablesOf(x))
  {
    ComdatErrorFree(x.secs, Index(x.secs), |x.secs|);
    IndexFormulas(x);
    var t := TablesOf(x);
    forall j | 0 <= j < |t.p.group| ensures GroupFor(x, t, LinkOnce(x.secs, |x.secs|)[j], t.p.group[j]) {
    }
  }
}
