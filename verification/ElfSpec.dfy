/** What an ELF relocatable file contains, as a function of the input: the symbol rows,
    the section descriptors, their layout and the resulting bytes. */
module ElfSpec {
  import opened Bytes
  import opened Bits
  import opened Names
  import opened Objects
  import opened StringTable
  import opened ElfFormat

  datatype Error =
    | MissingSymbol(sec: nat, symbol: Name)
    | UnsupportedReloc(sec: nat, kind: RelocKind)
    | NoComdatSignature(sec: nat)

  /** Everything serialisation depends on. */
  datatype Input = Input(class_: Class, machine: u16, osabi: u8, gnuStack: bool, secs: seq<Section>)

  // ------------------------------------------------------------ symbol table

  /** A symbol-table row before its name is replaced by an offset. */
  datatype Row = Row(name: Name, info: nat, shndx: nat, value: nat, size: nat)

  const NullRow := Row([], 0, 0, 0, 0)

  function SymType(k: SymbolKind): nat {
    match k
    case SymFunc => STT_FUNC
    case SymData => STT_OBJECT
    case SymSection => STT_SECTION
  }

  function Bind(b: Binding): nat {
    match b
    case Local => STB_LOCAL
    case Global => STB_GLOBAL
    case Weak => STB_WEAK
  }

  function SectionRow(i: nat): Row { Row([], StInfo(STB_LOCAL, STT_SECTION), 1 + i, 0, 0) }

  function DefRow(d: Def): Row {
    Row(d.sym.name, StInfo(Bind(d.sym.binding), SymType(d.sym.kind)), 1 + d.sec, d.sym.offset, d.sym.size)
  }

  function ExternalRow(n: Name): Row { Row(n, StInfo(STB_GLOBAL, STT_NOTYPE), 0, 0, 0) }

  function HeadRows(n: nat): (rows: seq<Row>)
    ensures |rows| == 1 + n
  {
    if n == 0 then [NullRow] else HeadRows(n - 1) + [SectionRow(n - 1)]
  }

  predicate IsLocal(d: Def) { Picked(d, PlainDef) }

  predicate IsExported(d: Def) { Picked(d, ExportedDef) }

  function LocalRows(ds: seq<Def>): seq<Row> {
    if ds == [] then []
    else LocalRows(ds[..|ds| - 1]) + if IsLocal(ds[|ds| - 1]) then [DefRow(ds[|ds| - 1])] else []
  }

  function ExportedRows(ds: seq<Def>): seq<Row> {
    if ds == [] then []
    else ExportedRows(ds[..|ds| - 1]) + if IsExported(ds[|ds| - 1]) then [DefRow(ds[|ds| - 1])] else []
  }

  function ExternalRows(ns: seq<Name>): seq<Row> {
    if ns == [] then [] else ExternalRows(ns[..|ns| - 1]) + [ExternalRow(ns[|ns| - 1])]
  }

  function LocalPart(secs: seq<Section>): seq<Row> { HeadRows(|secs|) + LocalRows(AllDefs(secs)) }

  ghost function Rows(secs: seq<Section>): seq<Row> {
    LocalPart(secs) + ExportedRows(AllDefs(secs)) + ExternalRows(Externals(secs, false))
  }

  function RowNames(rows: seq<Row>): (ns: seq<Name>)
    ensures |ns| == |rows| && forall i | 0 <= i < |rows| :: ns[i] == rows[i].name
  {
    seq(|rows|, i requires 0 <= i < |rows| => rows[i].name)
  }

  /** symIndex: the row a name resolves to. */
  ghost function Index(secs: seq<Section>): map<Name, nat> { LastIndex(RowNames(Rows(secs)), 1 + |secs|) }

  ghost function Strtab(secs: seq<Section>): StrTable { Sentinel.InternAll(RowNames(Rows(secs))) }

  function Stamp(rows: seq<Row>, offsets: map<Name, nat>): (syms: seq<Sym>)
    requires forall i | 0 <= i < |rows| :: rows[i].name in offsets
    ensures |syms| == |rows|
  {
    seq(|rows|, i requires 0 <= i < |rows| =>
      Sym(offsets[rows[i].name], rows[i].info, rows[i].shndx, rows[i].value, rows[i].size))
  }

  function SymRecords(c: Class, syms: seq<Sym>): (recs: seq<Record>)
    ensures |recs| == |syms| && AllShaped(SymShape(c), recs)
  {
    seq(|syms|, i requires 0 <= i < |syms| => SymRecord(c, syms[i]))
  }

  lemma StrtabHasRows(secs: seq<Section>)
    ensures forall i | 0 <= i < |Rows(secs)| :: Rows(secs)[i].name in Strtab(secs).offsets
  {
    var rows := Rows(secs);
    AllInterned(RowNames(rows));
    forall i | 0 <= i < |rows| ensures rows[i].name in Strtab(secs).offsets {
      assert RowNames(rows)[i] in Strtab(secs).offsets;
    }
  }

  ghost function Syms(secs: seq<Section>): (syms: seq<Sym>)
    ensures |syms| == |Rows(secs)|
  {
    StrtabHasRows(secs);
    Stamp(Rows(secs), Strtab(secs).offsets)
  }

  // -------------------------------------------------------------- relocations

  predicate Resolvable(machine: u16, index: map<Name, nat>, r: Reloc) {
    r.symbol in index && RelocType(machine, r.kind).Some?
  }

  /** The error a relocation causes: an unknown symbol is reported before an unknown kind. */
  function CheckUse(machine: u16, index: map<Name, nat>, u: Use): (e: Option<Error>)
    ensures e.None? <==> Resolvable(machine, index, u.rel)
  {
    if u.rel.symbol !in index then Some(MissingSymbol(u.sec, u.rel.symbol))
    else if RelocType(machine, u.rel.kind).None? then Some(UnsupportedReloc(u.sec, u.rel.kind))
    else None
  }

  /** The first error among the relocations, in order. */
  function FirstError(machine: u16, index: map<Name, nat>, us: seq<Use>): Option<Error> {
    if us == [] then None else
    var before := FirstError(machine, index, us[..|us| - 1]);
    if before.Some? then before else CheckUse(machine, index, us[|us| - 1])
  }

  function UseRecord(c: Class, machine: u16, index: map<Name, nat>, r: Reloc): (rec: Record)
    requires Resolvable(machine, index, r)
    ensures Shaped(RelaShape(c), rec)
  {
    RelaRecord(c, r.offset, RInfo(c, index[r.symbol], RelocType(machine, r.kind).value), r.addend)
  }

  predicate AllResolvable(machine: u16, index: map<Name, nat>, rs: seq<Reloc>) {
    forall i | 0 <= i < |rs| :: Resolvable(machine, index, rs[i])
  }

  function RelaRecords(c: Class, machine: u16, index: map<Name, nat>, rs: seq<Reloc>): (recs: seq<Record>)
    requires AllResolvable(machine, index, rs)
    ensures |recs| == |rs| && AllShaped(RelaShape(c), recs)
  {
    seq(|rs|, i requires 0 <= i < |rs| => UseRecord(c, machine, index, rs[i]))
  }

  /** Indices, among the first n sections, of those that have relocations. */
  function Relocated(secs: seq<Section>, n: nat): (w: seq<nat>)
    requires n <= |secs|
    ensures |w| <= n && forall j | 0 <= j < |w| :: w[j] < n && secs[w[j]].relocs != []
  {
    RelocatedFacts(secs, n);
    RelocatedUpTo(secs, n)
  }

  function RelocatedUpTo(secs: seq<Section>, n: nat): seq<nat>
    requires n <= |secs|
  {
    if n == 0 then [] else RelocatedUpTo(secs, n - 1) + if secs[n - 1].relocs != [] then [n - 1] else []
  }

  lemma {:induction false} RelocatedFacts(secs: seq<Section>, n: nat)
    requires n <= |secs|
    ensures var w := RelocatedUpTo(secs, n);
            |w| <= n && forall j | 0 <= j < |w| :: w[j] < n && secs[w[j]].relocs != []
  {
    if n > 0 { RelocatedFacts(secs, n - 1); }
  }

  /** relaIdxFor: the relocation section of section i is the one after those of all
      earlier relocated sections. */
  lemma {:induction false} RelocatedIndex(secs: seq<Section>, n: nat, i: nat)
    requires i < n <= |secs| && secs[i].relocs != []
    ensures |Relocated(secs, i)| < |Relocated(secs, n)| && Relocated(secs, n)[|Relocated(secs, i)|] == i
  {
    if i < n - 1 { RelocatedIndex(secs, n - 1, i); }
  }

  lemma {:induction false} RelocatedOnly(secs: seq<Section>, n: nat, j: nat)
    requires n <= |secs| && j < |Relocated(secs, n)|
    ensures |Relocated(secs, Relocated(secs, n)[j])| == j
  {
    if j < |Relocated(secs, n - 1)| { RelocatedOnly(secs, n - 1, j); }
  }

  // ------------------------------------------------------------------- groups

  function LinkOnce(secs: seq<Section>, n: nat): (w: seq<nat>)
    requires n <= |secs|
    ensures |w| <= n && forall j | 0 <= j < |w| :: w[j] < n && secs[w[j]].linkOnce
  {
    LinkOnceFacts(secs, n);
    LinkOnceUpTo(secs, n)
  }

  function LinkOnceUpTo(secs: seq<Section>, n: nat): seq<nat>
    requires n <= |secs|
  {
    if n == 0 then [] else LinkOnceUpTo(secs, n - 1) + if secs[n - 1].linkOnce then [n - 1] else []
  }

  lemma {:induction false} LinkOnceFacts(secs: seq<Section>, n: nat)
    requires n <= |secs|
    ensures var w := LinkOnceUpTo(secs, n);
            |w| <= n && forall j | 0 <= j < |w| :: w[j] < n && secs[w[j]].linkOnce
  {
    if n > 0 { LinkOnceFacts(secs, n - 1); }
  }

  /** comdatSig: the row of the first global or weak symbol that has one. */
  function ComdatSig(syms: seq<Symbol>, index: map<Name, nat>): Option<nat> {
    if syms == [] then None
    else if syms[0].binding != Local && syms[0].name in index then Some(index[syms[0].name])
    else ComdatSig(syms[1..], index)
  }

  function ComdatError(secs: seq<Section>, index: map<Name, nat>, n: nat): Option<Error>
    requires n <= |secs|
  {
    if n == 0 then None else
    var before := ComdatError(secs, index, n - 1);
    if before.Some? then before
    else if secs[n - 1].linkOnce && ComdatSig(secs[n - 1].symbols, index).None? then Some(NoComdatSignature(n - 1))
    else None
  }

  function WordList(ws: seq<nat>): seq<byte> {
    if ws == [] then [] else WordList(ws[..|ws| - 1]) + LE(4, ws[|ws| - 1])
  }

  /** The members of section i's group: the section itself and its relocations. */
  function GroupMembers(secs: seq<Section>, i: nat): seq<nat>
    requires i < |secs|
  {
    [1 + i] + if secs[i].relocs != [] then [1 + |secs| + |Relocated(secs, i)|] else []
  }

  // -------------------------------------------------------------- descriptors

  function SectionName(s: Section): Name {
    match s.kind
    case Text => Ascii(".text")
    case Data => Ascii(".data")
    case ROData => Ascii(".rodata")
    case BSS => Ascii(".bss")
    case Unwind => Ascii(".eh_frame")
    case InitArray => Ascii(".init_array")
    case FiniArray => Ascii(".fini_array")
    case TLS => if s.code != [] then Ascii(".tdata") else Ascii(".tbss")
    case Custom => s.custom
  }

  function VSize(s: Section): nat { if s.vsize > 0 then s.vsize else |s.code| }

  /** Sections that occupy no file bytes. */
  predicate NoBits(s: Section) { s.kind == BSS || (s.kind == TLS && s.code == []) }

  function SectionType(s: Section): nat {
    if NoBits(s) then SHT_NOBITS
    else if s.kind == InitArray then SHT_INIT_ARRAY
    else if s.kind == FiniArray then SHT_FINI_ARRAY
    else SHT_PROGBITS
  }

  function SectionFlags(s: Section): nat {
    match s.kind
    case Text => SHF_ALLOC + SHF_EXECINSTR
    case ROData => SHF_ALLOC
    case Unwind => SHF_ALLOC
    case Custom => SHF_ALLOC
    case TLS => SHF_ALLOC + SHF_WRITE + SHF_TLS
    case _ => SHF_ALLOC + SHF_WRITE
  }

  function SectionAlign(c: Class, s: Section): nat {
    if s.align > 0 then s.align
    else if s.kind == Text then 16
    else Word(c)
  }

  function ContentDesc(c: Class, s: Section): SecDesc {
    SecDesc(SectionName(s), SectionType(s), SectionFlags(s), 0, 0, SectionAlign(c, s), 0,
            if NoBits(s) then [] else s.code, if NoBits(s) then VSize(s) else 0, 0)
  }

  const NullDesc := SecDesc([], SHT_NULL, 0, 0, 0, 0, 0, [], 0, 0)

  function RelaName(s: Section): Name { Ascii(".rela") + SectionName(s) }

  function RelaDesc(x: Input, index: map<Name, nat>, i: nat, symtab: nat): SecDesc
    requires i < |x.secs| && AllResolvable(x.machine, index, x.secs[i].relocs)
  {
    SecDesc(RelaName(x.secs[i]), SHT_RELA, SHF_INFO_LINK, symtab, 1 + i, Word(x.class_), RelaSize(x.class_),
            Table(RelaRecords(x.class_, x.machine, index, x.secs[i].relocs)), 0, 0)
  }

  function GroupDescWith(symtab: nat, sig: nat, data: seq<byte>): SecDesc {
    SecDesc(Ascii(".group"), SHT_GROUP, 0, symtab, sig, 4, 4, data, 0, 0)
  }

  function GroupDesc(secs: seq<Section>, index: map<Name, nat>, i: nat, symtab: nat): SecDesc
    requires i < |secs| && ComdatSig(secs[i].symbols, index).Some?
  {
    GroupDescWith(symtab, ComdatSig(secs[i].symbols, index).value, WordList([1] + GroupMembers(secs, i)))
  }

  const NoteDesc := SecDesc(Ascii(".note.GNU-stack"), SHT_PROGBITS, 0, 0, 0, 1, 0, [], 0, 0)

  function NoteDescs(on: bool): seq<SecDesc> { if on then [NoteDesc] else [] }

  function SymtabDesc(c: Class, syms: seq<Sym>, strtab: nat, firstGlobal: nat): SecDesc {
    SecDesc(Ascii(".symtab"), SHT_SYMTAB, 0, strtab, firstGlobal, Word(c), SymSize(c), Table(SymRecords(c, syms)), 0, 0)
  }

  function StrtabDesc(n: Name, data: seq<byte>): SecDesc {
    SecDesc(n, SHT_STRTAB, 0, 0, 0, 1, 0, data, 0, 0)
  }

  function SymtabIdx(x: Input): nat {
    1 + |x.secs| + |Relocated(x.secs, |x.secs|)| + |LinkOnce(x.secs, |x.secs|)| + if x.gnuStack then 1 else 0
  }

  /** No relocation and no group can fail. */
  ghost predicate Buildable(x: Input) {
    FirstFailure(x, Index(x.secs)).None?
  }

  function ContentDescs(c: Class, secs: seq<Section>, n: nat): (ds: seq<SecDesc>)
    requires n <= |secs|
    ensures |ds| == n && forall i | 0 <= i < n :: ds[i] == ContentDesc(c, secs[i])
  {
    seq(n, i requires 0 <= i < n => ContentDesc(c, secs[i]))
  }

  /** The relocation descriptors of the first n sections. */
  function RelaDescs(x: Input, index: map<Name, nat>, n: nat): (ds: seq<SecDesc>)
    requires n <= |x.secs|
    requires forall i | 0 <= i < n :: AllResolvable(x.machine, index, x.secs[i].relocs)
    ensures |ds| == |Relocated(x.secs, n)|
    ensures forall j | 0 <= j < |ds| :: ds[j] == RelaDesc(x, index, Relocated(x.secs, n)[j], SymtabIdx(x))
  {
    var work := Relocated(x.secs, n);
    seq(|work|, j requires 0 <= j < |work| => RelaDesc(x, index, work[j], SymtabIdx(x)))
  }

  function GroupDescs(x: Input, index: map<Name, nat>, n: nat): (ds: seq<SecDesc>)
    requires n <= |x.secs|
    requires forall i | 0 <= i < n && x.secs[i].linkOnce :: ComdatSig(x.secs[i].symbols, index).Some?
    ensures |ds| == |LinkOnce(x.secs, n)|
    ensures forall j | 0 <= j < |ds| :: ds[j] == GroupDesc(x.secs, index, LinkOnce(x.secs, n)[j], SymtabIdx(x))
  {
    var work := LinkOnce(x.secs, n);
    seq(|work|, j requires 0 <= j < |work| => GroupDesc(x.secs, index, work[j], SymtabIdx(x)))
  }

  lemma {:induction false} NoFirstError(machine: u16, index: map<Name, nat>, us: seq<Use>)
    ensures FirstError(machine, index, us).None? <==> forall u | u in us :: Resolvable(machine, index, u.rel)
  {
    if us != [] {
      NoFirstError(machine, index, us[..|us| - 1]);
      SnocMember(us);
    }
  }

  lemma ErrorFree(x: Input, index: map<Name, nat>)
    requires FirstError(x.machine, index, AllUses(x.secs)).None?
    ensures forall i | 0 <= i < |x.secs| :: AllResolvable(x.machine, index, x.secs[i].relocs)
  {
    NoFirstError(x.machine, index, AllUses(x.secs));
    forall i, j | 0 <= i < |x.secs| && 0 <= j < |x.secs[i].relocs|
      ensures Resolvable(x.machine, index, x.secs[i].relocs[j])
    {
      UsesMember(x.secs, |x.secs|, 0, Use(i, x.secs[i].relocs[j]));
    }
  }

  lemma {:induction false} ComdatErrorFree(secs: seq<Section>, index: map<Name, nat>, n: nat)
    requires n <= |secs|
    ensures ComdatError(secs, index, n).None? <==>
            forall i | 0 <= i < n && secs[i].linkOnce :: ComdatSig(secs[i].symbols, index).Some?
  {
    if n > 0 { ComdatErrorFree(secs, index, n - 1); }
  }

  /** The descriptors other than the null one and .shstrtab, by group. */
  datatype Parts = Parts(content: seq<SecDesc>, rela: seq<SecDesc>, group: seq<SecDesc>, note: seq<SecDesc>,
                         symtab: SecDesc, strtab: SecDesc)

  function PartsWith(x: Input, index: map<Name, nat>, symtab: SecDesc, strtab: SecDesc): (p: Parts)
    requires FirstFailure(x, index).None?
    ensures |p.content| == |x.secs| && |p.rela| == |Relocated(x.secs, |x.secs|)|
    ensures |p.group| == |LinkOnce(x.secs, |x.secs|)| && p.note == NoteDescs(x.gnuStack)
  {
    ErrorFree(x, index);
    ComdatErrorFree(x.secs, index, |x.secs|);
    Parts(ContentDescs(x.class_, x.secs, |x.secs|), RelaDescs(x, index, |x.secs|), GroupDescs(x, index, |x.secs|),
          NoteDescs(x.gnuStack), symtab, strtab)
  }

  ghost function SymtabPart(x: Input): SecDesc {
    SymtabDesc(x.class_, Syms(x.secs), SymtabIdx(x) + 1, |LocalPart(x.secs)|)
  }

  ghost function StrtabPart(x: Input): SecDesc { StrtabDesc(Ascii(".strtab"), Strtab(x.secs).data) }

  ghost function PartsOf(x: Input): (p: Parts)
    requires Buildable(x)
    ensures |p.content| == |x.secs| && |p.rela| == |Relocated(x.secs, |x.secs|)|
    ensures |p.group| == |LinkOnce(x.secs, |x.secs|)| && p.note == NoteDescs(x.gnuStack)
    ensures p.symtab == SymtabPart(x) && p.strtab == StrtabPart(x)
  {
    PartsWith(x, Index(x.secs), SymtabPart(x), StrtabPart(x))
  }

  /** All descriptors but the last, in file order. */
  function Assemble(p: Parts): (ds: seq<SecDesc>)
    ensures |ds| == SymtabPos(p) + 2 && ds[0] == NullDesc
  {
    [NullDesc] + p.content + p.rela + p.group + p.note + [p.symtab] + [p.strtab]
  }

  function RelaPos(p: Parts): nat { 1 + |p.content| }
  function GroupPos(p: Parts): nat { RelaPos(p) + |p.rela| }
  function NotePos(p: Parts): nat { GroupPos(p) + |p.group| }
  function SymtabPos(p: Parts): nat { NotePos(p) + |p.note| }

  ghost function Body(x: Input): (ds: seq<SecDesc>)
    requires Buildable(x)
    ensures |ds| == SymtabIdx(x) + 2
  {
    Assemble(PartsOf(x))
  }

  function DescNames(ds: seq<SecDesc>): (ns: seq<Name>)
    ensures |ns| == |ds| && forall i | 0 <= i < |ds| :: ns[i] == ds[i].name
  {
    seq(|ds|, i requires 0 <= i < |ds| => ds[i].name)
  }

  /** The name table of a descriptor list that is about to be closed by .shstrtab,
      whose own name goes in before the table is captured. */
  function NameTable(body: seq<SecDesc>): StrTable {
    Sentinel.InternAll(DescNames(body) + [Ascii(".shstrtab")])
  }

  lemma NameTableHasNull(body: seq<SecDesc>)
    ensures [] in NameTable(body).offsets && NameTable(body).offsets[[]] == 0
  {
    EmptyNameFirst(DescNames(body) + [Ascii(".shstrtab")]);
  }

  function Closed(body: seq<SecDesc>): (ds: seq<SecDesc>)
    ensures |ds| == |body| + 1
  {
    body + [StrtabDesc(Ascii(".shstrtab"), NameTable(body).data)]
  }

  lemma ClosedHead(body: seq<SecDesc>)
    requires |body| > 0
    ensures Closed(body)[0] == body[0]
  {
  }

  ghost function Descs(x: Input): (ds: seq<SecDesc>)
    requires Buildable(x)
    ensures |ds| == SymtabIdx(x) + 3
  {
    Closed(Body(x))
  }

  ghost function Shstrtab(x: Input): StrTable
    requires Buildable(x)
  {
    NameTable(Body(x))
  }

  lemma ClosedNames(body: seq<SecDesc>)
    ensures NameTable(body) == Sentinel.InternAll(DescNames(Closed(body)))
    ensures forall i | 0 <= i < |Closed(body)| :: Closed(body)[i].name in NameTable(body).offsets
  {
    var ds := Closed(body);
    assert DescNames(ds) == DescNames(body) + [Ascii(".shstrtab")];
    AllInterned(DescNames(ds));
    forall i | 0 <= i < |ds| ensures ds[i].name in NameTable(body).offsets {
      assert DescNames(ds)[i] in NameTable(body).offsets;
    }
  }

  // ------------------------------------------------------------------- layout

  predicate HasBytes(d: SecDesc) { d.shType != SHT_NOBITS && d.data != [] }

  function OffsetAt(pos: nat, d: SecDesc): nat {
    if d.shType == SHT_NOBITS || d.data != [] then AlignUp(pos, d.align) else pos
  }

  function Advance(pos: nat, d: SecDesc): nat {
    OffsetAt(pos, d) + if HasBytes(d) then |d.data| else 0
  }

  /** The layout position on reaching descriptor k; the null descriptor takes no part. */
  function Pos(c: Class, ds: seq<SecDesc>, k: nat): nat
    requires k <= |ds|
  {
    if k <= 1 then EhdrSize(c) else Advance(Pos(c, ds, k - 1), ds[k - 1])
  }

  function FileOff(c: Class, ds: seq<SecDesc>, k: nat): nat
    requires k < |ds|
  {
    if k == 0 then 0 else OffsetAt(Pos(c, ds, k), ds[k])
  }

  function Shoff(c: Class, ds: seq<SecDesc>): nat { AlignUp(Pos(c, ds, |ds|), Word(c)) }

  function Placements(c: Class, ds: seq<SecDesc>, k: nat): seq<Placement>
    requires k <= |ds|
  {
    if k <= 1 then []
    else Placements(c, ds, k - 1) +
         if HasBytes(ds[k - 1]) then [Placement(FileOff(c, ds, k - 1), ds[k - 1].data)] else []
  }

  function HeaderRecord(c: Class, ds: seq<SecDesc>, names: map<Name, nat>, k: nat): (r: Record)
    requires k < |ds| && ds[k].name in names
    ensures Shaped(ShdrShape(c), r)
  {
    ShdrRecord(c, ds[k].(fileOff := FileOff(c, ds, k)), names[ds[k].name])
  }

  function HeaderRecords(c: Class, ds: seq<SecDesc>, names: map<Name, nat>): (recs: seq<Record>)
    requires forall i | 0 <= i < |ds| :: ds[i].name in names
    ensures |recs| == |ds| && AllShaped(ShdrShape(c), recs)
    ensures forall i | 0 <= i < |ds| :: recs[i] == HeaderRecord(c, ds, names, i)
  {
    seq(|ds|, i requires 0 <= i < |ds| => HeaderRecord(c, ds, names, i))
  }

  function FileHeader(c: Class, osabi: u8, machine: u16, ds: seq<SecDesc>, shstrtab: nat): (r: Record)
    ensures Shaped(EhdrShape(c), r)
  {
    EhdrRecord(c, osabi, machine, Shoff(c, ds), |ds|, shstrtab)
  }

  ghost function Header(x: Input): (r: Record)
    requires Buildable(x)
    ensures Shaped(EhdrShape(x.class_), r)
  {
    FileHeader(x.class_, x.osabi, x.machine, Descs(x), SymtabIdx(x) + 2)
  }

  /** The chunks of a file: section contents, then the section header table. */
  function AllChunks(c: Class, ds: seq<SecDesc>, table: seq<byte>): seq<Placement> {
    Placements(c, ds, |ds|) + [Placement(Shoff(c, ds), table)]
  }

  /** The file header followed by the chunks, each padded to its offset. */
  function FileOf(c: Class, header: seq<byte>, ds: seq<SecDesc>, names: map<Name, nat>): seq<byte>
    requires forall i | 0 <= i < |ds| :: ds[i].name in names
  {
    Emit(header, AllChunks(c, ds, Table(HeaderRecords(c, ds, names))))
  }

  /** The file made from a descriptor list that still lacks .shstrtab, which comes last. */
  function FileFrom(x: Input, body: seq<SecDesc>): seq<byte> {
    ClosedNames(body);
    FileOf(x.class_, Join(FileHeader(x.class_, x.osabi, x.machine, Closed(body), |body|)), Closed(body),
           NameTable(body).offsets)
  }

  ghost function Image(x: Input): seq<byte>
    requires Buildable(x)
  {
    FileFrom(x, Body(x))
  }

  /** The first relocation error, else the first group error. */
  function FirstFailure(x: Input, index: map<Name, nat>): Option<Error> {
    var e := FirstError(x.machine, index, AllUses(x.secs));
    if e.Some? then e else ComdatError(x.secs, index, |x.secs|)
  }

  ghost function Outcome(x: Input): Result<seq<byte>, Error> {
    var e := FirstFailure(x, Index(x.secs));
    if e.Some? then Err(e.value) else Ok(Image(x))
  }
}
