/** What a Mach-O object file contains, as a function of the input: the nlist rows, the
    relocation records, patched section data, layout and the resulting bytes. */
module MachoSpec {
  import opened Bytes
  import opened Bits
  import opened Names
  import opened Objects
  import opened StringTable
  import opened Patch
  import opened Layout
  import opened MachoFormat

  datatype Error =
    | UnsupportedReloc(sec: nat, kind: RelocKind)
    | NotSegmentSection(sec: nat)
    | MissingSymbol(sec: nat, symbol: Name)

  datatype BuildVersion = BuildVersion(platform: u32, minOS: u32, sdk: u32)

  /** Everything serialisation depends on. */
  datatype Input = Input(cpu: u32, build: Option<BuildVersion>, secs: seq<Section>)

  // ------------------------------------------------------------ symbol table

  /** An nlist row before its name, prefixed with "_", is replaced by an offset.  Section
      numbers start at 1; 0 means no section. */
  datatype Row = Row(name: Name, binding: Binding, ntype: nat, sect: nat, desc: nat, value: nat)

  const NullRow := Row([], Local, 0, 0, 0, 0)

  function SectionRow(i: nat): Row { Row([], Local, N_SECT, 1 + i, 0, 0) }

  function LocalRow(d: Def): Row { Row(d.sym.name, Local, N_SECT, 1 + d.sec, 0, d.sym.offset) }

  predicate WeakDef(secs: seq<Section>, d: Def) {
    d.sym.binding == Weak || (d.sec < |secs| && secs[d.sec].linkOnce)
  }

  function ExportedRow(secs: seq<Section>, d: Def): Row {
    Row(d.sym.name, d.sym.binding, N_SECT + N_EXT, 1 + d.sec, if WeakDef(secs, d) then N_WEAK_DEF else 0, d.sym.offset)
  }

  function ExternalRow(n: Name): Row { Row(n, Global, N_UNDF + N_EXT, 0, 0, 0) }

  function HeadRows(n: nat): (rows: seq<Row>)
    ensures |rows| == 1 + n
  {
    if n == 0 then [NullRow] else HeadRows(n - 1) + [SectionRow(n - 1)]
  }

  predicate IsLocal(d: Def) { d.sym.name != [] && Picked(d, LocalDef) }

  predicate IsExported(d: Def) { d.sym.name != [] && Picked(d, ExportedDef) }

  function LocalRows(ds: seq<Def>): seq<Row> {
    if ds == [] then []
    else LocalRows(ds[..|ds| - 1]) + if IsLocal(ds[|ds| - 1]) then [LocalRow(ds[|ds| - 1])] else []
  }

  function ExportedRows(secs: seq<Section>, ds: seq<Def>): seq<Row> {
    if ds == [] then []
    else ExportedRows(secs, ds[..|ds| - 1]) + if IsExported(ds[|ds| - 1]) then [ExportedRow(secs, ds[|ds| - 1])] else []
  }

  function ExternalRows(ns: seq<Name>): (rows: seq<Row>)
    ensures |rows| == |ns| && forall k | 0 <= k < |ns| :: rows[k] == ExternalRow(ns[k])
  {
    seq(|ns|, k requires 0 <= k < |ns| => ExternalRow(ns[k]))
  }

  ghost function Rows(secs: seq<Section>): seq<Row> {
    HeadRows(|secs|) + LocalRows(AllDefs(secs)) + ExportedRows(secs, AllDefs(secs))
    + ExternalRows(Externals(secs, false))
  }

  const UNDERSCORE: byte := 95

  /** What the string table stores for a row: nothing for the anonymous ones. */
  function RowString(r: Row): Name { if r.name == [] then [] else [UNDERSCORE] + r.name }

  function RowNames(rows: seq<Row>): (ns: seq<Name>)
    ensures |ns| == |rows| && forall i | 0 <= i < |rows| :: ns[i] == rows[i].name
  {
    seq(|rows|, i requires 0 <= i < |rows| => rows[i].name)
  }

  function RowStrings(rows: seq<Row>): (ns: seq<Name>)
    ensures |ns| == |rows| && forall i | 0 <= i < |rows| :: ns[i] == RowString(rows[i])
  {
    seq(|rows|, i requires 0 <= i < |rows| => RowString(rows[i]))
  }

  /** symDefs: the row a name resolves to. */
  ghost function Index(secs: seq<Section>): map<Name, nat> { LastIndex(RowNames(Rows(secs)), 1 + |secs|) }

  ghost function Strtab(secs: seq<Section>): StrTable { Sentinel.InternAll(RowStrings(Rows(secs))) }

  predicate Stored(rows: seq<Row>, offsets: map<Name, nat>) {
    forall i | 0 <= i < |rows| :: RowString(rows[i]) in offsets
  }

  function NlistRecord(r: Row, strx: nat): (rec: Record)
    ensures Shaped(NLIST, rec)
  {
    [LE(4, strx), LE(1, r.ntype), LE(1, r.sect), LE(2, r.desc), LE(8, r.value)]
  }

  function NlistRecords(rows: seq<Row>, offsets: map<Name, nat>): (recs: seq<Record>)
    requires Stored(rows, offsets)
    ensures |recs| == |rows| && AllShaped(NLIST, recs)
    ensures forall i | 0 <= i < |rows| :: recs[i] == NlistRecord(rows[i], offsets[RowString(rows[i])])
  {
    seq(|rows|, i requires 0 <= i < |rows| => NlistRecord(rows[i], offsets[RowString(rows[i])]))
  }

  // -------------------------------------------------------------- relocations

  /** ARM64 ADRP and page-offset relocations always name a symbol. */
  predicate PageReloc(cpu: u32, d: RelocDesc) {
    cpu == CPU_ARM64 && (d.rtype == ARM64_PAGE21 || d.rtype == ARM64_PAGEOFF12)
  }

  /** r_extern: whether the relocation names a symbol instead of a section. */
  predicate ByName(cpu: u32, r: Row, d: RelocDesc) {
    !(r.binding == Local && r.sect > 0 && !PageReloc(cpu, d))
  }

  predicate Resolvable(cpu: u32, rows: seq<Row>, index: map<Name, nat>, r: Reloc) {
    Describe(cpu, r.kind).Some? && r.symbol in index && index[r.symbol] < |rows|
  }

  predicate AllResolvable(cpu: u32, rows: seq<Row>, index: map<Name, nat>, rs: seq<Reloc>) {
    forall i | 0 <= i < |rs| :: Resolvable(cpu, rows, index, rs[i])
  }

  /** r_symbolnum: the symbol's row, or the section's number. */
  function SymbolNumFor(cpu: u32, rows: seq<Row>, i: nat, d: RelocDesc): nat
    requires i < |rows|
  {
    if ByName(cpu, rows[i], d) then i else rows[i].sect
  }

  function InfoFor(cpu: u32, rows: seq<Row>, i: nat, d: RelocDesc): nat
    requires i < |rows|
  {
    PackRelocInfo(SymbolNumFor(cpu, rows, i, d), d.pcrel, d.length, ByName(cpu, rows[i], d), d.rtype)
  }

  function RelocRecord(cpu: u32, rows: seq<Row>, index: map<Name, nat>, r: Reloc): (rec: Record)
    requires Resolvable(cpu, rows, index, r)
    ensures Shaped(RELOC, rec)
  {
    [LE(4, r.offset), LE(4, InfoFor(cpu, rows, index[r.symbol], Describe(cpu, r.kind).value))]
  }

  function RelocRecords(cpu: u32, rows: seq<Row>, index: map<Name, nat>, rs: seq<Reloc>): (recs: seq<Record>)
    requires AllResolvable(cpu, rows, index, rs)
    ensures |recs| == |rs| && AllShaped(RELOC, recs)
    ensures forall i | 0 <= i < |rs| :: recs[i] == RelocRecord(cpu, rows, index, rs[i])
  {
    seq(|rs|, i requires 0 <= i < |rs| => RelocRecord(cpu, rows, index, rs[i]))
  }

  predicate Supported(cpu: u32, rs: seq<Reloc>) {
    forall i | 0 <= i < |rs| :: Describe(cpu, rs[i].kind).Some?
  }

  /** The write of a relocation's addend. */
  function AddendWrite(cpu: u32, r: Reloc): Write
    requires Describe(cpu, r.kind).Some?
  {
    Write(r.offset, LE(AddendSize(Describe(cpu, r.kind).value), r.addend))
  }

  /** The writes that bake the addends: a zero addend leaves the instruction bytes alone. */
  function AddendWrites(cpu: u32, rs: seq<Reloc>): seq<Write>
    requires Supported(cpu, rs)
  {
    if rs == [] then [] else
    var r := rs[|rs| - 1];
    AddendWrites(cpu, rs[..|rs| - 1]) + if r.addend == 0 then [] else [AddendWrite(cpu, r)]
  }

  function PatchedCode(cpu: u32, s: Section): (code: seq<byte>)
    requires Supported(cpu, s.relocs)
    ensures |code| == |s.code|
  {
    Apply(s.code, AddendWrites(cpu, s.relocs))
  }

  // ----------------------------------------------------------------- sections

  /** The position of the first comma. */
  function Comma(n: Name): (r: Option<nat>)
    ensures r.Some? ==> r.value < |n| && n[r.value] == 44
  {
    if n == [] then None else if n[0] == 44 then Some(0) else
    var k :- Comma(n[1..]);
    Some(k + 1)
  }

  predicate Named(s: Section) { s.kind == Custom ==> Comma(s.custom).Some? }

  function SegName(s: Section): Name
    requires Named(s)
  {
    match s.kind
    case Text => Ascii("__TEXT")
    case ROData => Ascii("__TEXT")
    case Unwind => Ascii("__TEXT")
    case Custom => s.custom[..Comma(s.custom).value]
    case _ => Ascii("__DATA")
  }

  function SectName(s: Section): Name
    requires Named(s)
  {
    match s.kind
    case Text => Ascii("__text")
    case Data => Ascii("__data")
    case ROData => Ascii("__const")
    case BSS => Ascii("__bss")
    case Unwind => Ascii("__unwind_info")
    case InitArray => Ascii("__mod_init_func")
    case FiniArray => Ascii("__mod_term_func")
    case TLS => if s.code != [] then Ascii("__thread_data") else Ascii("__thread_bss")
    case Custom => s.custom[Comma(s.custom).value + 1..]
  }

  predicate IsZerofill(s: Section) { s.kind == BSS || (s.kind == TLS && s.code == []) }

  function SectionFlags(s: Section): nat {
    if s.kind == Text then S_ATTR_PURE_INSTRUCTIONS + S_ATTR_SOME_INSTRUCTIONS
    else if IsZerofill(s) then S_ZEROFILL
    else S_REGULAR
  }

  function Align(s: Section): (a: nat)
    ensures a >= 1
  {
    if s.align > 0 then s.align
    else match s.kind
    case Text => 16
    case Unwind => 4
    case Custom => 1
    case _ => 8
  }

  function ZerofillSize(s: Section): nat { if s.vsize > 0 then s.vsize else |s.code| }

  function RawSize(s: Section): nat { if IsZerofill(s) then 0 else |s.code| }
  function Size(s: Section): nat { if IsZerofill(s) then ZerofillSize(s) else |s.code| }

  // ------------------------------------------------------------------- layout

  function SegCmdLen(n: nat): nat { SEG_CMD_SIZE + n * SECTION_SIZE }

  function BuildLen(build: Option<BuildVersion>): nat { if build.Some? then BUILD_CMD_SIZE else 0 }

  function CmdsLen(x: Input): nat { SegCmdLen(|x.secs|) + BuildLen(x.build) + SYMTAB_CMD_SIZE }

  function DataStart(x: Input): nat { HDR_SIZE + CmdsLen(x) }

  function Extents(secs: seq<Section>): (es: seq<Extent>)
    ensures |es| == |secs|
    ensures forall k | 0 <= k < |secs| ::
              es[k] == Extent(IsZerofill(secs[k]), Align(secs[k]), |secs[k].code| + |secs[k].relocs| * RELOC_SIZE)
  {
    seq(|secs|, k requires 0 <= k < |secs| =>
      Extent(IsZerofill(secs[k]), Align(secs[k]), |secs[k].code| + |secs[k].relocs| * RELOC_SIZE))
  }

  function DataOff(x: Input, k: nat): nat
    requires k < |x.secs|
  {
    Off(DataStart(x), Extents(x.secs), k)
  }

  function RelocCount(s: Section): nat { if IsZerofill(s) then 0 else |s.relocs| }

  function RelocOff(x: Input, k: nat): nat
    requires k < |x.secs|
  {
    if RelocCount(x.secs[k]) == 0 then 0 else DataOff(x, k) + |x.secs[k].code|
  }

  function SymOff(x: Input): nat { Pos(DataStart(x), Extents(x.secs), |x.secs|) }

  function StrOff(x: Input, nRows: nat): nat { SymOff(x) + nRows * NLIST_SIZE }

  function VmSize(secs: seq<Section>, n: nat): nat
    requires n <= |secs|
  {
    if n == 0 then 0 else VmSize(secs, n - 1) + Size(secs[n - 1])
  }

  function FileSize(secs: seq<Section>, n: nat): nat
    requires n <= |secs|
  {
    if n == 0 then 0 else FileSize(secs, n - 1) + RawSize(secs[n - 1])
  }

  // ------------------------------------------------------------------- records

  function HeaderOf(cpu: u32, nCmds: nat, cmdsLen: nat): (r: Record)
    ensures Shaped(HDR, r)
  {
    [LE(4, MH_MAGIC_64), LE(4, cpu), LE(4, 0), LE(4, MH_OBJECT), LE(4, nCmds), LE(4, cmdsLen),
     LE(4, MH_SUBSECTIONS_VIA_SYMBOLS), LE(4, 0)]
  }

  function FileHeader(x: Input): (r: Record)
    ensures Shaped(HDR, r)
  {
    HeaderOf(x.cpu, if x.build.Some? then 3 else 2, CmdsLen(x))
  }

  function SegmentCommand(x: Input): (r: Record)
    ensures Shaped(SEG_CMD, r)
  {
    [LE(4, LC_SEGMENT_64), LE(4, SegCmdLen(|x.secs|)), Zeros(16), LE(8, 0), LE(8, VmSize(x.secs, |x.secs|)),
     LE(8, DataStart(x)), LE(8, FileSize(x.secs, |x.secs|)), LE(4, VM_PROT_ALL), LE(4, VM_PROT_ALL),
     LE(4, |x.secs|), LE(4, 0)]
  }

  predicate AllNamed(secs: seq<Section>) { forall i | 0 <= i < |secs| :: Named(secs[i]) }

  function SectionRecord(x: Input, k: nat): (r: Record)
    requires k < |x.secs| && Named(x.secs[k])
    ensures Shaped(SECTION, r)
  {
    var s := x.secs[k];
    [Padded(SectName(s), 16), Padded(SegName(s), 16), LE(8, 0), LE(8, Size(s)), LE(4, DataOff(x, k)),
     LE(4, Log2Of(Align(s))), LE(4, RelocOff(x, k)), LE(4, RelocCount(s)), LE(4, SectionFlags(s)), LE(4, 0), LE(4, 0),
     LE(4, 0)]
  }

  function SectionRecords(x: Input): (recs: seq<Record>)
    requires AllNamed(x.secs)
    ensures |recs| == |x.secs| && AllShaped(SECTION, recs)
    ensures forall k | 0 <= k < |x.secs| :: recs[k] == SectionRecord(x, k)
  {
    seq(|x.secs|, k requires 0 <= k < |x.secs| => SectionRecord(x, k))
  }

  function BuildCommand(v: BuildVersion): (r: Record)
    ensures Shaped(SIX_WORDS, r)
  {
    [LE(4, LC_BUILD_VERSION), LE(4, BUILD_CMD_SIZE), LE(4, v.platform), LE(4, v.minOS), LE(4, v.sdk), LE(4, 0)]
  }

  function SymtabCommand(x: Input, nRows: nat, strSize: nat): (r: Record)
    ensures Shaped(SIX_WORDS, r)
  {
    [LE(4, LC_SYMTAB), LE(4, SYMTAB_CMD_SIZE), LE(4, SymOff(x)), LE(4, nRows), LE(4, StrOff(x, nRows)), LE(4, strSize)]
  }

  function BuildBytes(build: Option<BuildVersion>): seq<byte> {
    if build.Some? then Join(BuildCommand(build.value)) else []
  }

  // -------------------------------------------------------------------- the file

  datatype Tables = Tables(rows: seq<Row>, index: map<Name, nat>, strtab: StrTable)

  ghost function TablesOf(secs: seq<Section>): Tables { Tables(Rows(secs), Index(secs), Strtab(secs)) }

  ghost predicate Writable(x: Input, t: Tables) {
    && AllNamed(x.secs) && Stored(t.rows, t.strtab.offsets)
    && forall i | 0 <= i < |x.secs| :: AllResolvable(x.cpu, t.rows, t.index, x.secs[i].relocs)
  }

  function ChunkData(x: Input, rows: seq<Row>, index: map<Name, nat>, s: Section): seq<byte>
    requires AllResolvable(x.cpu, rows, index, s.relocs)
  {
    PatchedCode(x.cpu, s) + Table(RelocRecords(x.cpu, rows, index, s.relocs))
  }

  ghost function ChunkDatas(x: Input, t: Tables): (ds: seq<seq<byte>>)
    requires forall i | 0 <= i < |x.secs| :: AllResolvable(x.cpu, t.rows, t.index, x.secs[i].relocs)
    ensures |ds| == |x.secs|
    ensures forall k | 0 <= k < |x.secs| :: ds[k] == ChunkData(x, t.rows, t.index, x.secs[k])
  {
    seq(|x.secs|, k requires 0 <= k < |x.secs| => ChunkData(x, t.rows, t.index, x.secs[k]))
  }

  ghost function Preamble(x: Input, t: Tables): seq<byte>
    requires Writable(x, t)
  {
    Join(FileHeader(x)) + Join(SegmentCommand(x)) + Table(SectionRecords(x)) + BuildBytes(x.build)
    + Join(SymtabCommand(x, |t.rows|, |t.strtab.data|))
  }

  ghost function Placements(x: Input, t: Tables): seq<Placement>
    requires Writable(x, t)
  {
    Chunks(DataStart(x), Extents(x.secs), ChunkDatas(x, t), |x.secs|)
    + [Placement(SymOff(x), Table(NlistRecords(t.rows, t.strtab.offsets)))]
    + [Placement(StrOff(x, |t.rows|), t.strtab.data)]
  }

  ghost function FileOf(x: Input, t: Tables): seq<byte>
    requires Writable(x, t)
  {
    Emit(Preamble(x, t), Placements(x, t))
  }

  // --------------------------------------------------------------------- errors

  function FirstUnsupported(cpu: u32, us: seq<Use>): Option<Error> {
    if us == [] then None else
    var before := FirstUnsupported(cpu, us[..|us| - 1]);
    if before.Some? then before
    else if Describe(cpu, us[|us| - 1].rel.kind).None?
    then Some(UnsupportedReloc(us[|us| - 1].sec, us[|us| - 1].rel.kind))
    else None
  }

  function FirstUnnamed(secs: seq<Section>, n: nat): Option<Error>
    requires n <= |secs|
  {
    if n == 0 then None else
    var before := FirstUnnamed(secs, n - 1);
    if before.Some? then before
    else if !Named(secs[n - 1]) then Some(NotSegmentSection(n - 1))
    else None
  }

  function FirstMissing(index: map<Name, nat>, us: seq<Use>): Option<Error> {
    if us == [] then None else
    var before := FirstMissing(index, us[..|us| - 1]);
    if before.Some? then before
    else if us[|us| - 1].rel.symbol !in index
    then Some(MissingSymbol(us[|us| - 1].sec, us[|us| - 1].rel.symbol))
    else None
  }

  /** The failure, if any, in the order the phases detect it. */
  function FirstFailure(x: Input, index: map<Name, nat>): Option<Error> {
    var unsupported := FirstUnsupported(x.cpu, AllUses(x.secs));
    if unsupported.Some? then unsupported else
    var unnamed := FirstUnnamed(x.secs, |x.secs|);
    if unnamed.Some? then unnamed else FirstMissing(index, AllUses(x.secs))
  }

  ghost predicate Buildable(x: Input) { FirstFailure(x, Index(x.secs)).None? }
}
