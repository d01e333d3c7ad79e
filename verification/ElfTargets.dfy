/** The symbols and relocations a reader recovers from an ELF file, decoded by the numbers of
    the gABI and of the processor supplements, and compared with the input alone. */
module ElfTargets {
  import opened Bytes
  import opened Names
  import opened Objects
  import opened ElfFormat
  import opened ElfSpec
  import opened ElfReader
  import opened ElfRoundTrip
  import opened ElfTables
  import opened ElfReading
  import opened ElfRecovered
  import opened ElfSymbols
  import ElfMeaning

  // ---------------------------------------------------------------- symbol table

  /** The symbol table of every file: the null entry, one entry for each section, each local
      definition but for section labels, each global or weak one, and each external, and
      nothing else; sh_info is where the locals end. */
  lemma TableRecovered(x: Input)
    requires Buildable(x) && InBounds(x)
    ensures var o, m := ObjectOfImage(x), SymtabIdx(x);
            && m < |o.sections|
            && TableIs(o.symbols, o.sections[m].info, |x.secs|, AllDefs(x.secs), Externals(x.secs, false))
  {
    Recovered(x);
    SymtabReadBack(x);
    RowsAre(x.secs);
  }

  /** Every definition has an entry of its own, unless it is a local section label. */
  lemma DefinitionRecovered(x: Input, d: Def) returns (k: nat)
    requires Buildable(x) && InBounds(x)
    requires d in AllDefs(x.secs) && (d.sym.binding == Local ==> d.sym.kind != SymSection)
    ensures k < |ObjectOfImage(x).symbols| && IsDef(ObjectOfImage(x).symbols[k], d)
  {
    TableRecovered(x);
    var o := ObjectOfImage(x);
    k := DefinitionListed(o.symbols, o.sections[SymtabIdx(x)].info, |x.secs|, AllDefs(x.secs),
                          Externals(x.secs, false), d);
  }

  // ------------------------------------------------------------ relocation types

  /** R_X86_64_64, PC32, PLT32, GOTPCREL, 32, TLSGD, GOTTPOFF and TPOFF32. */
  function Amd64Kind(t: nat): Option<RelocKind> {
    match t
    case 1 => Some(Abs64)
    case 2 => Some(PCRel32)
    case 4 => Some(PLT32)
    case 9 => Some(GOTLoad)
    case 10 => Some(Abs32)
    case 19 => Some(TLSGD)
    case 22 => Some(TLSIE)
    case 23 => Some(TLSLE)
    case _ => None
  }

  /** R_AARCH64_ABS64, ABS32, ADR_PREL_PG_HI21, ADD_ABS_LO12_NC, CALL26, ADR_GOT_PAGE,
      LD64_GOT_LO12_NC, TLSGD_ADR_PAGE21, TLSIE_ADR_GOTTPREL_PAGE21 and TLSLE_ADD_TPREL_LO12_NC. */
  function Arm64Kind(t: nat): Option<RelocKind> {
    match t
    case 257 => Some(Abs64)
    case 258 => Some(Abs32)
    case 275 => Some(ADRPage21)
    case 277 => Some(AddOff12)
    case 283 => Some(PCRel26)
    case 311 => Some(GOTPage21)
    case 312 => Some(GOTOff12)
    case 513 => Some(TLSGD)
    case 541 => Some(TLSIE)
    case 554 => Some(TLSLE)
    case _ => None
  }

  /** R_386_32, PC32 and GOT32. */
  function I386Kind(t: nat): Option<RelocKind> {
    match t
    case 1 => Some(Abs32)
    case 2 => Some(PCRel32)
    case 3 => Some(GOTLoad)
    case _ => None
  }

  /** R_RISCV_32, 64, CALL_PLT, TLS_GOT_HI20, TLS_GD_HI20, HI20, LO12_I, LO12_S and TPREL_HI20. */
  function RiscvKind(t: nat): Option<RelocKind> {
    match t
    case 1 => Some(Abs32)
    case 2 => Some(Abs64)
    case 19 => Some(RISCVCall)
    case 21 => Some(TLSIE)
    case 22 => Some(TLSGD)
    case 26 => Some(RISCVHI20)
    case 27 => Some(RISCVLO12I)
    case 28 => Some(RISCVLO12S)
    case 29 => Some(TLSLE)
    case _ => None
  }

  /** What a type number means to a linker for the machine with number m. */
  function KindFor(m: nat, t: nat): Option<RelocKind> {
    if m == 62 then Amd64Kind(t) else if m == 183 then Arm64Kind(t)
    else if m == 3 then I386Kind(t) else if m == 243 then RiscvKind(t) else None
  }

  /** Native types and the kinds a linker takes them for are inverse: no two kinds share a
      type, and a kind is written exactly if the machine has it. */
  lemma KindRecovered(machine: u16, k: RelocKind, t: nat)
    ensures RelocType(machine, k) == Some(t) <==> KindFor(machine, t) == Some(k)
  {
  }

  // ----------------------------------------------------------------- relocations

  /** v is the entry of the definition that n resolves to, or an undefined one. */
  predicate IsEntry(v: SymbolView, ds: seq<Def>, n: Name) {
    match ElfMeaning.Chosen(ds, n)
    case Some(j) => IsDef(v, ds[j])
    case None => IsUndefined(v, n)
  }

  /** v is relocation r: its site, addend and kind, and the entry of its target. */
  predicate IsReloc(v: RelocView, machine: u16, r: Reloc, ds: seq<Def>) {
    && v.offset == r.offset && v.addend == r.addend && KindFor(machine, v.rtype) == Some(r.kind)
    && v.sym.name == r.symbol && IsEntry(v.sym, ds, r.symbol)
  }

  lemma EntryRead(secs: seq<Section>, n: Name)
    requires n in Index(secs)
    ensures IsEntry(SymbolViewOf(ElfMeaning.Resolved(secs, n)), AllDefs(secs), n)
  {
    ElfMeaning.Resolution(secs, n);
    match ElfMeaning.Chosen(AllDefs(secs), n) {
      case Some(j) => DefRead(AllDefs(secs)[j]);
      case None => UndefinedRead(n);
    }
  }

  lemma RelocRead(x: Input, t: Tables, i: nat, j: nat)
    requires TargetedAt(x, t, i) && j < |x.secs[i].relocs|
    requires t.index == Index(x.secs) && t.rows == Rows(x.secs)
    ensures IsReloc(RelocsAt(x, t, i)[j], x.machine, x.secs[i].relocs[j], AllDefs(x.secs))
  {
    var r := x.secs[i].relocs[j];
    assert Targeted(x.machine, t.rows, t.index, r);
    EntryRead(x.secs, r.symbol);
    KindRecovered(x.machine, r.kind, RelocType(x.machine, r.kind).value);
  }

  lemma RelocIndexed(x: Input, t: Tables, i: nat, j: nat)
    requires TargetedAt(x, t, i) && j < |x.secs[i].relocs|
    ensures var v := RelocsAt(x, t, i)[j];
            v.index < |t.rows| && v.sym == SymbolViewsOf(t.rows)[v.index]
  {
    assert Targeted(x.machine, t.rows, t.index, x.secs[i].relocs[j]);
  }

  /** The relocations of section i are recovered one for one, and each index leads to an
      entry of the symbol table that describes the definition its target resolves to. */
  lemma RelocsRecovered(x: Input, i: nat, j: nat)
    requires Buildable(x) && InBounds(x) && i < |x.secs| && j < |x.secs[i].relocs|
    ensures var o := ObjectOfImage(x);
            && 1 + i < |o.relocs| && |o.relocs[1 + i]| == |x.secs[i].relocs|
            && var v := o.relocs[1 + i][j];
               && IsReloc(v, x.machine, x.secs[i].relocs[j], AllDefs(x.secs))
               && v.index < |o.symbols| && o.symbols[v.index] == v.sym
  {
    var t := TablesOf(x);
    Recovered(x);
    SectionsRecovered(x, i);
    RelocRead(x, t, i, j);
    RelocIndexed(x, t, i, j);
  }
}
