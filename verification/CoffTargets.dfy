/** The symbols and relocations a reader recovers from a COFF file, decoded by the numbers of
    the PE/COFF specification and compared with the input alone. */
module CoffTargets {
  import opened Bytes
  import opened Names
  import opened Objects
  import opened CoffFormat
  import opened CoffSpec
  import opened CoffTables
  import opened CoffWalk
  import opened CoffTheorems
  import opened CoffReader
  import opened CoffSymbols
  import CoffMeaning

  /** The symbol table of every file: one symbol for each section, one for each definition
      and one for each undefined name, in this order, and nothing else. */
  lemma TableRecovered(machine: u16, secs: seq<Section>)
    requires Buildable(machine, secs) && InBounds(machine, secs)
    ensures TableIs(ObjectOfFile(machine, secs).symbols, secs, AllDefs(secs), Externals(secs, true))
  {
    RoundTrip(machine, secs);
    ViewsAre(secs, ObjectOfFile(machine, secs).symbols);
  }

  // ------------------------------------------------------------ relocation types

  /** IMAGE_REL_AMD64_ADDR64, ADDR32, ADDR32NB, REL32 and SECREL; the input has two kinds for
      some of them. */
  function Amd64Kinds(t: nat): set<RelocKind> {
    match t
    case 1 => {Abs64}
    case 2 => {Abs32}
    case 3 => {IAT, Addr32NB}
    case 4 => {PCRel32, PLT32}
    case 11 => {TLSIE}
    case _ => {}
  }

  /** IMAGE_REL_ARM64_ADDR32, ADDR32NB, BRANCH26, SECREL and ADDR64. */
  function Arm64Kinds(t: nat): set<RelocKind> {
    match t
    case 1 => {Abs32}
    case 2 => {IAT, Addr32NB}
    case 3 => {PCRel26, PLT32}
    case 8 => {TLSIE}
    case 14 => {Abs64}
    case _ => {}
  }

  function KindsFor(machine: nat, t: nat): set<RelocKind> {
    if machine == 0x8664 then Amd64Kinds(t) else if machine == 0xAA64 then Arm64Kinds(t) else {}
  }

  /** A kind is written as type t exactly if a linker takes type t for that kind. */
  lemma KindRecovered(machine: u16, k: RelocKind, t: nat)
    ensures RelocType(machine, k) == Some(t) <==> k in KindsFor(machine, t)
  {
  }

  // ----------------------------------------------------------------- relocations

  /** v is the record of the last definition of n, or an undefined external one. */
  predicate IsEntry(v: SymbolView, ds: seq<Def>, n: Name) {
    match Last(ds, n, AnyDef)
    case Some(j) => IsDef(v, ds[j])
    case None => IsUndefined(v, n)
  }

  /** v is relocation r: its site and kind, and the record of its target. */
  predicate IsReloc(v: RelocView, machine: u16, r: Reloc, ds: seq<Def>) {
    && v.offset == r.offset && r.kind in KindsFor(machine, v.rtype)
    && v.sym.name == r.symbol && IsEntry(v.sym, ds, r.symbol)
  }

  lemma RelocRead(machine: u16, secs: seq<Section>, t: Tables, rs: seq<Reloc>, j: nat)
    requires AllTargeted(machine, t, rs) && j < |rs| && t.index == Index(secs) && t.slots == Slots(secs)
    ensures IsReloc(RelocViewsOf(machine, t, rs)[j], machine, rs[j], AllDefs(secs))
  {
    assert Targeted(machine, t, rs[j]);
    CoffMeaning.Resolution(secs, rs[j].symbol);
    KindRecovered(machine, rs[j].kind, RelocType(machine, rs[j].kind).value);
  }

  lemma RelocFound(machine: u16, t: Tables, rs: seq<Reloc>, j: nat)
    requires AllTargeted(machine, t, rs) && j < |rs| && Regular(t.slots)
    ensures var v := RelocViewsOf(machine, t, rs)[j]; SymbolAt(Views(t.slots, 0), v.sym.slot) == Some(v.sym)
  {
    assert Targeted(machine, t, rs[j]);
    ViewFound(t.slots, 0, t.index[rs[j].symbol]);
  }

  /** Relocation j of section i in object o, with its record found in the symbol table. */
  predicate RelocGiven(machine: u16, secs: seq<Section>, o: ObjectView, i: nat, j: nat) {
    && i < |secs| && i < |o.sections| && j < |o.sections[i].relocs| == |secs[i].relocs|
    && var v := o.sections[i].relocs[j];
       && IsReloc(v, machine, secs[i].relocs[j], AllDefs(secs))
       && SymbolAt(o.symbols, v.sym.slot) == Some(v.sym)
  }

  lemma RelocIn(machine: u16, secs: seq<Section>, t: Tables, o: ObjectView, i: nat, j: nat)
    requires TablesSound(machine, secs, t) && t.index == Index(secs) && t.slots == Slots(secs)
    requires i < |secs| && !BssLike(secs[i]) && j < |secs[i].relocs|
    requires o == ObjectView(machine, SectionViewsOf(machine, t, secs), Views(t.slots, 0))
    ensures RelocGiven(machine, secs, o, i, j)
  {
    RelocRead(machine, secs, t, secs[i].relocs, j);
    RelocFound(machine, t, secs[i].relocs, j);
  }

  /** The relocations of a section with file bytes are recovered one for one, and each index
      leads to the record of the definition its target resolves to. */
  lemma RelocsRecovered(machine: u16, secs: seq<Section>, i: nat, j: nat)
    requires Buildable(machine, secs) && InBounds(machine, secs)
    requires i < |secs| && !BssLike(secs[i]) && j < |secs[i].relocs|
    ensures RelocGiven(machine, secs, ObjectOfFile(machine, secs), i, j)
  {
    RoundTrip(machine, secs);
    RelocIn(machine, secs, TablesOf(secs), ObjectOfFile(machine, secs), i, j);
  }
}
