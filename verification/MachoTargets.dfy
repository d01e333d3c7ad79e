/** The symbols and relocations a reader recovers from a Mach-O file, decoded by the numbers of
    the format's headers and compared with the input alone. */
module MachoTargets {
  import opened Bytes
  import opened Names
  import opened Objects
  import opened MachoFormat
  import opened MachoSpec
  import opened MachoTables
  import opened MachoRoundTrip
  import opened MachoTheorems
  import opened MachoReader
  import opened MachoSymbols

  /** The object read from the file made from x. */
  ghost function ObjectOfFile(x: Input): (v: ObjectView)
    requires Buildable(x) && InBounds(x)
    ensures Writable(x, TablesOf(x.secs)) && ReadObject(FileOf(x, TablesOf(x.secs))) == Some(v)
  {
    RoundTrip(x);
    ReadObject(FileOf(x, TablesOf(x.secs))).value
  }

  lemma ObjectIs(x: Input)
    requires Buildable(x) && InBounds(x)
    ensures AllNamed(x.secs)
    ensures forall i | 0 <= i < |x.secs| :: AllResolvable(x.cpu, Rows(x.secs), Index(x.secs), x.secs[i].relocs)
    ensures ObjectOfFile(x) == Expected(x, TablesOf(x.secs))
  {
    RoundTrip(x);
  }

  /** The symbol table of every file: the null entry, one entry for each section, each local
      definition, each other definition, as far as they have names, and each external. */
  lemma TableRecovered(x: Input)
    requires Buildable(x) && InBounds(x)
    ensures TableIs(ObjectOfFile(x).symbols, x.secs, AllDefs(x.secs), Externals(x.secs, false))
  {
    ObjectIs(x);
    RowsAre(x.secs);
  }

  /** Every definition that has a name has an entry of its own. */
  lemma DefinitionRecovered(x: Input, d: Def) returns (k: nat)
    requires Buildable(x) && InBounds(x) && d in AllDefs(x.secs) && d.sym.name != []
    ensures k < |ObjectOfFile(x).symbols| && IsDef(ObjectOfFile(x).symbols[k], x.secs, d)
  {
    TableRecovered(x);
    k := DefinitionListed(ObjectOfFile(x).symbols, x.secs, AllDefs(x.secs), Externals(x.secs, false), d);
  }

  // ------------------------------------------------------------ relocation types

  /** X86_64_RELOC_UNSIGNED on eight bytes; BRANCH, GOT_LOAD and TLV, relative to their place. */
  function Amd64Kind(t: nat, length: nat, pcrel: bool): Option<RelocKind> {
    if t == 0 && length == 3 && !pcrel then Some(Abs64)
    else if length != 2 || !pcrel then None
    else if t == 2 then Some(PCRel32) else if t == 3 then Some(GOTLoad) else if t == 9 then Some(TLSGD) else None
  }

  /** ARM64_RELOC_UNSIGNED on eight bytes; the two page offsets; BRANCH26, PAGE21,
      GOT_LOAD_PAGE21 and TLVP_LOAD_PAGE21, relative to their place. */
  function Arm64Kind(t: nat, length: nat, pcrel: bool): Option<RelocKind> {
    if t == 0 && length == 3 && !pcrel then Some(Abs64)
    else if length != 2 then None
    else if !pcrel then (if t == 4 then Some(AddOff12) else if t == 6 then Some(GOTOff12) else None)
    else if t == 2 then Some(PCRel26) else if t == 3 then Some(ADRPage21)
    else if t == 5 then Some(GOTPage21) else if t == 7 then Some(TLSGD) else None
  }

  function KindFor(cpu: nat, t: nat, length: nat, pcrel: bool): Option<RelocKind> {
    if cpu == 0x0100_0007 then Amd64Kind(t, length, pcrel)
    else if cpu == 0x0100_000C then Arm64Kind(t, length, pcrel) else None
  }

  /** Native types, with field width and reference point, and the kinds a linker takes them
      for are inverse. */
  lemma KindRecovered(cpu: u32, k: RelocKind, t: nat, length: nat, pcrel: bool)
    ensures Describe(cpu, k) == Some(RelocDesc(t, length, pcrel)) <==> KindFor(cpu, t, length, pcrel) == Some(k)
  {
  }

  // ----------------------------------------------------------------- relocations

  /** The last definition of n that is not local, else the last local one. */
  function Chosen(ds: seq<Def>, n: Name): (j: Option<nat>)
    ensures j.Some? ==> j.value < |ds| && ds[j.value].sym.name == n
  {
    if Last(ds, n, ExportedDef).Some? then Last(ds, n, ExportedDef) else Last(ds, n, LocalDef)
  }

  predicate IsEntry(v: SymbolView, secs: seq<Section>, ds: seq<Def>, n: Name) {
    match Chosen(ds, n)
    case Some(j) => IsDef(v, secs, ds[j])
    case None => IsUndefined(v, n)
  }

  /** ARM64's page and page-offset relocations always name a symbol. */
  predicate IsPage(cpu: nat, k: RelocKind) { cpu == 0x0100_000C && k in {ADRPage21, AddOff12} }

  /** The number of its section for a target that resolves to a local definition; otherwise,
      and always for page relocations, the entry of what it resolves to. */
  predicate IsTarget(t: Target, cpu: nat, secs: seq<Section>, ds: seq<Def>, r: Reloc) {
    var j := Chosen(ds, r.symbol);
    if j.Some? && ds[j.value].sym.binding == Local && !IsPage(cpu, r.kind)
    then t == ToSection(1 + ds[j.value].sec)
    else t.ToSymbol? && IsEntry(t.sym, secs, ds, r.symbol)
  }

  /** v is relocation r: its site and kind, and what it refers to. */
  predicate IsReloc(v: RelocView, cpu: nat, secs: seq<Section>, ds: seq<Def>, r: Reloc) {
    && v.address == r.offset && KindFor(cpu, v.rtype, v.length, v.pcrel) == Some(r.kind)
    && IsTarget(v.target, cpu, secs, ds, r)
  }

  lemma EntryRead(secs: seq<Section>, n: Name)
    requires n in Index(secs) && n != []
    ensures IsEntry(SymbolViewOf(Resolved(secs, n)), secs, AllDefs(secs), n)
  {
    Resolution(secs, n);
    match Chosen(AllDefs(secs), n) {
      case Some(j) =>
        var d := AllDefs(secs)[j];
        if d.sym.binding == Local { LocalRead(secs, d); } else { ExportedRead(secs, d); }
      case None => UndefinedRead(n);
    }
  }

  lemma PageKinds(cpu: u32, k: RelocKind)
    requires Describe(cpu, k).Some?
    ensures PageReloc(cpu, Describe(cpu, k).value) <==> IsPage(cpu, k)
  {
  }

  /** What TargetMeaning says, with the definition that is chosen. */
  lemma TargetFrom(t: Target, cpu: nat, secs: seq<Section>, ds: seq<Def>, r: Reloc, sym: SymbolView)
    requires IsEntry(sym, secs, ds, r.symbol)
    requires var local, exported := Last(ds, r.symbol, LocalDef), Last(ds, r.symbol, ExportedDef);
             match t
             case ToSection(n) =>
               local.Some? && exported.None? && !IsPage(cpu, r.kind) && n == 1 + ds[local.value].sec
             case ToSymbol(v) => v == sym && (local.None? || exported.Some? || IsPage(cpu, r.kind))
    ensures IsTarget(t, cpu, secs, ds, r)
  {
  }

  lemma TargetRead(x: Input, i: nat, j: nat)
    requires Buildable(x) && i < |x.secs| && j < |x.secs[i].relocs|
    ensures Resolvable(x.cpu, Rows(x.secs), Index(x.secs), x.secs[i].relocs[j])
    ensures IsTarget(TargetOf(x.cpu, Rows(x.secs), Index(x.secs), x.secs[i].relocs[j]), x.cpu, x.secs, AllDefs(x.secs),
                     x.secs[i].relocs[j])
  {
    var r := x.secs[i].relocs[j];
    TargetMeaning(x, i, j);
    PageKinds(x.cpu, r.kind);
    IndexPoints(x.secs);
    RowNamed(x.secs, Index(x.secs)[r.symbol]);
    EntryRead(x.secs, r.symbol);
    TargetFrom(TargetOf(x.cpu, Rows(x.secs), Index(x.secs), r), x.cpu, x.secs, AllDefs(x.secs), r,
               SymbolViewOf(Resolved(x.secs, r.symbol)));
  }

  lemma RelocRead(x: Input, i: nat, j: nat)
    requires Buildable(x) && i < |x.secs| && j < |x.secs[i].relocs|
    requires AllResolvable(x.cpu, Rows(x.secs), Index(x.secs), x.secs[i].relocs)
    ensures IsReloc(RelocViewsOf(x.cpu, Rows(x.secs), Index(x.secs), x.secs[i].relocs)[j], x.cpu, x.secs,
                    AllDefs(x.secs), x.secs[i].relocs[j])
  {
    var r := x.secs[i].relocs[j];
    TargetRead(x, i, j);
    var d := Describe(x.cpu, r.kind).value;
    KindRecovered(x.cpu, r.kind, d.rtype, d.length, d.pcrel);
  }

  /** The relocations of a section with file bytes are recovered one for one, and each that
      names a symbol leads to the entry of the definition its target resolves to. */
  lemma RelocsRecovered(x: Input, i: nat, j: nat)
    requires Buildable(x) && InBounds(x) && i < |x.secs| && j < |x.secs[i].relocs|
    requires x.secs[i].kind != BSS && (x.secs[i].kind == TLS ==> x.secs[i].code != [])
    ensures var o := ObjectOfFile(x);
            && i < |o.sections| && |o.sections[i].relocs| == |x.secs[i].relocs|
            && IsReloc(o.sections[i].relocs[j], x.cpu, x.secs, AllDefs(x.secs), x.secs[i].relocs[j])
  {
    ObjectIs(x);
    RelocRead(x, i, j);
  }
}
