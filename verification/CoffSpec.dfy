/** What a COFF object file contains, as a function of the input sections: string table,
    symbol slots, baked section data, layout and the resulting bytes. */
module CoffSpec {
  import opened Bytes
  import opened Bits
  import opened Names
  import opened Objects
  import opened StringTable
  import opened Patch
  import opened CoffFormat
  import Layout

  datatype Error =
    | TooManySections(n: nat)
    | EmptyCustomName(sec: nat)
    | MissingSymbol(sec: nat, symbol: Name)
    | UnsupportedReloc(sec: nat, kind: RelocKind)
    | TooManyRelocs(sec: nat, n: nat)

  // ------------------------------------------------------- .drectve and metadata

  /** Names of the symbols marked for export, in definition order. */
  function Exports(ds: seq<Def>): seq<Name> {
    if ds == [] then []
    else Exports(ds[..|ds| - 1]) + if ds[|ds| - 1].sym.dllExport then [ds[|ds| - 1].sym.name] else []
  }

  function DirectiveText(names: seq<Name>): seq<byte> {
    if names == [] then [] else DirectiveText(names[..|names| - 1]) + Ascii(" /EXPORT:") + names[|names| - 1]
  }

  function Drectve(names: seq<Name>): Section {
    Section(Custom, Ascii(".drectve"), 1, DirectiveText(names), 0, [], [], false)
  }

  /** The sections that are written: the input, then .drectve if anything is exported. */
  function AllSections(secs: seq<Section>): seq<Section> {
    var names := Exports(AllDefs(secs));
    if names == [] then secs else secs + [Drectve(names)]
  }

  function BaseName(s: Section): Name {
    match s.kind
    case Text => Ascii(".text")
    case Data => Ascii(".data")
    case ROData => Ascii(".rdata")
    case BSS => Ascii(".bss")
    case Unwind => Ascii(".pdata")
    case InitArray => Ascii(".CRT$XCU")
    case FiniArray => Ascii(".CRT$XTZ")
    case TLS => if s.code != [] then Ascii(".tls") else Ascii(".tls$ZZZ")
    case Custom => s.custom
  }

  /** firstGlobalName: empty if there is no global symbol. */
  function FirstGlobal(syms: seq<Symbol>): Name {
    if syms == [] then [] else if syms[0].binding == Global then syms[0].name else FirstGlobal(syms[1..])
  }

  function SectionName(s: Section): Name {
    if s.linkOnce && FirstGlobal(s.symbols) != [] then FirstGlobal(s.symbols) else BaseName(s)
  }

  function EffectiveAlign(s: Section): nat {
    if s.align > 0 then s.align
    else match s.kind
    case Text => 16
    case Unwind => 4
    case Custom => 1
    case _ => 8
  }

  predicate BssLike(s: Section) { s.kind == BSS || (s.kind == TLS && s.code == []) }

  function ReserveSize(s: Section): nat { if s.vsize > 0 then s.vsize else |s.code| }

  /** Characteristics other than alignment; the summands are distinct bits. */
  function BaseChars(s: Section): nat {
    (match s.kind
     case Text => SCN_CNT_CODE + SCN_MEM_EXECUTE + SCN_MEM_READ
     case Data => SCN_CNT_INITIALIZED_DATA + SCN_MEM_READ + SCN_MEM_WRITE
     case ROData => SCN_CNT_INITIALIZED_DATA + SCN_MEM_READ
     case BSS => SCN_CNT_UNINITIALIZED_DATA + SCN_MEM_READ + SCN_MEM_WRITE
     case Unwind => SCN_CNT_INITIALIZED_DATA + SCN_MEM_READ
     case InitArray => SCN_CNT_INITIALIZED_DATA + SCN_MEM_READ + SCN_MEM_WRITE
     case FiniArray => SCN_CNT_INITIALIZED_DATA + SCN_MEM_READ + SCN_MEM_WRITE
     case TLS => (if s.code != [] then SCN_CNT_INITIALIZED_DATA else SCN_CNT_UNINITIALIZED_DATA)
                 + SCN_MEM_READ + SCN_MEM_WRITE
     case Custom => SCN_CNT_INITIALIZED_DATA + SCN_MEM_READ + SCN_MEM_WRITE)
    + if s.linkOnce then SCN_LNK_COMDAT else 0
  }

  predicate IsDrectve(s: Section) { s.kind == Custom && s.custom == Ascii(".drectve") }

  function Chars(s: Section): nat {
    if IsDrectve(s) then SCN_LNK_INFO + SCN_LNK_REMOVE + 0x10_0000
    else Or(BaseChars(s), AlignFlag(EffectiveAlign(s)))
  }

  /** SizeOfRawData: bytes in the file, or the reservation of a BSS-like section. */
  function RawSize(s: Section): nat { if BssLike(s) then 0 else |s.code| }
  function HeaderSize(s: Section): nat { if BssLike(s) then ReserveSize(s) else |s.code| }

  // ------------------------------------------------------------- string table

  predicate IsLong(n: Name) { |n| > 8 }

  /** The names that do not fit inline, in order. */
  function Long(ns: seq<Name>): seq<Name> {
    if ns == [] then [] else Long(ns[..|ns| - 1]) + if IsLong(ns[|ns| - 1]) then [ns[|ns| - 1]] else []
  }

  function SymbolNames(syms: seq<Symbol>): (ns: seq<Name>)
    ensures |ns| == |syms| && forall i | 0 <= i < |syms| :: ns[i] == syms[i].name
  {
    seq(|syms|, i requires 0 <= i < |syms| => syms[i].name)
  }

  /** Section name, then symbol names, section by section. */
  function NameRun(secs: seq<Section>, n: nat): seq<Name>
    requires n <= |secs|
  {
    if n == 0 then []
    else NameRun(secs, n - 1) + [SectionName(secs[n - 1])] + SymbolNames(secs[n - 1].symbols)
  }

  ghost function Strtab(secs: seq<Section>): StrTable {
    Empty.InternAll(Long(NameRun(secs, |secs|))).InternAll(Long(Externals(secs, true)))
  }

  function StrtabBytes(t: StrTable): seq<byte> { LE(4, 4 + |t.data|) + t.data }

  // -------------------------------------------------------------- symbol slots

  /** One 18-byte slot: a symbol, or the section-definition record that follows one. */
  datatype Slot =
    | Primary(name: Name, value: nat, section: nat, typ: nat, class_: nat, nAux: nat)
    | Aux(length: nat, nRelocs: nat)

  function SectionSlots(secs: seq<Section>, n: nat): seq<Slot>
    requires n <= |secs|
  {
    if n == 0 then [] else
    var s := secs[n - 1];
    SectionSlots(secs, n - 1)
    + [Primary(SectionName(s), 0, n, TYPE_NULL, CLASS_STATIC, if s.linkOnce then 1 else 0)]
    + if s.linkOnce then [Aux(RawSize(s), |s.relocs|)] else []
  }

  function DefSlot(d: Def): Slot {
    Primary(d.sym.name, d.sym.offset, d.sec + 1, if d.sym.kind == SymFunc then TYPE_FUNC else TYPE_NULL,
            if d.sym.binding == Local then CLASS_STATIC else CLASS_EXTERNAL, 0)
  }

  function ExternalSlot(n: Name): Slot { Primary(n, 0, 0, TYPE_NULL, CLASS_EXTERNAL, 0) }

  function DefSlots(ds: seq<Def>): (slots: seq<Slot>)
    ensures |slots| == |ds| && forall i | 0 <= i < |ds| :: slots[i] == DefSlot(ds[i])
  {
    seq(|ds|, i requires 0 <= i < |ds| => DefSlot(ds[i]))
  }

  function ExternalSlots(ns: seq<Name>): (slots: seq<Slot>)
    ensures |slots| == |ns| && forall i | 0 <= i < |ns| :: slots[i] == ExternalSlot(ns[i])
  {
    seq(|ns|, i requires 0 <= i < |ns| => ExternalSlot(ns[i]))
  }

  ghost function Slots(secs: seq<Section>): seq<Slot> {
    SectionSlots(secs, |secs|) + DefSlots(AllDefs(secs)) + ExternalSlots(Externals(secs, true))
  }

  function SlotNames(slots: seq<Slot>): (ns: seq<Name>)
    ensures |ns| == |slots|
    ensures forall i | 0 <= i < |slots| :: ns[i] == if slots[i].Primary? then slots[i].name else []
  {
    seq(|slots|, i requires 0 <= i < |slots| => if slots[i].Primary? then slots[i].name else [])
  }

  /** symIdx: from a defined or external name to its slot. */
  ghost function Index(secs: seq<Section>): map<Name, nat> {
    LastIndex(SlotNames(Slots(secs)), |SectionSlots(secs, |secs|)|)
  }

  predicate Nameable(slot: Slot, offsets: map<Name, nat>) {
    slot.Primary? && IsLong(slot.name) ==> slot.name in offsets
  }

  function SlotRecord(slot: Slot, offsets: map<Name, nat>): (rec: Record)
    requires Nameable(slot, offsets)
    ensures Shaped(if slot.Primary? then SYM else AUX, rec)
  {
    match slot
    case Primary(name, value, section, typ, class_, nAux) =>
      [SymbolNameField(name, offsets), LE(4, value), LE(2, section), LE(2, typ), LE(1, class_), LE(1, nAux)]
    case Aux(length, nRelocs) =>
      [LE(4, length), LE(2, nRelocs), LE(2, 0), LE(4, 0), LE(2, 0), LE(1, COMDAT_SELECT_ANY), Zeros(3)]
  }

  function SlotBytes(slot: Slot, offsets: map<Name, nat>): seq<byte>
    requires Nameable(slot, offsets)
  {
    Join(SlotRecord(slot, offsets))
  }

  /** The symbol table as a table of opaque slots. */
  function SlotRecords(slots: seq<Slot>, offsets: map<Name, nat>): (recs: seq<Record>)
    requires forall i | 0 <= i < |slots| :: Nameable(slots[i], offsets)
    ensures |recs| == |slots|
    ensures forall i | 0 <= i < |slots| :: recs[i] == [SlotBytes(slots[i], offsets)]
  {
    seq(|slots|, i requires 0 <= i < |slots| => [SlotBytes(slots[i], offsets)])
  }

  // ---------------------------------------------------- relocations and addends

  predicate Supported(machine: u16, rs: seq<Reloc>) {
    forall i | 0 <= i < |rs| :: RelocType(machine, rs[i].kind).Some?
  }

  function RelocRecord(machine: u16, index: map<Name, nat>, r: Reloc): (rec: Record)
    requires r.symbol in index && RelocType(machine, r.kind).Some?
    ensures Shaped(RELOC, rec)
  {
    [LE(4, r.offset), LE(4, index[r.symbol]), LE(2, RelocType(machine, r.kind).value)]
  }

  predicate Resolvable(machine: u16, index: map<Name, nat>, rs: seq<Reloc>) {
    forall i | 0 <= i < |rs| :: rs[i].symbol in index && RelocType(machine, rs[i].kind).Some?
  }

  function RelocRecords(machine: u16, index: map<Name, nat>, rs: seq<Reloc>): (recs: seq<Record>)
    requires Resolvable(machine, index, rs)
    ensures |recs| == |rs| && AllShaped(RELOC, recs)
    ensures forall i | 0 <= i < |rs| :: recs[i] == RelocRecord(machine, index, rs[i])
  {
    seq(|rs|, i requires 0 <= i < |rs| => RelocRecord(machine, index, rs[i]))
  }

  /** The implicit addend: AMD64 REL32 is relative to the end of its field, so 4 is added. */
  function BakedAddend(machine: u16, rtype: nat, addend: int): int {
    if machine == MACHINE_AMD64 && rtype == REL_AMD64_REL32 then addend + 4 else addend
  }

  function AddendWriteAs(machine: u16, r: Reloc, t: nat): Write {
    Write(r.offset, LE(AddendSize(t), BakedAddend(machine, t, r.addend)))
  }

  function AddendWrite(machine: u16, r: Reloc): Write
    requires RelocType(machine, r.kind).Some?
  {
    AddendWriteAs(machine, r, RelocType(machine, r.kind).value)
  }

  function AddendWrites(machine: u16, rs: seq<Reloc>): (ws: seq<Write>)
    requires Supported(machine, rs)
    ensures |ws| == |rs| && forall i | 0 <= i < |rs| :: ws[i] == AddendWrite(machine, rs[i])
  {
    seq(|rs|, i requires 0 <= i < |rs| => AddendWrite(machine, rs[i]))
  }

  /** A section's bytes with its addends baked in. */
  function BakedCode(machine: u16, s: Section): (code: seq<byte>)
    requires Supported(machine, s.relocs)
    ensures |code| == |s.code|
  {
    Apply(s.code, AddendWrites(machine, s.relocs))
  }

  // ------------------------------------------------------------------- layout

  function HeaderEnd(n: nat): nat { FILE_HDR_SIZE + n * SEC_HDR_SIZE }

  function Extents(secs: seq<Section>): (es: seq<Layout.Extent>)
    ensures |es| == |secs|
    ensures forall k | 0 <= k < |secs| ::
              es[k] == Layout.Extent(BssLike(secs[k]), EffectiveAlign(secs[k]),
                  |secs[k].code| + |secs[k].relocs| * RELOC_SIZE)
  {
    seq(|secs|, k requires 0 <= k < |secs| =>
      Layout.Extent(BssLike(secs[k]), EffectiveAlign(secs[k]), |secs[k].code| + |secs[k].relocs| * RELOC_SIZE))
  }

  /** The position after the first k sections. */
  function Pos(secs: seq<Section>, k: nat): nat
    requires k <= |secs|
  {
    Layout.Pos(HeaderEnd(|secs|), Extents(secs), k)
  }

  /** PointerToRawData, PointerToRelocations and NumberOfRelocations: zero for BSS-like sections. */
  function RawOff(secs: seq<Section>, k: nat): nat
    requires k < |secs|
  {
    Layout.Off(HeaderEnd(|secs|), Extents(secs), k)
  }

  function RelocCount(s: Section): nat { if BssLike(s) then 0 else |s.relocs| }

  function RelocOff(secs: seq<Section>, k: nat): nat
    requires k < |secs|
  {
    if RelocCount(secs[k]) == 0 then 0 else RawOff(secs, k) + |secs[k].code|
  }

  ghost predicate Sound(machine: u16, secs: seq<Section>, index: map<Name, nat>) {
    forall i | 0 <= i < |secs| :: Resolvable(machine, index, secs[i].relocs)
  }

  function ChunkData(machine: u16, index: map<Name, nat>, s: Section): seq<byte>
    requires Resolvable(machine, index, s.relocs)
  {
    BakedCode(machine, s) + Table(RelocRecords(machine, index, s.relocs))
  }

  ghost function ChunkDatas(machine: u16, index: map<Name, nat>, secs: seq<Section>): (ds: seq<seq<byte>>)
    requires Sound(machine, secs, index)
    ensures |ds| == |secs| && forall k | 0 <= k < |secs| :: ds[k] == ChunkData(machine, index, secs[k])
  {
    seq(|secs|, k requires 0 <= k < |secs| => ChunkData(machine, index, secs[k]))
  }

  /** The data of the first k sections, where the layout puts it. */
  ghost function Chunks(machine: u16, index: map<Name, nat>, secs: seq<Section>, k: nat): seq<Placement>
    requires k <= |secs| && Sound(machine, secs, index)
  {
    Layout.Chunks(HeaderEnd(|secs|), Extents(secs), ChunkDatas(machine, index, secs), k)
  }

  // -------------------------------------------------------------------- records

  function FileHeader(machine: u16, n: nat, symOff: nat, nSlots: nat): (r: Record)
    ensures Shaped(FILE_HDR, r)
  {
    [LE(2, machine), LE(2, n), LE(4, 0), LE(4, symOff), LE(4, nSlots), LE(2, 0), LE(2, 0)]
  }

  function HeaderRecord(secs: seq<Section>, k: nat, offsets: map<Name, nat>): (r: Record)
    requires k < |secs| && (IsLong(SectionName(secs[k])) ==> SectionName(secs[k]) in offsets)
    ensures Shaped(SEC_HDR, r)
  {
    var s := secs[k];
    [SectionNameField(SectionName(s), offsets), LE(4, 0), LE(4, 0), LE(4, HeaderSize(s)), LE(4, RawOff(secs, k)),
     LE(4, RelocOff(secs, k)), LE(4, 0), LE(2, RelocCount(s)), LE(2, 0), LE(4, Chars(s))]
  }

  predicate SectionsNamed(secs: seq<Section>, offsets: map<Name, nat>) {
    forall i | 0 <= i < |secs| :: IsLong(SectionName(secs[i])) ==> SectionName(secs[i]) in offsets
  }

  function HeaderRecords(secs: seq<Section>, offsets: map<Name, nat>): (recs: seq<Record>)
    requires SectionsNamed(secs, offsets)
    ensures |recs| == |secs| && AllShaped(SEC_HDR, recs)
    ensures forall k | 0 <= k < |secs| :: recs[k] == HeaderRecord(secs, k, offsets)
  {
    seq(|secs|, k requires 0 <= k < |secs| => HeaderRecord(secs, k, offsets))
  }

  // -------------------------------------------------------------------- the file

  /** The tables of a file, apart from how they are computed. */
  datatype Tables = Tables(slots: seq<Slot>, index: map<Name, nat>, strtab: StrTable)

  ghost function TablesOf(secs: seq<Section>): Tables {
    Tables(Slots(secs), Index(secs), Strtab(secs))
  }

  /** Every long name is in the string table and every relocation is resolvable. */
  ghost predicate Writable(machine: u16, secs: seq<Section>, t: Tables) {
    && SectionsNamed(secs, t.strtab.offsets)
    && (forall i | 0 <= i < |t.slots| :: Nameable(t.slots[i], t.strtab.offsets))
    && Sound(machine, secs, t.index)
  }

  ghost function Preamble(machine: u16, secs: seq<Section>, t: Tables): seq<byte>
    requires Writable(machine, secs, t)
  {
    Join(FileHeader(machine, |secs|, Pos(secs, |secs|), |t.slots|)) + Table(HeaderRecords(secs, t.strtab.offsets))
  }

  ghost function SymbolBlock(machine: u16, secs: seq<Section>, t: Tables): seq<byte>
    requires Writable(machine, secs, t)
  {
    Table(SlotRecords(t.slots, t.strtab.offsets)) + StrtabBytes(t.strtab)
  }

  ghost function FileOf(machine: u16, secs: seq<Section>, t: Tables): seq<byte>
    requires Writable(machine, secs, t)
  {
    Emit(Preamble(machine, secs, t),
         Chunks(machine, t.index, secs, |secs|) + [Placement(Pos(secs, |secs|), SymbolBlock(machine, secs, t))])
  }

  // --------------------------------------------------------------------- errors

  function EmptyCustom(secs: seq<Section>, n: nat): Option<Error>
    requires n <= |secs|
  {
    if n == 0 then None else
    var before := EmptyCustom(secs, n - 1);
    if before.Some? then before
    else if secs[n - 1].kind == Custom && secs[n - 1].custom == [] then Some(EmptyCustomName(n - 1))
    else None
  }

  /** The error a relocation causes: an unknown symbol is reported before an unknown kind. */
  function CheckUse(machine: u16, index: map<Name, nat>, u: Use): Option<Error> {
    if u.rel.symbol !in index then Some(MissingSymbol(u.sec, u.rel.symbol))
    else if RelocType(machine, u.rel.kind).None? then Some(UnsupportedReloc(u.sec, u.rel.kind))
    else None
  }

  /** The first error among the relocations, in order. */
  function FirstError(machine: u16, index: map<Name, nat>, us: seq<Use>): Option<Error> {
    if us == [] then None else
    var before := FirstError(machine, index, us[..|us| - 1]);
    if before.Some? then before else CheckUse(machine, index, us[|us| - 1])
  }

  function Overfull(secs: seq<Section>, n: nat): Option<Error>
    requires n <= |secs|
  {
    if n == 0 then None else
    var before := Overfull(secs, n - 1);
    if before.Some? then before
    else if !BssLike(secs[n - 1]) && |secs[n - 1].relocs| > 0xFFFF
    then Some(TooManyRelocs(n - 1, |secs[n - 1].relocs|))
    else None
  }

  /** The failure, if any, of writing these sections, in the order the phases detect it. */
  function FirstFailure(machine: u16, secs: seq<Section>, index: map<Name, nat>): Option<Error> {
    if |secs| > 0xFFFF then Some(TooManySections(|secs|)) else
    var empty := EmptyCustom(secs, |secs|);
    if empty.Some? then empty else
    var error := FirstError(machine, index, AllUses(secs));
    if error.Some? then error else Overfull(secs, |secs|)
  }
}
