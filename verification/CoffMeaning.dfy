/** What a recovered COFF object says about the input: which symbols the table walk meets,
    what a target resolves to, how sections are aligned and patched, and exactly when the
    parts that the format duplicates or drops agree. */
module CoffMeaning {
  import opened Bytes
  import opened Bits
  import opened Names
  import opened Objects
  import opened Patch
  import opened CoffFormat
  import opened CoffSpec
  import opened CoffTables
  import opened CoffWalk
  import opened CoffSections
  import Layout
  import R = CoffReader

  // ------------------------------------------------------------- order of the walk

  /** The symbol of section i: its slot comes after those of earlier sections and of their
      section-definition records. */
  function SectionSymbol(secs: seq<Section>, i: nat): R.SymbolView
    requires i < |secs|
  {
    R.SymbolView(|SectionSlots(secs, i)|, SectionName(secs[i]), 0, i + 1, TYPE_NULL, CLASS_STATIC,
                 if secs[i].linkOnce then Some(DefinitionOf(RawSize(secs[i]), |secs[i].relocs|))
                 else None)
  }

  function PlainView(slot: Slot, k: nat): R.SymbolView
    requires slot.Primary?
  {
    R.SymbolView(k, slot.name, slot.value, slot.section, slot.typ, slot.class_, None)
  }

  function SectionSymbols(secs: seq<Section>, i: nat): (vs: seq<R.SymbolView>)
    requires i <= |secs|
    ensures |vs| == |secs| - i && forall j | 0 <= j < |vs| :: vs[j] == SectionSymbol(secs, i + j)
  {
    seq(|secs| - i, j requires 0 <= j < |secs| - i => SectionSymbol(secs, i + j))
  }

  predicate PlainFrom(slots: seq<Slot>, k: nat) {
    forall j | k <= j < |slots| :: slots[j].Primary? && slots[j].nAux == 0
  }

  function PlainViews(slots: seq<Slot>, k: nat): (vs: seq<R.SymbolView>)
    requires PlainFrom(slots, k) && k <= |slots|
    ensures |vs| == |slots| - k && forall j | 0 <= j < |vs| :: vs[j] == PlainView(slots[k + j], k + j)
  {
    seq(|slots| - k, j requires 0 <= j < |slots| - k => PlainView(slots[k + j], k + j))
  }

  lemma {:induction false} PlainViewed(slots: seq<Slot>, k: nat)
    requires Regular(slots) && PlainFrom(slots, k) && k <= |slots|
    ensures Views(slots, k) == PlainViews(slots, k)
    decreases |slots| - k
  {
    if k < |slots| {
      PlainViewed(slots, k + 1);
      assert PlainViews(slots, k) == [PlainView(slots[k], k)] + PlainViews(slots, k + 1);
    }
  }

  lemma {:induction false} SectionSlotsPrefix(secs: seq<Section>, i: nat, n: nat)
    requires i <= n <= |secs|
    ensures SectionSlots(secs, i) <= SectionSlots(secs, n)
    decreases n
  {
    if i < n { SectionSlotsPrefix(secs, i, n - 1); }
  }

  /** The slots of section i, in a table that starts with the section slots. */
  lemma SectionSlotsAt(secs: seq<Section>, slots: seq<Slot>, i: nat)
    requires SectionSlots(secs, |secs|) <= slots && i < |secs|
    ensures var k, s := |SectionSlots(secs, i)|, secs[i];
            && |SectionSlots(secs, i + 1)| == k + (if s.linkOnce then 2 else 1) <= |slots|
            && slots[k] == Primary(SectionName(s), 0, i + 1, TYPE_NULL, CLASS_STATIC, if s.linkOnce then 1 else 0)
            && (s.linkOnce ==> slots[k + 1] == Aux(RawSize(s), |s.relocs|))
  {
    SectionSlotsPrefix(secs, i + 1, |secs|);
    var here := SectionSlots(secs, i + 1);
    assert here <= slots;
    assert forall j | 0 <= j < |here| :: slots[j] == here[j];
  }

  lemma {:induction false} SectionsViewed(secs: seq<Section>, slots: seq<Slot>, i: nat)
    requires SectionSlots(secs, |secs|) <= slots && Regular(slots) && i <= |secs|
    ensures |SectionSlots(secs, i)| <= |slots|
    ensures Views(slots, |SectionSlots(secs, i)|)
            == SectionSymbols(secs, i) + Views(slots, |SectionSlots(secs, |secs|)|)
    decreases |secs| - i
  {
    SectionSlotsPrefix(secs, i, |secs|);
    if i < |secs| {
      SectionsViewed(secs, slots, i + 1);
      SectionSlotsAt(secs, slots, i);
      SectionViewed(secs, slots, i);
      assert SectionSymbols(secs, i) == [SectionSymbol(secs, i)] + SectionSymbols(secs, i + 1);
    }
  }

  lemma SectionViewed(secs: seq<Section>, slots: seq<Slot>, i: nat)
    requires SectionSlots(secs, |secs|) <= slots && Regular(slots) && i < |secs|
    ensures |SectionSlots(secs, i)| < |SectionSlots(secs, i + 1)| <= |slots|
    ensures Views(slots, |SectionSlots(secs, i)|)
            == [SectionSymbol(secs, i)] + Views(slots, |SectionSlots(secs, i + 1)|)
  {
    SectionSlotsAt(secs, slots, i);
    var k := |SectionSlots(secs, i)|;
    assert RegularAt(slots, k);
    assert ViewAt(slots, k) == SectionSymbol(secs, i);
  }

  /** One symbol per section, then one per definition, then one per external, and nothing
      else: that is what the walk over the table of any written file yields. */
  lemma WalkOrder(secs: seq<Section>)
    ensures Regular(Slots(secs))
    ensures PlainFrom(Slots(secs), |SectionSlots(secs, |secs|)|)
    ensures Views(Slots(secs), 0) == SectionSymbols(secs, 0) + PlainViews(Slots(secs), |SectionSlots(secs, |secs|)|)
    ensures |Views(Slots(secs), 0)| == |secs| + |AllDefs(secs)| + |Externals(secs, true)|
  {
    var slots, n := Slots(secs), |SectionSlots(secs, |secs|)|;
    SlotsRegular(secs);
    forall j | n <= j < |slots| ensures slots[j].Primary? && slots[j].nAux == 0 { SlotParts(secs, j); }
    assert SectionSlots(secs, |secs|) <= slots;
    SectionsViewed(secs, slots, 0);
    PlainViewed(slots, n);
  }

  // ------------------------------------------------------------------- resolution

  /** The slot a relocation against n refers to. */
  ghost function Resolved(secs: seq<Section>, n: Name): (slot: Slot)
    requires n in Index(secs)
    ensures slot.Primary? && slot.name == n
  {
    IndexPoints(secs);
    Slots(secs)[Index(secs)[n]]
  }

  lemma DefinedNotExternal(secs: seq<Section>, n: Name)
    requires Defined(secs, n)
    ensures n !in Externals(secs, true)
  {
    ExternalsFacts(secs, true);
  }

  lemma IndexIsLast(secs: seq<Section>, n: Name)
    requires n in Index(secs)
    ensures |SectionSlots(secs, |secs|)| <= Index(secs)[n] < |Slots(secs)|
    ensures forall k | Index(secs)[n] < k < |Slots(secs)| :: SlotNames(Slots(secs))[k] != n
    ensures Slots(secs)[Index(secs)[n]].Primary? && Slots(secs)[Index(secs)[n]].name == n
  {
    IndexPoints(secs);
    LastIndexFacts(SlotNames(Slots(secs)), |SectionSlots(secs, |secs|)|);
  }

  lemma DefSlotName(secs: seq<Section>, k: nat)
    requires k < |AllDefs(secs)|
    ensures var i := |SectionSlots(secs, |secs|)| + k;
            i < |Slots(secs)| && SlotNames(Slots(secs))[i] == AllDefs(secs)[k].sym.name
  {
  }

  lemma IndexedLast(secs: seq<Section>, n: Name, j: nat)
    requires n in Index(secs) && Index(secs)[n] == |SectionSlots(secs, |secs|)| + j && j < |AllDefs(secs)|
    ensures Last(AllDefs(secs), n, AnyDef) == Some(j)
  {
    IndexIsLast(secs, n);
    DefSlotName(secs, j);
    forall k | j < k < |AllDefs(secs)| ensures AllDefs(secs)[k].sym.name != n { DefSlotName(secs, k); }
    LastIs(AllDefs(secs), n, j);
  }

  lemma LastIs(ds: seq<Def>, n: Name, j: nat)
    requires j < |ds| && ds[j].sym.name == n && forall k | j < k < |ds| :: ds[k].sym.name != n
    ensures Last(ds, n, AnyDef) == Some(j)
  {
    LastIsLast(ds, n, AnyDef);
    assert Picked(ds[j], AnyDef);
  }

  lemma IndexedDefinition(secs: seq<Section>, n: Name, j: nat)
    requires n in Index(secs) && Index(secs)[n] == |SectionSlots(secs, |secs|)| + j && j < |AllDefs(secs)|
    ensures Last(AllDefs(secs), n, AnyDef) == Some(j) && Resolved(secs, n) == DefSlot(AllDefs(secs)[j])
  {
    SlotParts(secs, Index(secs)[n]);
    IndexedLast(secs, n, j);
  }

  lemma IndexedExternal(secs: seq<Section>, n: Name)
    requires n in Index(secs) && Index(secs)[n] >= |SectionSlots(secs, |secs|)| + |AllDefs(secs)|
    ensures Last(AllDefs(secs), n, AnyDef) == None && Resolved(secs, n) == ExternalSlot(n)
  {
    var a, c, i := |SectionSlots(secs, |secs|)|, |AllDefs(secs)|, Index(secs)[n];
    IndexIsLast(secs, n);
    SlotParts(secs, i);
    assert Externals(secs, true)[i - a - c] in Externals(secs, true);
    LastDefined(secs, n);
    if Defined(secs, n) { DefinedNotExternal(secs, n); }
  }

  /** A defined target resolves to its last definition in section order, whatever its binding;
      an undefined one to its undefined external. */
  lemma Resolution(secs: seq<Section>, n: Name)
    requires n in Index(secs)
    ensures Resolved(secs, n) ==
            match Last(AllDefs(secs), n, AnyDef)
            case Some(j) => DefSlot(AllDefs(secs)[j])
            case None => ExternalSlot(n)
  {
    var start := |SectionSlots(secs, |secs|)|;
    IndexIsLast(secs, n);
    if Index(secs)[n] < start + |AllDefs(secs)| {
      IndexedDefinition(secs, n, Index(secs)[n] - start);
    } else {
      IndexedExternal(secs, n);
    }
  }

  /** A target with exactly one definition resolves to that section and offset. */
  lemma UniqueResolution(secs: seq<Section>, d: Def)
    requires d in AllDefs(secs) && forall e | e in AllDefs(secs) && e.sym.name == d.sym.name :: e == d
    ensures d.sym.name in Index(secs) && Resolved(secs, d.sym.name) == DefSlot(d)
  {
    DefIndexed(secs, d);
    Resolution(secs, d.sym.name);
    LastDefined(secs, d.sym.name);
    assert Defined(secs, d.sym.name);
    assert AllDefs(secs)[Last(AllDefs(secs), d.sym.name, AnyDef).value] in AllDefs(secs);
  }

  // --------------------------------------------------------- exact agreement results

  /** The section-definition record repeats the header's size and relocation count exactly
      when the section has file bytes or has neither a reservation nor relocations. */
  lemma DefinitionAgrees(s: Section)
    ensures RawSize(s) == HeaderSize(s) && |s.relocs| == RelocCount(s)
            <==> !BssLike(s) || (ReserveSize(s) == 0 && s.relocs == [])
  {
  }

  /** Relocations reach the file exactly when the section has file bytes or has none. */
  lemma RelocationsKept(machine: u16, t: Tables, s: Section)
    requires AllTargeted(machine, t, s.relocs)
    ensures SectionViewOf(machine, t, s).relocs == RelocViewsOf(machine, t, s.relocs) <==> !BssLike(s) || s.relocs == []
  {
    if BssLike(s) && s.relocs == [] { assert RelocViewsOf(machine, t, s.relocs) == []; }
  }

  /** The signed 16-bit section number is right exactly for the first 32767 sections. */
  lemma SectionNumberIff(i: nat)
    requires i < 0xFFFF
    ensures Signed(2, FromLE(LE(2, i + 1))) == i + 1 <==> i < 0x7FFF
  {
    Pow256Values();
    LEFits(2, i + 1);
  }

  lemma BakedByte(machine: u16, s: Section, x: nat)
    requires Supported(machine, s.relocs) && x < |s.code|
    ensures BakedCode(machine, s)[x] ==
            match LastCovering(AddendWrites(machine, s.relocs), |s.code|, x)
            case None => s.code[x]
            case Some(j) => AddendWrite(machine, s.relocs[j]).data[x - s.relocs[j].offset]
  {
    LastWriterWins(s.code, AddendWrites(machine, s.relocs), x);
  }

  lemma DataIs(machine: u16, t: Tables, s: Section)
    requires AllTargeted(machine, t, s.relocs) && !BssLike(s)
    ensures Supported(machine, s.relocs) && SectionViewOf(machine, t, s).data == BakedCode(machine, s)
  {
  }

  /** A section's recovered bytes: each byte is the one the last in-range relocation over it
      baked, and the original byte where there is none. */
  lemma RecoveredByte(machine: u16, t: Tables, s: Section, x: nat)
    requires AllTargeted(machine, t, s.relocs) && !BssLike(s) && x < |s.code|
    ensures |SectionViewOf(machine, t, s).data| == |s.code|
    ensures SectionViewOf(machine, t, s).data[x] ==
            match LastCovering(AddendWrites(machine, s.relocs), |s.code|, x)
            case None => s.code[x]
            case Some(j) => AddendWrite(machine, s.relocs[j]).data[x - s.relocs[j].offset]
  {
    DataIs(machine, t, s);
    BakedByte(machine, s, x);
  }

  /** Raw data is aligned in the file to every power-of-two alignment, and the padding in
      front of it is shorter than the alignment. */
  lemma DataAligned(secs: seq<Section>, k: nat)
    requires k < |secs| && !BssLike(secs[k])
    ensures IsPow2(EffectiveAlign(secs[k])) ==> RawOff(secs, k) % EffectiveAlign(secs[k]) == 0
    ensures Pos(secs, k) <= RawOff(secs, k) < Pos(secs, k) + EffectiveAlign(secs[k])
  {
    Layout.Aligned(HeaderEnd(|secs|), Extents(secs), k);
  }

  /** Sections with file bytes never overlap, for any alignments. */
  lemma ChunksDisjoint(secs: seq<Section>, j: nat, k: nat)
    requires j < k < |secs| && !BssLike(secs[j]) && !BssLike(secs[k])
    ensures HeaderEnd(|secs|) <= RawOff(secs, j)
    ensures RawOff(secs, j) + |secs[j].code| + |secs[j].relocs| * RELOC_SIZE <= RawOff(secs, k)
    ensures RawOff(secs, k) + |secs[k].code| + |secs[k].relocs| * RELOC_SIZE <= Pos(secs, |secs|)
  {
    Layout.Disjoint(HeaderEnd(|secs|), Extents(secs), j, k);
  }

  /** The width of the field a COFF relocation type patches. */
  function FieldWidth(machine: u16, k: RelocKind): nat
    requires RelocType(machine, k).Some?
  {
    if k == Abs64 then 8 else 4
  }

  /** The addend is written with the field's own width except for ARM64's 32-bit absolute
      relocation, whose type number is AMD64's for 64-bit ones. */
  lemma AddendWidthIff(machine: u16, k: RelocKind)
    requires RelocType(machine, k).Some?
    ensures AddendSize(RelocType(machine, k).value) == FieldWidth(machine, k)
            <==> !(machine == MACHINE_ARM64 && k == Abs32)
  {
  }
}
