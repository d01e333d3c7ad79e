/** The small input as a COFF file: it is within all bounds, its relocation refers to the
    second definition, and an addend that does not fit is dropped without an error. */
module CoffSample {
  import opened Bytes
  import opened Names
  import opened Objects
  import opened Patch
  import opened StringTable
  import opened CoffFormat
  import opened CoffSpec
  import opened CoffTables
  import opened CoffRoundTrip
  import opened CoffWalk
  import opened CoffSections
  import opened CoffTheorems
  import CoffMeaning
  import CoffReader
  import Layout
  import Sample

  const AMD64 := MACHINE_AMD64
  const ARM64 := MACHINE_ARM64

  lemma {:induction false} NothingLong(ns: seq<Name>)
    requires forall i | 0 <= i < |ns| :: !IsLong(ns[i])
    ensures Long(ns) == []
  {
    if ns != [] { NothingLong(ns[..|ns| - 1]); }
  }

  lemma NothingStored(c: Sample.Case)
    ensures Strtab(Sample.Sections(c)) == Empty
  {
    var secs := Sample.Sections(c);
    Sample.NoExternals(c, true);
    assert NameRun(secs, 1) == NameRun(secs, 0) + [SectionName(secs[0])] + SymbolNames([Sample.GlobalF]);
    assert NameRun(secs, 2) == NameRun(secs, 1) + [Ascii(".data")] + SymbolNames([Sample.LocalF]);
    NothingLong(NameRun(secs, 2));
  }

  lemma NothingExported(c: Sample.Case)
    ensures AllSections(Sample.Sections(c)) == Sample.Sections(c)
  {
    var ds := AllDefs(Sample.Sections(c));
    Sample.Definitions(c);
    assert ds[..1] == [Def(0, Sample.GlobalF)];
    assert Exports(ds[..1]) == [];
  }

  /** The machine has the relocation. */
  predicate Known(machine: u16, c: Sample.Case) { RelocType(machine, c.kind).Some? }

  lemma Acceptable(machine: u16, c: Sample.Case, secs: seq<Section>)
    requires secs == Sample.Sections(c) && Known(machine, c)
    ensures |secs| <= 0xFFFF && forall i | 0 <= i < |secs| :: !(secs[i].kind == Custom && secs[i].custom == [])
    ensures forall u | u in AllUses(secs) :: RelocType(machine, u.rel.kind).Some?
    ensures forall i | 0 <= i < |secs| :: RelocCount(secs[i]) <= 0xFFFF
  {
    Sample.References(c);
  }

  lemma Written(machine: u16, c: Sample.Case)
    requires Known(machine, c)
    ensures AllSections(Sample.Sections(c)) == Sample.Sections(c)
    ensures Buildable(machine, Sample.Sections(c))
  {
    NothingExported(c);
    Acceptable(machine, c, AllSections(Sample.Sections(c)));
    SucceedsIff(machine, Sample.Sections(c));
  }

  lemma Placed(c: Sample.Case)
    ensures var secs := Sample.Sections(c);
            RawOff(secs, 0) == 100 && Pos(secs, 2) == 110 + |c.code|
  {
    var secs := Sample.Sections(c);
    var es := Extents(secs);
    assert Layout.Pos(100, es, 0) == 100;
    assert Layout.Pos(100, es, 1) == 110 + |c.code|;
    assert Layout.Pos(100, es, 2) == 110 + |c.code|;
  }

  /** A link-once section has a definition record. */
  function Aux(c: Sample.Case): nat { if c.once then 1 else 0 }

  lemma SlotCount(c: Sample.Case)
    ensures |Slots(Sample.Sections(c))| == 4 + Aux(c)
  {
    var secs := Sample.Sections(c);
    Sample.Definitions(c);
    Sample.NoExternals(c, true);
    assert |SectionSlots(secs, 1)| == 1 + Aux(c);
    assert |SectionSlots(secs, 2)| == 2 + Aux(c);
  }

  lemma FileSize(machine: u16, c: Sample.Case)
    requires Known(machine, c)
    ensures Buildable(machine, Sample.Sections(c))
    ensures Writable(machine, Sample.Sections(c), TablesOf(Sample.Sections(c)))
    ensures |FileOf(machine, Sample.Sections(c), TablesOf(Sample.Sections(c)))| == 186 + |c.code| + 18 * Aux(c)
  {
    var secs := Sample.Sections(c);
    Written(machine, c);
    TablesWritable(machine, secs);
    NothingStored(c);
    Placed(c);
    SlotCount(c);
    FileLaid(machine, secs, TablesOf(secs));
  }

  lemma SectionsFit(c: Sample.Case, offsets: map<Name, nat>)
    requires |c.code| <= 0x1000
    ensures forall i | 0 <= i < 2 :: SectionFits(Sample.Sections(c)[i], offsets)
  {
    var n := Ascii(".data");
    assert n[0] == 46;
  }

  lemma Within(machine: u16, secs: seq<Section>, size: nat)
    requires Buildable(machine, secs) && Writable(machine, secs, TablesOf(secs)) && |secs| == 2
    requires forall i | 0 <= i < |secs| :: SectionFits(secs[i], Strtab(secs).offsets)
    requires |FileOf(machine, secs, TablesOf(secs))| == size < 0x1_0000_0000
    ensures InBounds(machine, secs)
  {
  }

  /** The bounds of the round trip are met. */
  lemma Fits(machine: u16, c: Sample.Case)
    requires |c.code| <= 0x1000 && Known(machine, c)
    ensures Buildable(machine, Sample.Sections(c)) && InBounds(machine, Sample.Sections(c))
  {
    FileSize(machine, c);
    SectionsFit(c, Strtab(Sample.Sections(c)).offsets);
    Within(machine, Sample.Sections(c), 186 + |c.code| + 18 * Aux(c));
  }

  lemma Refers(c: Sample.Case)
    ensures Sample.F in Index(Sample.Sections(c))
    ensures CoffMeaning.Resolved(Sample.Sections(c), Sample.F) == DefSlot(Def(1, Sample.LocalF))
  {
    var secs := Sample.Sections(c);
    Sample.Definitions(c);
    Sample.Choices(c);
    DefIndexed(secs, AllDefs(secs)[1]);
    CoffMeaning.Resolution(secs, Sample.F);
  }

  /** Three bytes, which cannot hold the eight of an addend. */
  const Short := Sample.Plain([1, 2, 3])

  /** ARM64's `bl`, as an assembler leaves it: the opcode, and a displacement of zero. */
  const Call := Sample.Case([0, 0, 0, 0x94], PCRel26, 0, false)

  lemma OnlyWrite(machine: u16, code: seq<byte>, r: Reloc)
    requires Supported(machine, [r]) && RelocType(machine, r.kind).Some?
    ensures var w := AddendWrite(machine, r);
            Apply(code, AddendWrites(machine, [r])) == if InRange(w, |code|) then Splice(code, w) else code
  {
    assert AddendWrites(machine, [r]) == [] + [AddendWrite(machine, r)];
    ApplySnoc(code, [], AddendWrite(machine, r));
  }

  lemma OneWrite(machine: u16, c: Sample.Case)
    requires Known(machine, c)
    ensures Supported(machine, Sample.Sections(c)[0].relocs)
    ensures var w := AddendWrite(machine, Sample.Patched(c));
            BakedCode(machine, Sample.Sections(c)[0]) == if InRange(w, |c.code|) then Splice(c.code, w) else c.code
  {
    OnlyWrite(machine, c.code, Sample.Patched(c));
  }

  lemma FirstView(machine: u16, c: Sample.Case, t: Tables)
    requires AllTargeted(machine, t, [Sample.Patched(c)]) && Points(t.index, t.slots)
    ensures var s := Sample.Sections(c)[0];
            && AllTargeted(machine, t, s.relocs) && Supported(machine, s.relocs)
            && var v := SectionViewOf(machine, t, s);
               && v.data == BakedCode(machine, s) && |v.relocs| == 1 && v.relocs[0].offset == 0
               && RelocType(machine, c.kind) == Some(v.relocs[0].rtype) && v.relocs[0].sym.name == Sample.F
  {
    assert Targeted(machine, t, [Sample.Patched(c)][0]);
  }

  /** What is recovered of the first section. */
  lemma FirstSection(machine: u16, c: Sample.Case)
    requires |c.code| <= 0x1000 && Known(machine, c)
    ensures Buildable(machine, Sample.Sections(c)) && InBounds(machine, Sample.Sections(c))
    ensures Supported(machine, Sample.Sections(c)[0].relocs)
    ensures var o := ObjectOfFile(machine, Sample.Sections(c));
            && |o.sections| == 2 && o.sections[0].data == BakedCode(machine, Sample.Sections(c)[0])
            && |o.sections[0].relocs| == 1 && o.sections[0].relocs[0].offset == 0
            && RelocType(machine, c.kind) == Some(o.sections[0].relocs[0].rtype)
            && o.sections[0].relocs[0].sym.name == Sample.F
  {
    var secs := Sample.Sections(c);
    Fits(machine, c);
    RoundTrip(machine, secs);
    IndexPoints(secs);
    assert AllTargeted(machine, TablesOf(secs), secs[0].relocs);
    FirstView(machine, c, TablesOf(secs));
  }

  /** Nothing is reported, the bytes stay as they are, and the relocation is still written. */
  lemma OutOfRangeWritten()
    ensures var secs := Sample.Sections(Short);
            && CoffTables.Outcome(AMD64, secs).Ok?
            && Buildable(AMD64, secs) && InBounds(AMD64, secs)
            && CoffReader.ReadObject(CoffTables.Outcome(AMD64, secs).value) == Some(ObjectOfFile(AMD64, secs))
            && |ObjectOfFile(AMD64, secs).sections| == 2
            && ObjectOfFile(AMD64, secs).sections[0].data == [1, 2, 3]
            && |ObjectOfFile(AMD64, secs).sections[0].relocs| == 1
            && ObjectOfFile(AMD64, secs).sections[0].relocs[0].offset == 0
            && ObjectOfFile(AMD64, secs).sections[0].relocs[0].rtype == REL_AMD64_ADDR64
            && ObjectOfFile(AMD64, secs).sections[0].relocs[0].sym.name == Sample.F
  {
    FirstSection(AMD64, Short);
    Written(AMD64, Short);
    OneWrite(AMD64, Short);
  }

  lemma CallBaked()
    ensures Supported(ARM64, Sample.Sections(Call)[0].relocs)
    ensures BakedCode(ARM64, Sample.Sections(Call)[0]) == [0, 0, 0, 0]
  {
    OneWrite(ARM64, Call);
    assert LE(4, 0) == [0, 0, 0, 0];
  }

  /** The addend is baked over the whole instruction: `bl` comes back as zeros. */
  lemma CallOverwritten()
    ensures var secs := Sample.Sections(Call);
            && secs[0].code == [0, 0, 0, 0x94]
            && CoffTables.Outcome(ARM64, secs).Ok?
            && Buildable(ARM64, secs) && InBounds(ARM64, secs)
            && CoffReader.ReadObject(CoffTables.Outcome(ARM64, secs).value) == Some(ObjectOfFile(ARM64, secs))
            && |ObjectOfFile(ARM64, secs).sections| == 2
            && ObjectOfFile(ARM64, secs).sections[0].data == [0, 0, 0, 0]
  {
    FirstSection(ARM64, Call);
    Written(ARM64, Call);
    CallBaked();
  }
}
