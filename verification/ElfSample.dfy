/** The small input as an ELF64 file: it is within all bounds, and its relocation refers to the
    first definition. */
module ElfSample {
  import opened Arith
  import opened Bytes
  import opened Bits
  import opened Names
  import opened Objects
  import opened StringTable
  import opened ElfFormat
  import opened ElfSpec
  import opened ElfTables
  import opened ElfTheorems
  import ElfMeaning
  import Sample

  function SampleInput(c: Sample.Case): Input { Input(Elf64, EM_X86_64, 0, true, Sample.Sections(c)) }

  lemma Emitted(c: Sample.Case)
    ensures ElfMeaning.Emitted(Sample.Sections(c), Sample.F)
  {
    Sample.Definitions(c);
    assert Def(0, Sample.GlobalF) in AllDefs(Sample.Sections(c)) && ElfMeaning.HasRow(Def(0, Sample.GlobalF));
  }

  /** The machine has the relocation. */
  predicate Known(c: Sample.Case) { RelocType(EM_X86_64, c.kind).Some? }

  lemma Targets(c: Sample.Case, u: Use)
    requires Known(c) && u in AllUses(Sample.Sections(c))
    ensures RelocType(EM_X86_64, u.rel.kind).Some? && u.rel.symbol == Sample.F
  {
    Sample.References(c);
  }

  lemma Written(c: Sample.Case)
    requires Known(c)
    ensures Buildable(SampleInput(c))
  {
    var x := SampleInput(c);
    Emitted(c);
    forall u | u in AllUses(x.secs)
      ensures RelocType(x.machine, u.rel.kind).Some? && u.rel.symbol == Sample.F
    {
      Targets(c, u);
    }
    ElfMeaning.SucceedsIff(x);
  }

  lemma RowCount(c: Sample.Case)
    ensures |Rows(Sample.Sections(c))| == 5 && |LocalPart(Sample.Sections(c))| == 4
  {
    var secs, ds := Sample.Sections(c), AllDefs(Sample.Sections(c));
    Sample.Definitions(c);
    Sample.NoExternals(c, false);
    assert ds[..1] == [Def(0, Sample.GlobalF)];
    assert LocalRows(ds[..1]) == [] && |LocalRows(ds)| == 1;
    assert |ExportedRows(ds[..1])| == 1 && |ExportedRows(ds)| == 1;
  }

  lemma StringBytes(c: Sample.Case)
    ensures |Strtab(Sample.Sections(c)).data| <= 100
  {
    var secs := Sample.Sections(c);
    RowCount(c);
    forall i | 0 <= i < 5 ensures |RowNames(Rows(secs))[i]| <= 1 {
      if i > 2 {
        ElfMeaning.RowOrigin(secs, i);
        Sample.Definitions(c);
        Sample.NoExternals(c, false);
      } else {
        HeadRowsFit(2);
      }
    }
    InternAllBound(Sentinel, RowNames(Rows(secs)), 1);
  }

  function Groups(c: Sample.Case): nat { if c.once then 1 else 0 }

  lemma Counts(c: Sample.Case)
    ensures Relocated(Sample.Sections(c), 2) == [0] && LinkOnce(Sample.Sections(c), 2) == if c.once then [0] else []
    ensures SymtabIdx(SampleInput(c)) == 5 + Groups(c)
  {
    var secs := Sample.Sections(c);
    assert RelocatedUpTo(secs, 1) == [0];
    assert RelocatedUpTo(secs, 2) == [0];
    assert LinkOnceUpTo(secs, 1) == if c.once then [0] else [];
  }

  lemma SectionsFit(c: Sample.Case)
    requires Known(c)
    ensures forall i | 0 <= i < 2 :: SectionFits(Elf64, EM_X86_64, Sample.Sections(c)[i])
  {
  }

  lemma Within(c: Sample.Case)
    requires Known(c)
    ensures InputFits(SampleInput(c))
  {
    RowCount(c);
    StringBytes(c);
    Counts(c);
    SectionsFit(c);
  }

  // ------------------------------------------------------------------- file size

  predicate Small(d: SecDesc) { |d.data| <= 0x1000 && d.align <= 16 }

  lemma {:induction false} SmallPos(c: Class, ds: seq<SecDesc>, k: nat)
    requires k <= |ds| && forall j | 0 <= j < |ds| :: Small(ds[j])
    ensures Pos(c, ds, k) <= 64 + k * 0x1010
  {
    if k > 1 {
      SmallPos(c, ds, k - 1);
      assert Small(ds[k - 1]);
      AlignUpBounds(Pos(c, ds, k - 1), ds[k - 1].align);
      MulSucc(k - 1, 0x1010);
    }
  }

  predicate Slim(d: SecDesc) { Small(d) && |d.name| <= 16 }
  predicate AllSlim(ds: seq<SecDesc>) { forall i | 0 <= i < |ds| :: Slim(ds[i]) }

  /** What the parts of the sample are, as far as sizes go. */
  ghost predicate PartsSmall(p: Parts) {
    && AllSlim(p.content) && AllSlim(p.rela) && AllSlim(p.group) && AllSlim(p.note)
    && Slim(p.symtab) && Slim(p.strtab)
  }

  lemma RelaSmall(c: Sample.Case, index: map<Name, nat>, symtab: nat)
    requires Resolvable(EM_X86_64, index, Sample.Patched(c))
    ensures AllResolvable(EM_X86_64, index, Sample.Sections(c)[0].relocs)
    ensures var d := RelaDesc(SampleInput(c), index, 0, symtab); Slim(d)
  {
    var recs := RelaRecords(Elf64, EM_X86_64, index, [Sample.Patched(c)]);
    RelaWidth(Elf64);
    TableSize(RelaShape(Elf64), recs);
  }

  lemma SymtabSmall(c: Sample.Case, strtab: nat)
    ensures Small(SymtabDesc(Elf64, Syms(Sample.Sections(c)), strtab, 4))
  {
    var recs := SymRecords(Elf64, Syms(Sample.Sections(c)));
    RowCount(c);
    SymWidth(Elf64);
    TableSize(SymShape(Elf64), recs);
  }

  lemma ContentSmall(c: Sample.Case)
    requires |c.code| <= 0x1000
    ensures AllSlim(ContentDescs(Elf64, Sample.Sections(c), 2))
  {
  }

  lemma RelasSmall(c: Sample.Case, index: map<Name, nat>)
    requires forall i | 0 <= i < 2 :: AllResolvable(EM_X86_64, index, Sample.Sections(c)[i].relocs)
    ensures AllSlim(RelaDescs(SampleInput(c), index, 2))
  {
    Counts(c);
    assert AllResolvable(EM_X86_64, index, Sample.Sections(c)[0].relocs);
    assert Resolvable(EM_X86_64, index, Sample.Sections(c)[0].relocs[0]);
    RelaSmall(c, index, SymtabIdx(SampleInput(c)));
  }

  lemma GroupsSmall(c: Sample.Case, index: map<Name, nat>)
    requires forall i | 0 <= i < 2 && Sample.Sections(c)[i].linkOnce ::
               ComdatSig(Sample.Sections(c)[i].symbols, index).Some?
    ensures AllSlim(GroupDescs(SampleInput(c), index, 2))
  {
    forall i | 0 <= i < 2 ensures |WordList([1] + GroupMembers(Sample.Sections(c), i))| <= 12 {
      WordListSize([1] + GroupMembers(Sample.Sections(c), i));
    }
  }

  lemma {:induction false} WordListSize(ws: seq<nat>)
    ensures |WordList(ws)| == 4 * |ws|
  {
    if ws != [] { WordListSize(ws[..|ws| - 1]); }
  }

  lemma PartsSmallWith(c: Sample.Case, index: map<Name, nat>, symtab: SecDesc, strtab: SecDesc)
    requires |c.code| <= 0x1000 && FirstFailure(SampleInput(c), index).None? && Slim(symtab) && Slim(strtab)
    ensures PartsSmall(PartsWith(SampleInput(c), index, symtab, strtab))
  {
    ErrorFree(SampleInput(c), index);
    ComdatErrorFree(Sample.Sections(c), index, 2);
    GroupsSmall(c, index);
    ContentSmall(c);
    RelasSmall(c, index);
  }

  lemma TablesSlim(c: Sample.Case, strtab: nat)
    ensures Slim(SymtabDesc(Elf64, Syms(Sample.Sections(c)), strtab, |LocalPart(Sample.Sections(c))|))
    ensures Slim(StrtabDesc(Ascii(".strtab"), Strtab(Sample.Sections(c)).data))
  {
    RowCount(c);
    StringBytes(c);
    SymtabSmall(c, strtab);
  }

  /** An implication, whose caller has the premise as it stands. */
  lemma PartsSmallOf(x: Input)
    requires Buildable(x)
    ensures PartsSmall(PartsWith(x, Index(x.secs), SymtabPart(x), StrtabPart(x))) ==> PartsSmall(PartsOf(x))
  {
  }

  lemma SymtabSlim(c: Sample.Case)
    ensures Slim(SymtabPart(SampleInput(c))) && Slim(StrtabPart(SampleInput(c)))
  {
    TablesSlim(c, SymtabIdx(SampleInput(c)) + 1);
  }

  lemma SamplePartsSmall(c: Sample.Case)
    requires |c.code| <= 0x1000 && Buildable(SampleInput(c))
    ensures PartsSmall(PartsOf(SampleInput(c)))
  {
    var x := SampleInput(c);
    SymtabSlim(c);
    PartsSmallWith(c, Index(x.secs), SymtabPart(x), StrtabPart(x));
    PartsSmallOf(x);
  }

  lemma NamesShort(p: Parts)
    requires PartsSmall(p)
    ensures forall k | 0 <= k < |Assemble(p)| :: |Assemble(p)[k].name| <= 16
  {
    var ds := Closed(Assemble(p));
    Position(p);
    forall k | 0 <= k < |Assemble(p)| ensures |Assemble(p)[k].name| <= 16 {
      assert ds[k] == Assemble(p)[k];
      PartOf(p, ds, k);
    }
  }

  lemma TableShort(p: Parts)
    requires PartsSmall(p) && 7 <= |Assemble(p)| <= 8
    ensures |NameTable(Assemble(p)).data| <= 0x1000
  {
    var names := DescNames(Assemble(p)) + [Ascii(".shstrtab")];
    NamesShort(p);
    forall i | 0 <= i < |names| ensures |names[i]| <= 16 {}
    InternAllBound(Sentinel, names, 16);
  }

  lemma DescsSmall(p: Parts)
    requires PartsSmall(p) && 7 <= |Assemble(p)| <= 8
    ensures forall k | 0 <= k < |Closed(Assemble(p))| :: Small(Closed(Assemble(p))[k])
  {
    var ds := Closed(Assemble(p));
    Position(p);
    TableShort(p);
    forall k | 0 <= k < |ds| ensures Small(ds[k]) { PartOf(p, ds, k); }
  }

  lemma ShoffSmall(p: Parts)
    requires PartsSmall(p) && 7 <= |Assemble(p)| <= 8
    ensures Shoff(Elf64, Closed(Assemble(p))) <= 0xA000
  {
    var ds := Closed(Assemble(p));
    DescsSmall(p);
    SmallPos(Elf64, ds, |ds|);
    AlignUpBounds(Pos(Elf64, ds, |ds|), 8);
  }

  lemma ImageLength(x: Input, p: Parts)
    requires Buildable(x) && p == PartsOf(x) && x.class_ == Elf64
    ensures |Image(x)| == Shoff(Elf64, Closed(Assemble(p))) + |Closed(Assemble(p))| * 64
  {
    ImageLaid(x);
  }

  lemma ImageSmall(c: Sample.Case)
    requires |c.code| <= 0x1000 && Buildable(SampleInput(c))
    ensures |Image(SampleInput(c))| <= 0x1_0000
  {
    Counts(c);
    SamplePartsSmall(c);
    ShoffSmall(PartsOf(SampleInput(c)));
    ImageLength(SampleInput(c), PartsOf(SampleInput(c)));
  }

  lemma ShstrtabSmall(c: Sample.Case)
    requires |c.code| <= 0x1000 && Buildable(SampleInput(c))
    ensures |Shstrtab(SampleInput(c)).data| <= 0x1000
  {
    Counts(c);
    SamplePartsSmall(c);
    TableShort(PartsOf(SampleInput(c)));
  }

  /** The bounds of the round trip are met. */
  lemma Fits(c: Sample.Case)
    requires |c.code| <= 0x1000 && Known(c)
    ensures Buildable(SampleInput(c)) && InBounds(SampleInput(c))
  {
    Written(c);
    Within(c);
    ShstrtabSmall(c);
    ImageSmall(c);
    Pow256Word(Elf64);
  }

  lemma Refers(c: Sample.Case)
    ensures Sample.F in Index(Sample.Sections(c))
    ensures ElfMeaning.Resolved(Sample.Sections(c), Sample.F) == DefRow(Def(0, Sample.GlobalF))
  {
    var secs := Sample.Sections(c);
    Sample.Definitions(c);
    Sample.Choices(c);
    ElfMeaning.ExportedWins(secs, AllDefs(secs)[0]);
  }
}
