/** The small input in both formats: everything the link theorem asks for is met, but the two
    files resolve the doubly defined name differently, and link to different bytes. */
module SampleLinks {
  import opened Bytes
  import opened Objects
  import opened Link
  import ElfSpec
  import ElfTables
  import ElfReader
  import ElfMeaning
  import ElfSample
  import CoffSpec
  import CoffTables
  import CoffReader
  import CoffTheorems
  import CoffMeaning
  import CoffSample
  import opened EndToEnd
  import Sample

  const Blank := Sample.Plain(Zeros(8))

  lemma Shape()
    ensures var s := Sample.Sections(Blank)[0];
            !CoffSpec.BssLike(s) && AllLinkable(s.relocs) && AllFit(s.relocs, |s.code|) && Disjoint(s.relocs)
  {
  }

  lemma NoneAdded()
    ensures CoffSpec.AllSections(Sample.Sections(Blank)) == Sample.Sections(Blank)
  {
    CoffSample.Written(COFF, Blank);
  }

  /** An implication, whose caller has the premises as they stand. */
  lemma WrittenWhen(x: ElfSpec.Input)
    requires x.machine == ELF && x.secs == Sample.Sections(Blank)
    ensures (ElfSpec.Buildable(x) && ElfTables.InBounds(x)
             && CoffTables.Buildable(COFF, x.secs) && CoffTheorems.InBounds(COFF, x.secs)) ==> BothWritten(x, 0)
  {
    Shape();
    NoneAdded();
  }

  lemma Linked()
    ensures BothWritten(ElfSample.SampleInput(Blank), 0)
  {
    ElfSample.Fits(Blank);
    CoffSample.Fits(COFF, Blank);
    WrittenWhen(ElfSample.SampleInput(Blank));
  }

  lemma Ambiguous()
    ensures !Unambiguous(AllDefs(Sample.Sections(Blank)), Sample.F)
  {
    Sample.Choices(Blank);
    Sample.Definitions(Blank);
  }

  /** The ELF entry is the global definition at offset 0 of the first section, the COFF record
      the local one at offset 16 of the second, and so the two links differ. */
  lemma DuplicateNameDiffers() returns (e: ElfReader.ObjectView, c: CoffReader.ObjectView)
    ensures var x := ElfSample.SampleInput(Blank);
            && BothWritten(x, 0) && Disjoint(x.secs[0].relocs)
            && ElfSpec.Outcome(x).Ok? && ElfReader.ReadObject(ElfSpec.Outcome(x).value) == Some(e)
            && CoffTables.Outcome(COFF, x.secs).Ok?
            && CoffReader.ReadObject(CoffTables.Outcome(COFF, x.secs).value) == Some(c)
    ensures Sample.F in ElfSpec.Index(Sample.Sections(Blank))
    ensures var row := ElfMeaning.Resolved(Sample.Sections(Blank), Sample.F); row.shndx == 1 && row.value == 0
    ensures Sample.F in CoffSpec.Index(Sample.Sections(Blank))
    ensures var slot := CoffMeaning.Resolved(Sample.Sections(Blank), Sample.F); slot.section == 2 && slot.value == 16
    ensures !SectionsLinkAlike(e, c, 0)
  {
    var x := ElfSample.SampleInput(Blank);
    Linked();
    Shape();
    Ambiguous();
    ElfSample.Refers(Blank);
    CoffSample.Refers(Blank);
    e, c := FilesLinkAlike(x, 0);
    assert Sample.Patched(Blank) in x.secs[0].relocs;
  }
}
