/** One input, two formats: when the ELF and the COFF file made from the same AMD64 sections
    link to the same bytes.  Everything goes through the files: the sections, relocations and
    symbol entries that are linked are those the two readers recover. */
module EndToEnd {
  import opened Bytes
  import opened Names
  import opened Objects
  import opened Patch
  import opened Link
  import ElfFormat
  import ElfSpec
  import ElfReader
  import ElfRoundTrip
  import ElfTables
  import ElfReading
  import ElfMeaning
  import ElfRecovered
  import CoffFormat
  import CoffSpec
  import CoffTables
  import CoffReader
  import CoffWalk
  import CoffTheorems
  import CoffMeaning

  const ELF := ElfFormat.EM_X86_64
  const COFF := CoffFormat.MACHINE_AMD64

  // ------------------------------------------------------- which definition is meant

  /** The definition that an ELF relocation against n refers to, and a COFF one. */
  function ElfChoice(ds: seq<Def>, n: Name): Option<nat> { ElfMeaning.Chosen(ds, n) }

  function CoffChoice(ds: seq<Def>, n: Name): Option<nat> { Last(ds, n, AnyDef) }

  function PlaceOf(ds: seq<Def>, j: Option<nat>, n: Name): Place
    requires j.Some? ==> j.value < |ds|
  {
    if j.Some? then Inside(1 + ds[j.value].sec, ds[j.value].sym.offset) else Elsewhere(n)
  }

  /** Both formats resolve n to the same place. */
  predicate Unambiguous(ds: seq<Def>, n: Name) {
    PlaceOf(ds, ElfChoice(ds, n), n) == PlaceOf(ds, CoffChoice(ds, n), n)
  }

  /** The two choices are one definition exactly if n has none, or its last one is exported,
      or none is exported and the last one is not a section label. */
  lemma SameChoiceIff(ds: seq<Def>, n: Name)
    ensures ElfChoice(ds, n) == CoffChoice(ds, n) <==>
            match CoffChoice(ds, n)
            case None => true
            case Some(j) =>
              Picked(ds[j], ExportedDef) || (Last(ds, n, ExportedDef).None? && ds[j].sym.kind != SymSection)
  {
    LastIsLast(ds, n, AnyDef);
    LastIsLast(ds, n, ExportedDef);
    LastIsLast(ds, n, PlainDef);
    if CoffChoice(ds, n).Some? {
      var d := ds[CoffChoice(ds, n).value];
      assert Picked(d, AnyDef) && (Picked(d, ExportedDef) || Picked(d, LocalDef));
      assert Picked(d, PlainDef) <==> Picked(d, LocalDef) && d.sym.kind != SymSection;
    }
    if ElfChoice(ds, n).Some? { assert Picked(ds[ElfChoice(ds, n).value], AnyDef); }
  }

  lemma NothingExported(secs: seq<Section>)
    ensures AllDefs(CoffSpec.AllSections(secs)) == AllDefs(secs)
    ensures secs <= CoffSpec.AllSections(secs)
  {
    var all := CoffSpec.AllSections(secs);
    if all != secs {
      var extra := [CoffSpec.Drectve(CoffSpec.Exports(AllDefs(secs)))];
      assert all == secs + extra;
      DefsPrefix(secs, extra, |secs|, 0);
      assert Defs(all, |secs| + 1, 0) == Defs(all, |secs|, |all[|secs|].symbols|);
    }
  }

  lemma DefsBelow(secs: seq<Section>, j: nat)
    requires j < |AllDefs(secs)|
    ensures AllDefs(secs)[j].sec < |secs|
  {
    assert AllDefs(secs)[j] in AllDefs(secs);
    DefsMember(secs, |secs|, 0, AllDefs(secs)[j]);
  }

  // ----------------------------------------------------------- what the files say

  lemma ElfPlaced(secs: seq<Section>, n: Name)
    requires n in ElfSpec.Index(secs) && |secs| < 0xFF00
    ensures ElfPlace(ElfRoundTrip.SymbolViewOf(ElfMeaning.Resolved(secs, n)))
            == PlaceOf(AllDefs(secs), ElfChoice(AllDefs(secs), n), n)
  {
    ElfMeaning.Resolution(secs, n);
    var j := ElfChoice(AllDefs(secs), n);
    if j.Some? { DefsBelow(secs, j.value); }
  }

  lemma CoffPlaced(secs: seq<Section>, t: CoffSpec.Tables, n: Name)
    requires n in CoffSpec.Index(secs) && t == CoffSpec.TablesOf(secs)
    requires t.index[n] < |t.slots| && t.slots[t.index[n]].Primary? && CoffWalk.RegularAt(t.slots, t.index[n])
    ensures CoffPlace(CoffWalk.ViewAt(t.slots, t.index[n]))
            == PlaceOf(AllDefs(secs), CoffChoice(AllDefs(secs), n), n)
  {
    CoffMeaning.Resolution(secs, n);
    assert t.slots[t.index[n]] == CoffMeaning.Resolved(secs, n);
  }

  /** The relocations rs as an ELF reader and as a COFF reader see them, each entry denoting
      the definition its format chooses. */
  ghost predicate ElfMeans(es: seq<ElfReader.RelocView>, rs: seq<Reloc>, ds: seq<Def>) {
    && ElfOfAll(es, rs)
    && forall k | 0 <= k < |rs| :: ElfPlace(es[k].sym) == PlaceOf(ds, ElfChoice(ds, rs[k].symbol), rs[k].symbol)
  }

  ghost predicate CoffMeans(cs: seq<CoffReader.RelocView>, rs: seq<Reloc>, ds: seq<Def>) {
    && CoffOfAll(cs, rs)
    && forall k | 0 <= k < |rs| :: CoffPlace(cs[k].sym) == PlaceOf(ds, CoffChoice(ds, rs[k].symbol), rs[k].symbol)
  }

  lemma ElfViewsMean(x: ElfSpec.Input, i: nat)
    requires x.machine == ELF && ElfSpec.Buildable(x) && |x.secs| < 0xFF00
    requires ElfReading.TargetedAt(x, ElfTables.TablesOf(x), i) && AllLinkable(x.secs[i].relocs)
    ensures ElfMeans(ElfReading.RelocsAt(x, ElfTables.TablesOf(x), i), x.secs[i].relocs, AllDefs(x.secs))
  {
    var t, rs, ds := ElfTables.TablesOf(x), x.secs[i].relocs, AllDefs(x.secs);
    var es := ElfReading.RelocsAt(x, t, i);
    forall k | 0 <= k < |rs|
      ensures ElfOf(es[k], rs[k])
      ensures ElfPlace(es[k].sym) == PlaceOf(ds, ElfChoice(ds, rs[k].symbol), rs[k].symbol)
    {
      assert Linkable(rs[k].kind) && ElfRoundTrip.Targeted(x.machine, t.rows, t.index, rs[k]);
      ElfPlaced(x.secs, rs[k].symbol);
    }
  }

  lemma CoffViewsMean(secs: seq<Section>, rs: seq<Reloc>)
    requires CoffWalk.AllTargeted(COFF, CoffSpec.TablesOf(secs), rs) && AllLinkable(rs)
    ensures CoffMeans(CoffWalk.RelocViewsOf(COFF, CoffSpec.TablesOf(secs), rs), rs, AllDefs(secs))
  {
    var t, ds := CoffSpec.TablesOf(secs), AllDefs(secs);
    var cs := CoffWalk.RelocViewsOf(COFF, t, rs);
    forall k | 0 <= k < |rs|
      ensures CoffOf(cs[k], rs[k])
      ensures CoffPlace(cs[k].sym) == PlaceOf(ds, CoffChoice(ds, rs[k].symbol), rs[k].symbol)
    {
      assert Linkable(rs[k].kind) && CoffWalk.Targeted(COFF, t, rs[k]);
      CoffPlaced(secs, t, rs[k].symbol);
    }
  }

  /** What the ELF reader recovers for section i. */
  lemma ElfSide(x: ElfSpec.Input, i: nat)
    requires x.machine == ELF && ElfSpec.Buildable(x) && ElfTables.InBounds(x)
    requires i < |x.secs| && !ElfSpec.NoBits(x.secs[i]) && AllLinkable(x.secs[i].relocs)
    ensures var o := ElfRecovered.ObjectOfImage(x);
            && 1 + i < |o.sections| == |o.relocs| && o.sections[1 + i].bytes == x.secs[i].code
            && ElfMeans(o.relocs[1 + i], x.secs[i].relocs, AllDefs(x.secs))
  {
    ElfRecovered.SectionsRecovered(x, i);
    ElfViewsMean(x, i);
  }

  lemma BakedAre(rs: seq<Reloc>)
    requires AllLinkable(rs) && CoffSpec.Supported(COFF, rs)
    ensures CoffSpec.AddendWrites(COFF, rs) == BakedWrites(rs)
  {
  }

  /** What the COFF reader recovers for section i. */
  lemma CoffSide(secs: seq<Section>, i: nat)
    requires CoffTables.Buildable(COFF, secs) && CoffTheorems.InBounds(COFF, secs)
    requires i < |secs| && !CoffSpec.BssLike(secs[i]) && AllLinkable(secs[i].relocs)
    ensures var o := CoffTheorems.ObjectOfFile(COFF, secs);
            && i < |o.sections| && o.sections[i].data == Apply(secs[i].code, BakedWrites(secs[i].relocs))
            && CoffMeans(o.sections[i].relocs, secs[i].relocs, AllDefs(secs))
  {
    CoffTheorems.RoundTrip(COFF, secs);
    BakedAre(secs[i].relocs);
    CoffViewsMean(secs, secs[i].relocs);
  }

  // --------------------------------------------------------------- the two links

  /** Both files of x are written and read back, and the links of section i are comparable:
      its relocations are of the four kinds and lie inside its bytes. */
  ghost predicate BothWritten(x: ElfSpec.Input, i: nat) {
    && x.machine == ELF && ElfSpec.Buildable(x) && ElfTables.InBounds(x)
    && CoffTables.Buildable(COFF, CoffSpec.AllSections(x.secs))
    && CoffTheorems.InBounds(COFF, CoffSpec.AllSections(x.secs))
    && i < |x.secs| && !CoffSpec.BssLike(x.secs[i])
    && AllLinkable(x.secs[i].relocs) && AllFit(x.secs[i].relocs, |x.secs[i].code|)
  }

  ghost function ElfObject(x: ElfSpec.Input): ElfReader.ObjectView
    requires ElfSpec.Buildable(x) && ElfTables.InBounds(x)
  {
    ElfRecovered.ObjectOfImage(x)
  }

  ghost function CoffObject(secs: seq<Section>): CoffReader.ObjectView
    requires CoffTables.Buildable(COFF, CoffSpec.AllSections(secs))
    requires CoffTheorems.InBounds(COFF, CoffSpec.AllSections(secs))
  {
    CoffTheorems.ObjectOfFile(COFF, CoffSpec.AllSections(secs))
  }

  /** The two objects are what the two readers make of the two writers' output. */
  lemma ObjectsAreRead(x: ElfSpec.Input, i: nat)
    requires BothWritten(x, i)
    ensures ElfSpec.Outcome(x).Ok? && ElfReader.ReadObject(ElfSpec.Outcome(x).value) == Some(ElfObject(x))
    ensures CoffTables.Outcome(COFF, x.secs).Ok?
    ensures CoffReader.ReadObject(CoffTables.Outcome(COFF, x.secs).value) == Some(CoffObject(x.secs))
  {
  }

  lemma PlacesFit(ds: seq<Def>, j: Option<nat>, n: Name)
    requires j.Some? ==> j.value < |ds|
    ensures PlaceFits(PlaceOf(ds, j, n))
  {
  }

  lemma SamePlacesIff(es: seq<ElfReader.RelocView>, cs: seq<CoffReader.RelocView>, rs: seq<Reloc>, ds: seq<Def>)
    requires ElfMeans(es, rs, ds) && CoffMeans(cs, rs, ds)
    ensures SamePlaces(es, cs) <==> forall r | r in rs :: Unambiguous(ds, r.symbol)
  {
    forall k | 0 <= k < |rs|
      ensures ElfPlace(es[k].sym) == CoffPlace(cs[k].sym) <==> Unambiguous(ds, rs[k].symbol) {}
    if forall r | r in rs :: Unambiguous(ds, r.symbol) {
      forall k | 0 <= k < |es| ensures ElfPlace(es[k].sym) == CoffPlace(cs[k].sym) { assert rs[k] in rs; }
    }
  }

  lemma MeaningsAgree(code: seq<byte>, es: seq<ElfReader.RelocView>, cs: seq<CoffReader.RelocView>, rs: seq<Reloc>,
                      ds: seq<Def>, own: nat)
    requires AllLinkable(rs) && AllFit(rs, |code|) && Disjoint(rs)
    ensures ElfMeans(es, rs, ds) && CoffMeans(cs, rs, ds) ==>
              && AlwaysLinks(code, es, own)
              && (LinkAlike(code, es, Apply(code, BakedWrites(rs)), cs, own)
                  <==> forall r | r in rs :: Unambiguous(ds, r.symbol))
  {
    if ElfMeans(es, rs, ds) && CoffMeans(cs, rs, ds) {
      forall k | 0 <= k < |rs| ensures PlaceFits(ElfPlace(es[k].sym)) && PlaceFits(CoffPlace(cs[k].sym)) {
        PlacesFit(ds, ElfChoice(ds, rs[k].symbol), rs[k].symbol);
        PlacesFit(ds, CoffChoice(ds, rs[k].symbol), rs[k].symbol);
      }
      AgreeIffSamePlaces(code, rs, es, cs, own);
      SamePlacesIff(es, cs, rs, ds);
    }
  }

  /** Section number i of an ELF and of a COFF object, made from s among definitions ds. */
  ghost predicate Recovered(e: ElfReader.ObjectView, c: CoffReader.ObjectView, i: nat, s: Section, ds: seq<Def>) {
    && 1 + i < |e.sections| == |e.relocs| && i < |c.sections|
    && e.sections[1 + i].bytes == s.code && ElfMeans(e.relocs[1 + i], s.relocs, ds)
    && AllLinkable(s.relocs) && c.sections[i].data == Apply(s.code, BakedWrites(s.relocs))
    && CoffMeans(c.sections[i].relocs, s.relocs, ds)
  }

  lemma BothRecovered(x: ElfSpec.Input, i: nat) returns (e: ElfReader.ObjectView, c: CoffReader.ObjectView)
    requires BothWritten(x, i)
    ensures e == ElfObject(x) && c == CoffObject(x.secs) && Recovered(e, c, i, x.secs[i], AllDefs(x.secs))
  {
    e, c := ElfObject(x), CoffObject(x.secs);
    NothingExported(x.secs);
    ElfSide(x, i);
    CoffSide(CoffSpec.AllSections(x.secs), i);
  }

  /** Section i of the two objects links alike. */
  ghost predicate SectionsLinkAlike(e: ElfReader.ObjectView, c: CoffReader.ObjectView, i: nat) {
    && 1 + i < |e.sections| == |e.relocs| && i < |c.sections|
    && LinkAlike(e.sections[1 + i].bytes, e.relocs[1 + i], c.sections[i].data, c.sections[i].relocs, 1 + i)
  }

  lemma RecoveredLink(e: ElfReader.ObjectView, c: CoffReader.ObjectView, i: nat, s: Section, ds: seq<Def>)
    requires AllLinkable(s.relocs) && AllFit(s.relocs, |s.code|) && Disjoint(s.relocs)
    ensures Recovered(e, c, i, s, ds) ==>
              && AlwaysLinks(e.sections[1 + i].bytes, e.relocs[1 + i], 1 + i)
              && (SectionsLinkAlike(e, c, i) <==> forall r | r in s.relocs :: Unambiguous(ds, r.symbol))
  {
    if Recovered(e, c, i, s, ds) {
      MeaningsAgree(s.code, e.relocs[1 + i], c.sections[i].relocs, s.relocs, ds, 1 + i);
    }
  }

  /** Wherever the sections and the symbols of other files are loaded, section i comes out of
      both links with the same bytes, if and only if both formats resolve the target of each
      of its relocations to the same place. */
  lemma FilesLinkAlike(x: ElfSpec.Input, i: nat) returns (e: ElfReader.ObjectView, c: CoffReader.ObjectView)
    requires BothWritten(x, i) && Disjoint(x.secs[i].relocs)
    ensures ElfSpec.Outcome(x).Ok? && ElfReader.ReadObject(ElfSpec.Outcome(x).value) == Some(e)
    ensures CoffTables.Outcome(COFF, x.secs).Ok?
    ensures CoffReader.ReadObject(CoffTables.Outcome(COFF, x.secs).value) == Some(c)
    ensures 1 + i < |e.sections| == |e.relocs| && AlwaysLinks(e.sections[1 + i].bytes, e.relocs[1 + i], 1 + i)
    ensures SectionsLinkAlike(e, c, i) <==> forall r | r in x.secs[i].relocs :: Unambiguous(AllDefs(x.secs), r.symbol)
  {
    ObjectsAreRead(x, i);
    e, c := BothRecovered(x, i);
    RecoveredLink(e, c, i, x.secs[i], AllDefs(x.secs));
  }

  /** A name with no definition, or with one that is not a local section label, is resolved alike. */
  lemma SingleUnambiguous(ds: seq<Def>, n: Name)
    requires forall j, k | 0 <= j < |ds| && 0 <= k < |ds| && ds[j].sym.name == n && ds[k].sym.name == n :: j == k
    requires forall j | 0 <= j < |ds| && ds[j].sym.name == n :: ElfMeaning.HasRow(ds[j])
    ensures Unambiguous(ds, n)
  {
    SameChoiceIff(ds, n);
  }
}
