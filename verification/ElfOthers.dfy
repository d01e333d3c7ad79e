/** The headers that no input section stands behind, as recovered from whole ELF files. */
module ElfOthers {
  import opened Bytes
  import opened ElfFormat
  import opened ElfSpec
  import opened ElfReader
  import opened ElfRoundTrip
  import opened ElfTables
  import opened ElfHeaders
  import opened ElfRecovered
  import ElfMeaning

  /** The descriptor of section i's relocations. */
  lemma RelaDescAt(x: Input, i: nat)
    requires Buildable(x) && i < |x.secs| && x.secs[i].relocs != []
    ensures var k := 1 + |x.secs| + |Relocated(x.secs, i)|;
            && k < |Descs(x)|
            && IsRela(ViewOf(Descs(x)[k]), x.class_, SymtabPos(TablesOf(x).p), 1 + i, SectionName(x.secs[i]))
  {
    IndexFormulas(x);
    RelaGivenOf(x);
    RelaHeaderAt(x, TablesOf(x), Descs(x), i);
    RelaDecoded(x, TablesOf(x), i, Descs(x)[1 + |x.secs| + |Relocated(x.secs, i)|]);
  }

  lemma SymtabAt(x: Input)
    requires Buildable(x)
    ensures SymtabPos(TablesOf(x).p) == SymtabIdx(x)
  {
  }

  lemma RelaViewed(x: Input, vs: seq<SectionView>, i: nat)
    requires Buildable(x) && i < |x.secs| && x.secs[i].relocs != [] && vs == ViewsOf(Descs(x))
    ensures var k := 1 + |x.secs| + |Relocated(x.secs, i)|;
            k < |vs| && IsRela(vs[k], x.class_, SymtabIdx(x), 1 + i, SectionName(x.secs[i]))
  {
    RelaDescAt(x, i);
    SymtabAt(x);
  }

  lemma NameViewed(x: Input, vs: seq<SectionView>, i: nat)
    requires Buildable(x) && i < |x.secs| && vs == ViewsOf(Descs(x))
    ensures 1 + i < |vs| && vs[1 + i].name == SectionName(x.secs[i])
  {
    ContentDescAt(x, i);
  }

  /** Every section with relocations has its RELA header, behind those of the relocated
      sections before it, named after it. */
  lemma RelaRecovered(x: Input, i: nat)
    requires Buildable(x) && InBounds(x) && i < |x.secs| && x.secs[i].relocs != []
    ensures var o, k := ObjectOfImage(x), 1 + |x.secs| + |Relocated(x.secs, i)|;
            && k < |o.sections| && 1 + i < |o.sections|
            && IsRela(o.sections[k], x.class_, SymtabIdx(x), 1 + i, o.sections[1 + i].name)
  {
    SectionsViewed(x);
    RelaViewed(x, ObjectOfImage(x).sections, i);
    NameViewed(x, ObjectOfImage(x).sections, i);
  }

  lemma ComdatAt(x: Input, j: nat)
    requires Buildable(x) && j < |LinkOnce(x.secs, |x.secs|)|
    ensures var k, i := 1 + |x.secs| + |Relocated(x.secs, |x.secs|)| + j, LinkOnce(x.secs, |x.secs|)[j];
            && k < |Descs(x)| && ComdatSig(x.secs[i].symbols, Index(x.secs)).Some?
            && Descs(x)[k] == GroupDesc(x.secs, Index(x.secs), i, SymtabIdx(x))
  {
    IndexFormulas(x);
    GroupGivenOf(x);
    GroupHeaderAt(x, TablesOf(x), Descs(x), j);
    RelaGivenOf(x);
  }

  /** Every link-once section has its COMDAT header, signed by its first exported symbol. */
  lemma ComdatRecovered(x: Input, j: nat)
    requires Buildable(x) && InBounds(x) && j < |LinkOnce(x.secs, |x.secs|)|
    ensures var o, k := ObjectOfImage(x), 1 + |x.secs| + |Relocated(x.secs, |x.secs|)| + j;
            && k < |o.sections|
            && IsComdat(o.sections[k], SymtabIdx(x), o.symbols, x.secs[LinkOnce(x.secs, |x.secs|)[j]])
  {
    var i := LinkOnce(x.secs, |x.secs|)[j];
    Recovered(x);
    ComdatAt(x, j);
    IndexPoints(x.secs);
    ElfMeaning.ExportedIndexed(x.secs, i);
    ComdatDecoded(x, Index(x.secs), Rows(x.secs), i, SymtabIdx(x));
  }

  lemma FixedDescsIn(x: Input)
    requires Buildable(x)
    ensures FixedDescs(Descs(x), SymtabPart(x), Strtab(x.secs).data, SymtabIdx(x), x.gnuStack)
  {
    IndexFormulas(x);
    FixedDescsOf(PartsOf(x), Descs(x), Strtab(x.secs).data, x.gnuStack);
  }

  lemma FixedIn(x: Input, ds: seq<SecDesc>, strings: seq<byte>, n: nat)
    requires SymtabIdx(x) == 1 + n + if x.gnuStack then 1 else 0
    ensures FixedDescs(ds, SymtabPart(x), strings, SymtabIdx(x), x.gnuStack) ==>
              FixedHeaders(ViewsOf(ds), x.class_, n, x.gnuStack)
  {
    SymtabDecoded(x);
    FixedFrom(ds, SymtabPart(x), strings, x.class_, SymtabIdx(x), n, x.gnuStack);
  }

  /** The number of headers that come from sections. */
  function Others(x: Input): nat { |x.secs| + |Relocated(x.secs, |x.secs|)| + |LinkOnce(x.secs, |x.secs|)| }

  lemma FixedViewed(x: Input)
    requires Buildable(x)
    ensures FixedHeaders(ViewsOf(Descs(x)), x.class_, Others(x), x.gnuStack)
  {
    FixedDescsIn(x);
    FixedIn(x, Descs(x), Strtab(x.secs).data, Others(x));
  }

  /** The null header comes first, the stack note, if it is asked for, and the symbol and
      string tables last, and there is no other header without a section behind it. */
  lemma FixedRecovered(x: Input)
    requires Buildable(x) && InBounds(x)
    ensures FixedHeaders(ObjectOfImage(x).sections, x.class_, Others(x), x.gnuStack)
  {
    SectionsViewed(x);
    FixedViewed(x);
  }
}
