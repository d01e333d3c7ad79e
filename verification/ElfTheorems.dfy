/** The main results about ELF files, for every input and both classes. */
module ElfTheorems {
  import opened Bytes
  import opened Names
  import opened Objects
  import opened StringTable
  import opened ElfFormat
  import opened ElfSpec
  import opened ElfReader
  import opened ElfRoundTrip
  import opened ElfTables
  import opened ElfReading

  // -------------------------------------------------------------------- the image

  function HeaderView(c: Class, osabi: u8, machine: u16, ds: seq<SecDesc>, shstrtab: nat): ElfReader.Header {
    ElfReader.Header(c, osabi, machine, Shoff(c, ds), ShdrSize(c), |ds|, shstrtab)
  }

  /** The header a reader meets first. */
  ghost function HeaderFor(x: Input): ElfReader.Header
    requires Buildable(x)
  {
    HeaderView(x.class_, x.osabi, x.machine, Descs(x), SymtabIdx(x) + 2)
  }

  /** The chunks of an image: section contents, then the section header table. */
  ghost function ImageChunks(x: Input): seq<Placement>
    requires Buildable(x)
  {
    ClosedNames(Body(x));
    AllChunks(x.class_, Descs(x), Table(HeaderRecords(x.class_, Descs(x), Shstrtab(x).offsets)))
  }

  /** An image is laid out as predicted, exactly as long as its header table's
      end, and zero where no chunk lies. */
  lemma ImageLaid(x: Input)
    requires Buildable(x)
    ensures Laid(Image(x), x.class_, ElfSpec.Header(x), Descs(x), Shstrtab(x))
    ensures |Image(x)| == Shoff(x.class_, Descs(x)) + |Descs(x)| * ShdrSize(x.class_)
    ensures ZeroBetween(Image(x), EhdrSize(x.class_), ImageChunks(x))
  {
    ClosedNames(Body(x));
    EmissionLaid(x.class_, ElfSpec.Header(x), Descs(x), Shstrtab(x));
  }

  lemma ImageHeader(x: Input)
    requires Buildable(x) && |Descs(x)| < 0xFF00 && |Image(x)| < Pow256(Word(x.class_))
    ensures ReadHeader(Image(x)) == Some(HeaderFor(x))
  {
    ImageLaid(x);
    HeaderBytes(Image(x), x.class_, x.osabi, x.machine, Descs(x), SymtabIdx(x) + 2);
  }

  lemma HeaderBytes(b: seq<byte>, c: Class, osabi: u8, machine: u16, ds: seq<SecDesc>, shstrtab: nat)
    requires |ds| < 0x1_0000 && shstrtab < 0x1_0000 && Shoff(c, ds) < Pow256(Word(c))
    requires At(b, 0, Join(FileHeader(c, osabi, machine, ds, shstrtab)))
    ensures ReadHeader(b) == Some(HeaderView(c, osabi, machine, ds, shstrtab))
  {
    HeaderReads(b, c, osabi, machine, Shoff(c, ds), |ds|, shstrtab);
  }

  lemma NameTableSound(body: seq<SecDesc>)
    ensures NameTable(body).Sound()
  {
    BaseTablesWellFormed();
    InternAllWellFormed(Sentinel, DescNames(body) + [Ascii(".shstrtab")]);
  }

  lemma ImageSections(x: Input)
    requires Buildable(x) && InBounds(x)
    ensures Readable(Image(x), HeaderFor(x), Descs(x), Shstrtab(x).offsets)
    ensures ReadSections(Image(x), HeaderFor(x)) == Some(ViewsOf(Descs(x)))
  {
    var b, h, ds, t := Image(x), HeaderFor(x), Descs(x), Shstrtab(x);
    IndexFormulas(x);
    InputPartsGood(x);
    AllDescsGood(x.class_, PartsOf(x), ds);
    ImageLaid(x);
    NameTableSound(Body(x));
    ImageReadable(b, h, ElfSpec.Header(x), ds, t);
    SectionsRead(b, h, ds, t);
  }

  // --------------------------------------------------------------- the round trip

  lemma PartsNotRela(x: Input)
    requires Buildable(x) && InputFits(x)
    ensures OthersNotRela(PartsOf(x))
    ensures PartsOf(x).symtab.shType == SHT_SYMTAB
    ensures forall i | 0 <= i < |PartsOf(x).content| :: PartsOf(x).content[i].shType != SHT_SYMTAB
    ensures forall i | 0 <= i < |PartsOf(x).rela| :: PartsOf(x).rela[i].shType == SHT_RELA
    ensures forall i | 0 <= i < |PartsOf(x).group| :: PartsOf(x).group[i].shType == SHT_GROUP
    ensures forall i | 0 <= i < |PartsOf(x).note| :: PartsOf(x).note[i].shType == SHT_PROGBITS
  {
    ContentPartGood(x);
    RelaGivenOf(x);
    GroupGivenOf(x);
  }

  lemma SymtabFound(p: Parts, ds: seq<SecDesc>)
    requires Positioned(p, ds) && p.symtab.shType == SHT_SYMTAB
    requires forall i | 0 <= i < |p.content| :: p.content[i].shType != SHT_SYMTAB
    requires forall i | 0 <= i < |p.rela| :: p.rela[i].shType == SHT_RELA
    requires forall i | 0 <= i < |p.group| :: p.group[i].shType == SHT_GROUP
    requires forall i | 0 <= i < |p.note| :: p.note[i].shType == SHT_PROGBITS
    ensures FindType(ViewsOf(ds), SHT_SYMTAB) == Some(SymtabPos(p))
  {
    forall k | 0 <= k < SymtabPos(p) ensures ds[k].shType != SHT_SYMTAB { PartOf(p, ds, k); }
    FindTypeAt(ViewsOf(ds), SHT_SYMTAB, SymtabPos(p));
  }

  lemma ReadableSeen(b: seq<byte>, h: ElfReader.Header, ds: seq<SecDesc>, names: map<Name, nat>)
    requires Readable(b, h, ds, names)
    ensures forall k: nat | k < |ds| :: SeenSomewhere(b, h, k, ds[k])
  {
    forall k: nat | k < |ds| ensures SeenSomewhere(b, h, k, ds[k]) {
      assert Seen(b, h, k, ds[k], names[ds[k].name]);
    }
  }

  lemma ReadFrom(x: Input, t: Tables, ds: seq<SecDesc>, b: seq<byte>, h: ElfReader.Header)
    requires InputFits(x) && SymtabGiven(x, t) && ContentGiven(x, t) && RelaGiven(x, t) && OthersNotRela(t.p)
    requires TargetsGiven(x, t)
    requires Positioned(t.p, ds) && |t.rows| < SymLimit(x.class_)
    requires forall k: nat | k < |ds| :: SeenSomewhere(b, h, k, ds[k])
    requires ReadHeader(b) == Some(h)
    requires h.class_ == x.class_ && h.machine == x.machine && h.osabi == x.osabi && h.shnum == |ds|
    requires ReadSections(b, h) == Some(ViewsOf(ds)) && FindType(ViewsOf(ds), SHT_SYMTAB) == Some(SymtabPos(t.p))
    ensures RelocsReadable(x, t, b, h)
    ensures ReadObject(b) == Some(Expected(x, t, ds))
  {
    var m := SymtabPos(t.p);
    assert SeenSomewhere(b, h, m, ds[m]) && SeenSomewhere(b, h, m + 1, ds[m + 1]);
    TablesRead(x, t, b, h);
    FitAll(x);
    SeenAll(b, h, ds);
    ContextReadable(x, t, ds, b, h);
    SymbolsRead(b, h, m, m + 1, t.rows, t.strtab);
    AllRelocsRead(x, t, b, h);
    ObjectOf(b, h, ViewsOf(ds), m, SymbolViewsOf(t.rows), AllRelocsFor(x, t, h.shnum));
  }

  /** The reader recovers every section, symbol and relocation of every file that is built. */
  lemma RoundTrip(x: Input)
    requires Buildable(x) && InBounds(x)
    ensures TargetsGiven(x, TablesOf(x))
    ensures ReadObject(Image(x)) == Some(Expected(x, TablesOf(x), Descs(x)))
  {
    var t, ds, b, h := TablesOf(x), Descs(x), Image(x), HeaderFor(x);
    IndexFormulas(x);
    ImageHeader(x);
    ImageSections(x);
    ReadableSeen(b, h, ds, Shstrtab(x).offsets);
    SymtabGivenOf(x);
    ContentGivenOf(x);
    RelaGivenOf(x);
    TargetsOf(x, t);
    PartsNotRela(x);
    SymtabFound(t.p, ds);
    ReadFrom(x, t, ds, b, h);
  }
}
