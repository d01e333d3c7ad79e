/** What a reader recovers of the input from a whole ELF file: sections, symbols, groups. */
module ElfRecovered {
  import opened Bytes
  import opened Bits
  import opened Names
  import opened Objects
  import opened ElfFormat
  import opened ElfSpec
  import opened ElfReader
  import opened ElfRoundTrip
  import opened ElfTables
  import opened ElfReading
  import opened ElfTheorems

  // ------------------------------------------------------- descriptors by position

  lemma ContentDescAt(x: Input, i: nat)
    requires Buildable(x) && i < |x.secs|
    ensures Descs(x)[1 + i] == ContentDesc(x.class_, x.secs[i])
  {
    IndexFormulas(x);
  }

  lemma RelaPlaced(p: Parts, ds: seq<SecDesc>, r: nat)
    ensures Positioned(p, ds) && r < |p.rela| ==> RelaPos(p) + r < |ds| && ds[RelaPos(p) + r] == p.rela[r]
  {
  }

  lemma GroupPlaced(p: Parts, ds: seq<SecDesc>, j: nat)
    ensures Positioned(p, ds) && j < |p.group| ==> GroupPos(p) + j < |ds| && ds[GroupPos(p) + j] == p.group[j]
  {
  }

  lemma RelaForAt(x: Input, t: Tables, i: nat)
    requires i < |x.secs| && x.secs[i].relocs != []
    ensures var r := |Relocated(x.secs, i)|;
            RelaGiven(x, t) ==> r < |t.p.rela| && RelaFor(x, t, i, t.p.rela[r])
  {
    RelocatedIndex(x.secs, |x.secs|, i);
    if RelaGiven(x, t) { assert RelaFor(x, t, i, t.p.rela[|Relocated(x.secs, i)|]); }
  }

  /** The header of section i's relocations. */
  lemma RelaHeaderAt(x: Input, t: Tables, ds: seq<SecDesc>, i: nat)
    requires i < |x.secs| && x.secs[i].relocs != [] && |t.p.content| == |x.secs|
    ensures var k := 1 + |x.secs| + |Relocated(x.secs, i)|;
            RelaGiven(x, t) && Positioned(t.p, ds) ==> k < |ds| && RelaFor(x, t, i, ds[k])
  {
    var r := |Relocated(x.secs, i)|;
    RelaForAt(x, t, i);
    if RelaGiven(x, t) && Positioned(t.p, ds) {
      RelaPlaced(t.p, ds, r);
      assert ds[1 + |x.secs| + r] == t.p.rela[r];
    }
  }

  /** The descriptor of the j-th group. */
  lemma GroupHeaderAt(x: Input, t: Tables, ds: seq<SecDesc>, j: nat)
    requires j < |LinkOnce(x.secs, |x.secs|)| && |t.p.content| == |x.secs|
    requires |t.p.rela| == |Relocated(x.secs, |x.secs|)|
    ensures var k := 1 + |x.secs| + |Relocated(x.secs, |x.secs|)| + j;
            GroupGiven(x, t) && Positioned(t.p, ds) ==>
              k < |ds| && GroupFor(x, t, LinkOnce(x.secs, |x.secs|)[j], ds[k])
  {
    GroupPlaced(t.p, ds, j);
  }

  lemma TableDescsAt(x: Input)
    requires Buildable(x)
    ensures Descs(x)[SymtabIdx(x)] == SymtabPart(x) && Descs(x)[SymtabIdx(x) + 1] == StrtabPart(x)
  {
    IndexFormulas(x);
  }

  // ------------------------------------------------------- what the reader recovers

  /** The object read from the file made from x. */
  ghost function ObjectOfImage(x: Input): (v: ObjectView)
    requires Buildable(x) && InBounds(x)
    ensures ReadObject(Image(x)) == Some(v)
  {
    RoundTrip(x);
    ReadObject(Image(x)).value
  }

  lemma Recovered(x: Input)
    requires Buildable(x) && InBounds(x)
    ensures ObjectOfImage(x).sections == ViewsOf(Descs(x))
    ensures ObjectOfImage(x).symbols == SymbolViewsOf(Rows(x.secs))
    ensures TargetsGiven(x, TablesOf(x))
    ensures ObjectOfImage(x).relocs == AllRelocsFor(x, TablesOf(x), |Descs(x)|)
  {
    RoundTrip(x);
  }

  /** The view of content section s: its own bytes, or only a size. */
  function ContentView(c: Class, s: Section): SectionView {
    SectionView(SectionName(s), SectionType(s), SectionFlags(s), SectionAlign(c, s), 0, 0, 0,
                if NoBits(s) then VSize(s) else |s.code|, if NoBits(s) then [] else s.code)
  }

  lemma SectionsViewed(x: Input)
    requires Buildable(x) && InBounds(x)
    ensures ObjectOfImage(x).sections == ViewsOf(Descs(x))
  {
    Recovered(x);
  }

  /** Sections that take no file bytes, and sections that are written to at run time. */
  predicate Unstored(s: Section) { s.kind == BSS || (s.kind == TLS && s.code == []) }

  predicate Writable(s: Section) { s.kind in {Data, BSS, InitArray, FiniArray, TLS} }

  predicate IsNamed(n: Name, s: Section) {
    match s.kind
    case Text => n == Ascii(".text")
    case Data => n == Ascii(".data")
    case ROData => n == Ascii(".rodata")
    case BSS => n == Ascii(".bss")
    case Unwind => n == Ascii(".eh_frame")
    case InitArray => n == Ascii(".init_array")
    case FiniArray => n == Ascii(".fini_array")
    case TLS => n == if s.code == [] then Ascii(".tbss") else Ascii(".tdata")
    case Custom => n == s.custom
  }

  function Bit(b: bool): nat { if b then 1 else 0 }

  /** The header v, with the numbers of the gABI, and its bytes are those of s.  The types
      are PROGBITS, NOBITS, INIT_ARRAY and FINI_ARRAY, the flags WRITE, ALLOC, EXECINSTR and TLS. */
  predicate IsContent(v: SectionView, c: Class, s: Section) {
    && IsNamed(v.name, s)
    && v.shType == (if Unstored(s) then 8 else match s.kind case InitArray => 14 case FiniArray => 15 case _ => 1)
    && v.flags == Bit(Writable(s)) + 2 + 4 * Bit(s.kind == Text) + 0x400 * Bit(s.kind == TLS)
    && v.size == (if Unstored(s) && s.vsize > 0 then s.vsize else |s.code|)
    && v.bytes == (if Unstored(s) then [] else s.code)
    && v.align == (if s.align > 0 then s.align else if s.kind == Text then 16 else if c.Elf64? then 8 else 4)
    && v.link == 0 && v.info == 0 && v.entsize == 0
  }

  lemma ContentDecoded(c: Class, s: Section)
    ensures IsContent(ContentView(c, s), c, s)
  {
  }

  lemma ContentViewOf(c: Class, s: Section)
    ensures ViewOf(ContentDesc(c, s)) == ContentView(c, s)
  {
  }

  /** Headers 1..N of the file are the input sections in order, with their relocations. */
  lemma SectionsRecovered(x: Input, i: nat)
    requires Buildable(x) && InBounds(x) && i < |x.secs|
    ensures |ObjectOfImage(x).sections| == |ObjectOfImage(x).relocs| > 1 + i
    ensures ObjectOfImage(x).sections[1 + i] == ContentView(x.class_, x.secs[i])
    ensures IsContent(ObjectOfImage(x).sections[1 + i], x.class_, x.secs[i])
    ensures TargetedAt(x, TablesOf(x), i) && ObjectOfImage(x).relocs[1 + i] == RelocsAt(x, TablesOf(x), i)
  {
    Recovered(x);
    ContentDescAt(x, i);
    ContentViewOf(x.class_, x.secs[i]);
    ContentDecoded(x.class_, x.secs[i]);
  }

  lemma SymtabFoundIn(x: Input)
    requires Buildable(x) && InputFits(x)
    ensures FindType(ViewsOf(Descs(x)), SHT_SYMTAB) == Some(SymtabIdx(x))
  {
    IndexFormulas(x);
    PartsNotRela(x);
    SymtabFound(PartsOf(x), Descs(x));
  }

  lemma SymtabReadBack(x: Input)
    requires Buildable(x) && InBounds(x)
    ensures var v, m := ObjectOfImage(x), SymtabIdx(x);
            && m + 1 < |v.sections| && v.sections[m].link == m + 1 && v.sections[m].info == |LocalPart(x.secs)|
            && v.sections[m + 1].shType == SHT_STRTAB
  {
    Recovered(x);
    TableDescsAt(x);
  }

  lemma RowsReadPartitioned(x: Input)
    requires InputFits(x)
    ensures PartitionedAt(SymbolViewsOf(Rows(x.secs)), |LocalPart(x.secs)|)
  {
    RowsPartitioned(x.secs);
    ViewsPartitioned(Rows(x.secs), |LocalPart(x.secs)|);
  }

  /** The symbol table: found by its type, with its strings next to it; entries below
      sh_info are local and all others are global or weak. */
  lemma SymbolsRecovered(x: Input)
    requires Buildable(x) && InBounds(x)
    ensures ObjectOfImage(x).symbols == SymbolViewsOf(Rows(x.secs))
    ensures FindType(ObjectOfImage(x).sections, SHT_SYMTAB) == Some(SymtabIdx(x))
    ensures var v, m := ObjectOfImage(x), SymtabIdx(x);
            && m + 1 < |v.sections| && v.sections[m].link == m + 1 && v.sections[m + 1].shType == SHT_STRTAB
            && PartitionedAt(v.symbols, v.sections[m].info)
  {
    Recovered(x);
    SymtabFoundIn(x);
    SymtabReadBack(x);
    RowsReadPartitioned(x);
  }

  predicate PartitionedAt(symbols: seq<SymbolView>, first: nat) {
    && first <= |symbols|
    && (forall k | 0 <= k < first :: symbols[k].bind == STB_LOCAL)
    && (forall k | first <= k < |symbols| :: symbols[k].bind in {STB_GLOBAL, STB_WEAK})
  }

  lemma ViewsPartitioned(rows: seq<Row>, first: nat)
    requires first <= |rows|
    requires forall k | 0 <= k < first :: rows[k].info / 16 == STB_LOCAL
    requires forall k | first <= k < |rows| :: rows[k].info / 16 in {STB_GLOBAL, STB_WEAK}
    ensures PartitionedAt(SymbolViewsOf(rows), first)
  {
  }

  // -------------------------------------------------------------------- groups

  /** The words of a group section, read as the gABI lays them out. */
  function Words(b: seq<byte>): seq<nat> {
    if |b| < 4 then [] else Words(b[..|b| - 4]) + [FromLE(b[|b| - 4..])]
  }

  lemma {:induction false} WordsOfList(ws: seq<nat>)
    requires forall k | 0 <= k < |ws| :: ws[k] < 0x1_0000_0000
    ensures Words(WordList(ws)) == ws
  {
    if ws != [] {
      var n := |ws| - 1;
      WordsOfList(ws[..n]);
      Pow256Values();
      LEFits(4, ws[n]);
      var b := WordList(ws);
      assert b[..|b| - 4] == WordList(ws[..n]) && b[|b| - 4..] == LE(4, ws[n]);
    }
  }

  /** Section k, as read, is the group of section i: flagged COMDAT, linked to the symbol
      table m, signed by an exported symbol of its section, and made of exactly that
      section and its relocation section. */
  ghost predicate GroupRead(x: Input, v: ObjectView, m: nat, k: nat, i: nat)
    requires i < |x.secs|
  {
    && k < |v.sections| && v.sections[k].shType == SHT_GROUP && v.sections[k].link == m
    && SignedByExport(x.secs[i], v.symbols, v.sections[k].info)
    && Words(v.sections[k].bytes)
       == [1, 1 + i] + (if x.secs[i].relocs != [] then [1 + |x.secs| + |Relocated(x.secs, i)|] else [])
    && (x.secs[i].relocs != [] ==> RelaRead(x, v, 1 + |x.secs| + |Relocated(x.secs, i)|, i))
  }

  ghost predicate SignedByExport(s: Section, symbols: seq<SymbolView>, sig: nat) {
    sig < |symbols| && exists j :: 0 <= j < |s.symbols| && s.symbols[j].binding != Local
                                   && symbols[sig].name == s.symbols[j].name
  }

  ghost predicate RelaRead(x: Input, v: ObjectView, q: nat, i: nat) {
    q < |v.sections| && v.sections[q].shType == SHT_RELA && v.sections[q].info == 1 + i
  }

  lemma {:induction false} ComdatSigNames(syms: seq<Symbol>, index: map<Name, nat>)
    requires ComdatSig(syms, index).Some?
    ensures exists j :: 0 <= j < |syms| && syms[j].binding != Local && syms[j].name in index
                        && ComdatSig(syms, index).value == index[syms[j].name]
  {
    if !(syms[0].binding != Local && syms[0].name in index) {
      ComdatSigNames(syms[1..], index);
      var j :| 0 <= j < |syms[1..]| && syms[1..][j].binding != Local && syms[1..][j].name in index
               && ComdatSig(syms[1..], index).value == index[syms[1..][j].name];
      assert syms[j + 1] == syms[1..][j];
    }
  }

  lemma MembersFit(secs: seq<Section>, i: nat)
    requires i < |secs| < 0xFF00
    ensures forall k | 0 <= k < |[1] + GroupMembers(secs, i)| :: ([1] + GroupMembers(secs, i))[k] < 0x1_0000_0000
  {
  }

  lemma GroupSigned(s: Section, index: map<Name, nat>, rows: seq<Row>)
    requires ComdatSig(s.symbols, index).Some? && Points(index, rows)
    ensures SignedByExport(s, SymbolViewsOf(rows), ComdatSig(s.symbols, index).value)
  {
    ComdatSigNames(s.symbols, index);
  }

  lemma MembersListed(secs: seq<Section>, i: nat)
    requires i < |secs|
    ensures [1] + GroupMembers(secs, i)
            == [1, 1 + i] + (if secs[i].relocs != [] then [1 + |secs| + |Relocated(secs, i)|] else [])
  {
  }

  lemma GroupWords(secs: seq<Section>, i: nat)
    requires i < |secs| < 0xFF00
    ensures Words(WordList([1] + GroupMembers(secs, i))) == [1] + GroupMembers(secs, i)
  {
    MembersFit(secs, i);
    WordsOfList([1] + GroupMembers(secs, i));
  }

  /** The group of section i, from its descriptor and the header of its relocations. */
  lemma GroupReadFrom(x: Input, t: Tables, d: SecDesc, v: ObjectView, m: nat, k: nat, i: nat)
    requires i < |x.secs| < 0xFF00 && k < |v.sections| && v.sections[k] == ViewOf(d) && m == SymtabPos(t.p)
    requires v.symbols == SymbolViewsOf(t.rows)
    requires x.secs[i].relocs != [] ==> RelaRead(x, v, 1 + |x.secs| + |Relocated(x.secs, i)|, i)
    ensures GroupFor(x, t, i, d) && Points(t.index, t.rows) ==> GroupRead(x, v, m, k, i)
  {
    if GroupFor(x, t, i, d) && Points(t.index, t.rows) {
      GroupSigned(x.secs[i], t.index, t.rows);
      GroupWords(x.secs, i);
      MembersListed(x.secs, i);
    }
  }

  /** What the groups of an object are read from, whatever tables it was made with. */
  ghost predicate GroupContext(x: Input, t: Tables, ds: seq<SecDesc>, v: ObjectView) {
    && RelaGiven(x, t) && GroupGiven(x, t) && Points(t.index, t.rows) && Positioned(t.p, ds)
    && |t.p.content| == |x.secs| < 0xFF00 && v.sections == ViewsOf(ds) && v.symbols == SymbolViewsOf(t.rows)
  }

  lemma GroupContextOf(x: Input)
    requires Buildable(x) && InBounds(x)
    ensures GroupContext(x, TablesOf(x), Descs(x), ObjectOfImage(x))
  {
    Recovered(x);
    IndexFormulas(x);
    RelaGivenOf(x);
    GroupGivenOf(x);
    IndexPoints(x.secs);
  }

  lemma RelaReadIn(x: Input, t: Tables, ds: seq<SecDesc>, v: ObjectView, i: nat)
    requires i < |x.secs| && x.secs[i].relocs != []
    ensures GroupContext(x, t, ds, v) ==> RelaRead(x, v, 1 + |x.secs| + |Relocated(x.secs, i)|, i)
  {
    if GroupContext(x, t, ds, v) { RelaHeaderAt(x, t, ds, i); }
  }

  lemma GroupReadIn(x: Input, t: Tables, ds: seq<SecDesc>, v: ObjectView, m: nat, j: nat)
    requires j < |LinkOnce(x.secs, |x.secs|)| && m == SymtabPos(t.p)
    ensures GroupContext(x, t, ds, v) ==>
              GroupRead(x, v, m, 1 + |x.secs| + |Relocated(x.secs, |x.secs|)| + j, LinkOnce(x.secs, |x.secs|)[j])
  {
    if GroupContext(x, t, ds, v) {
      var i, k := LinkOnce(x.secs, |x.secs|)[j], 1 + |x.secs| + |Relocated(x.secs, |x.secs|)| + j;
      GroupHeaderAt(x, t, ds, j);
      if x.secs[i].relocs != [] { RelaReadIn(x, t, ds, v, i); }
      GroupReadFrom(x, t, ds[k], v, m, k, i);
    }
  }

  /** Every link-once section has its COMDAT group, in order, behind the relocation sections. */
  lemma GroupsRecovered(x: Input, j: nat)
    requires Buildable(x) && InBounds(x) && j < |LinkOnce(x.secs, |x.secs|)|
    ensures GroupRead(x, ObjectOfImage(x), SymtabIdx(x), 1 + |x.secs| + |Relocated(x.secs, |x.secs|)| + j,
                      LinkOnce(x.secs, |x.secs|)[j])
  {
    GroupContextOf(x);
    GroupReadIn(x, TablesOf(x), Descs(x), ObjectOfImage(x), SymtabIdx(x), j);
  }

  // ------------------------------------------------------------------- placement

  /** Contents, and sections that only reserve space, start in the file at a multiple of
      every power-of-two alignment. */
  lemma DataAligned(x: Input, k: nat)
    requires Buildable(x) && 1 <= k < |Descs(x)|
    ensures var d := Descs(x)[k];
            (d.shType == SHT_NOBITS || d.data != []) && IsPow2(d.align) ==>
              FileOff(x.class_, Descs(x), k) % d.align == 0
  {
    var d := Descs(x)[k];
    if d.shType == SHT_NOBITS || d.data != [] { OffsetAligned(x.class_, Descs(x), k); }
  }
}
