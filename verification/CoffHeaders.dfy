/** The section headers and the file header of a COFF file, decoded by the numbers of the
    PE/COFF specification (sections 3 and 4) and compared with the input. */
module CoffHeaders {
  import opened Arith
  import opened Bytes
  import opened Bits
  import opened Names
  import opened Objects
  import opened CoffFormat
  import opened CoffSpec
  import opened CoffTables
  import opened CoffRoundTrip
  import opened CoffWalk
  import opened CoffSections
  import opened CoffTheorems
  import opened CoffReader
  import opened CoffSymbols

  function Bit(b: bool): nat { if b then 1 else 0 }

  /** Sections that take no file bytes, and sections that are written to at run time. */
  predicate Unstored(s: Section) { s.kind == BSS || (s.kind == TLS && s.code == []) }

  predicate Mutable(s: Section) { s.kind in {Data, BSS, InitArray, FiniArray, TLS, Custom} }

  predicate IsDirectives(s: Section) { s.kind == Custom && s.custom == Ascii(".drectve") }

  /** The alignment that was asked for, or the default of the kind. */
  function WantedAlign(s: Section): nat {
    if s.align > 0 then s.align
    else match s.kind case Text => 16 case Unwind => 4 case Custom => 1 case _ => 8
  }

  /** CNT_CODE, CNT_INITIALIZED_DATA, CNT_UNINITIALIZED_DATA, LNK_COMDAT, MEM_EXECUTE, MEM_READ
      and MEM_WRITE, with bits 20 to 23 for the alignment; directives are LNK_INFO, LNK_REMOVE
      and aligned to one byte. */
  predicate IsChars(chars: nat, s: Section) {
    if IsDirectives(s) then chars == 0x200 + 0x800 + 0x10_0000 else
    var nibble := chars / 0x10_0000 % 16;
    && 1 <= nibble <= 14
    && chars == 0x20 * Bit(s.kind == Text) + 0x40 * Bit(s.kind != Text && !Unstored(s)) + 0x80 * Bit(Unstored(s))
                + 0x1000 * Bit(s.linkOnce) + nibble * 0x10_0000 + 0x2000_0000 * Bit(s.kind == Text) + 0x4000_0000
                + 0x8000_0000 * Bit(Mutable(s))
    && (IsPow2(WantedAlign(s)) && WantedAlign(s) <= 8192 ==> Pow2(nibble - 1) == WantedAlign(s))
  }

  lemma CharsDecoded(s: Section)
    ensures IsChars(Chars(s), s)
  {
    if !IsDrectve(s) {
      CharsBits(s);
      AlignmentRecovered(s);
      assert BaseChars(s) == 0x20 * Bit(s.kind == Text) + 0x40 * Bit(s.kind != Text && !Unstored(s))
                             + 0x80 * Bit(Unstored(s)) + 0x1000 * Bit(s.linkOnce) + 0x2000_0000 * Bit(s.kind == Text)
                             + 0x4000_0000 + 0x8000_0000 * Bit(Mutable(s));
    }
  }

  lemma SumBits(chars: nat, code: nat, data: nat, bss: nat, comdat: nat, nibble: nat, write: nat)
    requires code < 2 && data < 2 && bss < 2 && comdat < 2 && nibble < 16 && write < 2
    requires chars == 0x20 * code + 0x40 * data + 0x80 * bss + 0x1000 * comdat + nibble * 0x10_0000
                      + 0x2000_0000 * code + 0x4000_0000 + 0x8000_0000 * write
    ensures chars / 0x20 % 2 == code && chars / 0x80 % 2 == bss && chars / 0x1000 % 2 == comdat
    ensures chars / 0x2000_0000 % 2 == code && chars / 0x8000_0000 % 2 == write
  {
    var low := 0x20 * code + 0x40 * data + 0x80 * bss;
    var mid := low + 0x1000 * comdat + nibble * 0x10_0000;
    var high := code + 2 + 4 * write;
    BitAt(chars, 0x20, data + 2 * bss + 0x40 * comdat + 0x4000 * nibble + 0x80_0000 * high, code, 0);
    BitAt(chars, 0x80, 0x10 * comdat + 0x1000 * nibble + 0x20_0000 * high, bss, 0x20 * code + 0x40 * data);
    BitAt(chars, 0x1000, 0x80 * nibble + 0x1_0000 * high, comdat, low);
    BitAt(chars, 0x2000_0000, 1 + 2 * write, code, mid);
    BitAt(chars, 0x8000_0000, 0, write, mid + 0x2000_0000 * code + 0x4000_0000);
  }

  /** The single bits of the characteristics. */
  lemma CharBits(chars: nat, s: Section)
    requires IsChars(chars, s) && !IsDirectives(s)
    ensures chars / 0x1000 % 2 == 1 <==> s.linkOnce
    ensures chars / 0x20 % 2 == 1 <==> s.kind == Text
    ensures chars / 0x80 % 2 == 1 <==> Unstored(s)
    ensures chars / 0x2000_0000 % 2 == 1 <==> s.kind == Text
    ensures chars / 0x8000_0000 % 2 == 1 <==> Mutable(s)
  {
    SumBits(chars, Bit(s.kind == Text), Bit(s.kind != Text && !Unstored(s)), Bit(Unstored(s)), Bit(s.linkOnce),
            chars / 0x10_0000 % 16, Bit(Mutable(s)));
  }

  /** The header and the bytes of section s; only its reservation if it takes no file bytes. */
  ghost predicate IsSection(v: SectionView, s: Section) {
    && IsNamed(v.name, s) && IsChars(v.chars, s)
    && v.size == (if Unstored(s) && s.vsize > 0 then s.vsize else |s.code|)
    && |v.data| == (if Unstored(s) then 0 else |s.code|)
    && (s.relocs == [] && !Unstored(s) ==> v.data == s.code)
  }

  lemma SectionDecoded(machine: u16, t: Tables, s: Section)
    requires AllTargeted(machine, t, s.relocs)
    ensures IsSection(SectionViewOf(machine, t, s), s)
  {
    CharsDecoded(s);
    NameRead(s);
  }

  /** Section i of every file, with its name, characteristics, size and bytes; it is marked
      as one of several copies exactly if its symbol says how to choose among them. */
  lemma SectionsRecovered(machine: u16, secs: seq<Section>, i: nat)
    requires Buildable(machine, secs) && InBounds(machine, secs) && i < |secs|
    ensures var o := ObjectOfFile(machine, secs);
            && i < |o.sections| == |secs| && i < |o.symbols| && IsSection(o.sections[i], secs[i])
            && IsSectionEntry(o.symbols[i], i, secs[i])
            && (!IsDirectives(secs[i]) ==>
                  (o.sections[i].chars / 0x1000 % 2 == 1 <==> o.symbols[i].definition.Some?))
  {
    RoundTrip(machine, secs);
    SectionsFirst(secs, ObjectOfFile(machine, secs).symbols);
    SectionDecoded(machine, TablesOf(secs), secs[i]);
    if !IsDirectives(secs[i]) { CharBits(Chars(secs[i]), secs[i]); }
  }

  // ------------------------------------------------------------- unused fields

  /** No time stamp, optional header or flags. */
  predicate IsFileHeader(f: Record, machine: u16, n: nat, symOff: nat, nSlots: nat)
    requires |f| == 7
  {
    && FromLE(f[0]) == machine && FromLE(f[1]) == n && FromLE(f[2]) == 0 && FromLE(f[3]) == symOff
    && FromLE(f[4]) == nSlots && FromLE(f[5]) == 0 && FromLE(f[6]) == 0
  }

  /** No virtual size or address and no line numbers, as for all object files, and nowhere
      to look for bytes or relocations that there are not. */
  predicate Unplaced(f: Record, s: Section)
    requires |f| == 10
  {
    && FromLE(f[1]) == 0 && FromLE(f[2]) == 0 && FromLE(f[6]) == 0 && FromLE(f[8]) == 0
    && (Unstored(s) ==> FromLE(f[4]) == 0)
    && (Unstored(s) || s.relocs == [] ==> FromLE(f[5]) == 0 && FromLE(f[7]) == 0)
  }

  lemma FileHeaderFields(b: seq<byte>, machine: u16, n: nat, symOff: nat, nSlots: nat)
    requires At(b, 0, Join(FileHeader(machine, n, symOff, nSlots)))
    requires n < 0x1_0000 && symOff < 0x1_0000_0000 && nSlots < 0x1_0000_0000
    ensures var f := ReadRecord(FILE_HDR, b, 0); f.Some? && IsFileHeader(f.value, machine, n, symOff, nSlots)
  {
    ReadJoined(FILE_HDR, b, 0, FileHeader(machine, n, symOff, nSlots));
    Pow256Values();
    LEFits(2, machine);
    LEFits(2, n);
    LEFits(4, symOff);
    LEFits(4, nSlots);
    LEFits(2, 0);
    LEFits(4, 0);
  }

  lemma ZeroReads()
    ensures FromLE(LE(4, 0)) == 0 && FromLE(LE(2, 0)) == 0
  {
    Pow256Values();
    LEFits(4, 0);
    LEFits(2, 0);
  }

  lemma HeaderUnplaced(secs: seq<Section>, k: nat, offsets: map<Name, nat>)
    requires k < |secs| && (IsLong(CoffSpec.SectionName(secs[k])) ==> CoffSpec.SectionName(secs[k]) in offsets)
    ensures Unplaced(HeaderRecord(secs, k, offsets), secs[k])
  {
    ZeroReads();
  }

  /** The fields that mean something only in images are zero, in the file header and in the
      header of every section. */
  lemma FieldsUnused(machine: u16, secs: seq<Section>, k: nat)
    requires Buildable(machine, secs) && InBounds(machine, secs) && k < |secs|
    ensures Writable(machine, secs, TablesOf(secs))
    ensures var b := FileOf(machine, secs, TablesOf(secs));
            var f, h := ReadRecord(FILE_HDR, b, 0), ReadRecord(SEC_HDR, b, Bytes.Slot(20, k, 40));
            && f.Some? && IsFileHeader(f.value, machine, |secs|, Pos(secs, |secs|), |Slots(secs)|)
            && h.Some? && Unplaced(h.value, secs[k])
  {
    var t := TablesOf(secs);
    TablesOfSound(machine, secs);
    FileLaid(machine, secs, t);
    var b := FileOf(machine, secs, t);
    FileHeaderFields(b, machine, |secs|, Pos(secs, |secs|), |t.slots|);
    SecHdrWidth();
    ReadTable(SEC_HDR, b, FILE_HDR_SIZE, HeaderRecords(secs, t.strtab.offsets), k);
    HeaderUnplaced(secs, k, t.strtab.offsets);
  }
}
