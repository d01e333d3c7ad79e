/** The file header of an ELF file, with the numbers of the gABI (chapter 4), and how closely
    the sections are packed. */
module ElfFileHeader {
  import opened Bytes
  import opened Bits
  import opened Names
  import opened Objects
  import opened ElfFormat
  import opened ElfSpec
  import opened ElfRoundTrip
  import opened ElfTables
  import opened ElfTheorems

  /** The identification, type and sizes; no entry point, program headers or flags. */
  predicate IsFileHeader(f: Record, c: Class, osabi: u8, machine: u16, shoff: nat, n: nat)
    requires |f| == 14
  {
    && f[0] == [0x7F, 0x45, 0x4C, 0x46, if c.Elf64? then 2 else 1, 1, 1, osabi, 0, 0, 0, 0, 0, 0, 0, 0]
    && FromLE(f[1]) == 1 && FromLE(f[2]) == machine && FromLE(f[3]) == 1
    && FromLE(f[4]) == 0 && FromLE(f[5]) == 0 && FromLE(f[6]) == shoff && FromLE(f[7]) == 0
    && FromLE(f[8]) == (if c.Elf64? then 64 else 52) && FromLE(f[9]) == 0 && FromLE(f[10]) == 0
    && FromLE(f[11]) == (if c.Elf64? then 64 else 40) && FromLE(f[12]) == n && FromLE(f[13]) == n - 1
  }

  lemma FileHeaderFields(c: Class, osabi: u8, machine: u16, shoff: nat, n: u16)
    requires 0 < n && shoff < Pow256(Word(c))
    ensures IsFileHeader(EhdrRecord(c, osabi, machine, shoff, n, n - 1), c, osabi, machine, shoff, n)
  {
    EhdrFieldsRead(c, osabi, machine, shoff, n, n - 1);
    Pow256Values();
    LEFits(4, EV_CURRENT);
    LEFits(Word(c), 0);
    LEFits(4, 0);
    LEFits(2, EhdrSize(c));
    LEFits(2, 0);
  }

  lemma FileHeaderIn(b: seq<byte>, c: Class, osabi: u8, machine: u16, shoff: nat, n: u16)
    requires 0 < n && shoff < Pow256(Word(c)) && At(b, 0, Join(EhdrRecord(c, osabi, machine, shoff, n, n - 1)))
    ensures var f := ReadRecord(EhdrShape(c), b, 0);
            f.Some? && IsFileHeader(f.value, c, osabi, machine, shoff, n)
  {
    FileHeaderFields(c, osabi, machine, shoff, n);
    ReadJoined(EhdrShape(c), b, 0, EhdrRecord(c, osabi, machine, shoff, n, n - 1));
  }

  /** The file starts with its header; the section headers, at a multiple of the word, are its
      end. */
  lemma FileHeaderRecovered(x: Input)
    requires Buildable(x) && InBounds(x)
    ensures var b, n, off := Image(x), |Descs(x)|, Shoff(x.class_, Descs(x));
            && |b| == off + n * (if x.class_.Elf64? then 64 else 40) && off % Word(x.class_) == 0
            && var f := ReadRecord(EhdrShape(x.class_), b, 0);
               f.Some? && IsFileHeader(f.value, x.class_, x.osabi, x.machine, off, n)
  {
    ImageLaid(x);
    FileHeaderOf(Image(x), x.class_, x.osabi, x.machine, Descs(x));
  }

  lemma FileHeaderOf(b: seq<byte>, c: Class, osabi: u8, machine: u16, ds: seq<SecDesc>)
    requires 0 < |ds| < 0xFF00 && Shoff(c, ds) < Pow256(Word(c))
    requires At(b, 0, Join(FileHeader(c, osabi, machine, ds, |ds| - 1)))
    ensures Shoff(c, ds) % Word(c) == 0
    ensures var f := ReadRecord(EhdrShape(c), b, 0);
            f.Some? && IsFileHeader(f.value, c, osabi, machine, Shoff(c, ds), |ds|)
  {
    WordAligned(Pos(c, ds, |ds|), c);
    FileHeaderIn(b, c, osabi, machine, Shoff(c, ds), |ds|);
  }

  lemma WordAligned(pos: nat, c: Class)
    ensures AlignUp(pos, Word(c)) % Word(c) == 0
  {
    assert IsPow2(2) && IsPow2(4);
    AlignUpLeast(pos, Word(c), 0);
  }

  lemma HeaderRecordAt(b: seq<byte>, c: Class, ds: seq<SecDesc>, names: map<Name, nat>, k: nat)
    requires k < |ds| && (forall i | 0 <= i < |ds| :: ds[i].name in names)
    requires At(b, Shoff(c, ds), Table(HeaderRecords(c, ds, names)))
    ensures ReadRecord(ShdrShape(c), b, Slot(Shoff(c, ds), k, ShdrSize(c))) == Some(HeaderRecord(c, ds, names, k))
    ensures FromLE(HeaderRecord(c, ds, names, k)[3]) == 0
  {
    ShdrWidth(c);
    ReadTable(ShdrShape(c), b, Shoff(c, ds), HeaderRecords(c, ds, names), k);
    Pow256Values();
    LEFits(Word(c), 0);
  }

  /** The null header is all zeros. */
  lemma NullHeaderZero(x: Input)
    requires Buildable(x)
    ensures var c := x.class_;
            var f := ReadRecord(ShdrShape(c), Image(x), Shoff(c, Descs(x)));
            f.Some? && forall j | 0 <= j < |f.value| :: FromLE(f.value[j]) == 0
  {
    var c, ds, names := x.class_, Descs(x), Shstrtab(x).offsets;
    ImageLaid(x);
    HeaderRecordAt(Image(x), c, ds, names, 0);
    NameTableHasNull(Body(x));
    NullFirst(x);
    NullRecordZero(c, ds, names);
  }

  lemma NullFirst(x: Input)
    requires Buildable(x)
    ensures Descs(x)[0] == NullDesc
  {
    IndexFormulas(x);
  }

  lemma NullRecordZero(c: Class, ds: seq<SecDesc>, names: map<Name, nat>)
    requires |ds| > 0 && ds[0] == NullDesc && [] in names && names[[]] == 0
    ensures var r := HeaderRecord(c, ds, names, 0); forall j | 0 <= j < |r| :: FromLE(r[j]) == 0
  {
    Pow256Values();
    LEFits(Word(c), 0);
    LEFits(4, 0);
  }

  /** No section of a relocatable file has an address. */
  lemma AddressesZero(x: Input, k: nat)
    requires Buildable(x) && k < |Descs(x)|
    ensures var c := x.class_;
            var f := ReadRecord(ShdrShape(c), Image(x), Slot(Shoff(c, Descs(x)), k, if c.Elf64? then 64 else 40));
            f.Some? && FromLE(f.value[3]) == 0
  {
    ImageLaid(x);
    HeaderRecordAt(Image(x), x.class_, Descs(x), Shstrtab(x).offsets, k);
  }

  // --------------------------------------------------------------------- compactness

  /** Nothing but alignment separates one section's bytes from the next, and the first from
      the file header. */
  lemma ContentsPacked(c: Class, ds: seq<SecDesc>, k: nat)
    requires 1 <= k < |ds|
    ensures var d := ds[k - 1];
            var end := if k == 1 then (if c.Elf64? then 64 else 52)
                       else FileOff(c, ds, k - 1) + if d.shType == 8 then 0 else |d.data|;
            end <= FileOff(c, ds, k) < end + if ds[k].align > 0 then ds[k].align else 1
  {
    AlignUpBounds(Pos(c, ds, k), ds[k].align);
  }
}
