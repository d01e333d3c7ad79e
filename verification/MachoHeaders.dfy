/** The headers and load commands of a Mach-O file, decoded by the numbers of loader.h and
    compared with the input. */
module MachoHeaders {
  import opened Bytes
  import opened Bits
  import opened Names
  import opened Objects
  import opened MachoFormat
  import opened MachoSpec
  import opened MachoTables
  import opened MachoRoundTrip
  import opened MachoTheorems
  import opened MachoReader
  import opened MachoTargets

  /** Sections that take no file bytes. */
  predicate Unstored(s: Section) { s.kind == BSS || (s.kind == TLS && s.code == []) }

  /** The alignment that was asked for, or the default of the kind. */
  function WantedAlign(s: Section): nat {
    if s.align > 0 then s.align
    else match s.kind case Text => 16 case Unwind => 4 case Custom => 1 case _ => 8
  }

  /** A custom section is named segment,section; the first comma counts. */
  predicate IsNamed(seg: Name, n: Name, s: Section) {
    match s.kind
    case Text => seg == Ascii("__TEXT") && n == Ascii("__text")
    case Data => seg == Ascii("__DATA") && n == Ascii("__data")
    case ROData => seg == Ascii("__TEXT") && n == Ascii("__const")
    case BSS => seg == Ascii("__DATA") && n == Ascii("__bss")
    case Unwind => seg == Ascii("__TEXT") && n == Ascii("__unwind_info")
    case InitArray => seg == Ascii("__DATA") && n == Ascii("__mod_init_func")
    case FiniArray => seg == Ascii("__DATA") && n == Ascii("__mod_term_func")
    case TLS => seg == Ascii("__DATA") && n == if s.code == [] then Ascii("__thread_bss") else Ascii("__thread_data")
    case Custom => s.custom == seg + [44] + n && 44 !in seg
  }

  /** The header of section s: S_ZEROFILL without file bytes, the two instruction attributes
      for code, S_REGULAR otherwise. */
  predicate IsSection(v: SectionView, s: Section) {
    && IsNamed(v.segment, v.name, s)
    && v.flags == (if s.kind == Text then 0x8000_0400 else if Unstored(s) then 1 else 0)
    && v.size == (if Unstored(s) && s.vsize > 0 then s.vsize else |s.code|)
    && |v.data| == (if Unstored(s) then 0 else |s.code|)
    && (s.relocs == [] && !Unstored(s) ==> v.data == s.code)
    && (IsPow2(WantedAlign(s)) ==> Pow2(v.log2Align) == WantedAlign(s))
  }

  lemma {:induction false} CommaFirst(n: Name)
    requires Comma(n).Some?
    ensures 44 !in n[..Comma(n).value]
  {
    if n[0] != 44 {
      CommaFirst(n[1..]);
      var k := Comma(n).value;
      assert n[..k] == [n[0]] + n[1..][..k - 1];
    }
  }

  lemma NameDecoded(s: Section)
    requires Named(s)
    ensures IsNamed(SegName(s), SectName(s), s)
  {
    if s.kind == Custom {
      CommaFirst(s.custom);
      var k := Comma(s.custom).value;
      assert s.custom == s.custom[..k] + [s.custom[k]] + s.custom[k + 1..];
    }
  }

  lemma SectionDecoded(x: Input, t: Tables, s: Section)
    requires Named(s) && AllResolvable(x.cpu, t.rows, t.index, s.relocs)
    ensures IsSection(SectionViewOf(x, t, s), s)
  {
    NameDecoded(s);
    AlignmentRecovered(x, t, s);
  }

  // ------------------------------------------------------------------ the segment

  /** The sum of the sections' sizes in memory, and of their bytes in the file. */
  function MemorySize(vs: seq<SectionView>): nat {
    if vs == [] then 0 else MemorySize(vs[..|vs| - 1]) + vs[|vs| - 1].size
  }

  function StoredSize(vs: seq<SectionView>): nat {
    if vs == [] then 0 else StoredSize(vs[..|vs| - 1]) + |vs[|vs| - 1].data|
  }

  lemma {:induction false} SizesAre(secs: seq<Section>, vs: seq<SectionView>, n: nat)
    requires n <= |secs| == |vs|
    requires forall i | 0 <= i < n :: vs[i].size == Size(secs[i]) && |vs[i].data| == RawSize(secs[i])
    ensures VmSize(secs, n) == MemorySize(vs[..n]) && FileSize(secs, n) == StoredSize(vs[..n])
  {
    if n > 0 {
      SizesAre(secs, vs, n - 1);
      assert vs[..n][..n - 1] == vs[..n - 1];
    }
  }

  lemma ViewSizes(x: Input, t: Tables)
    requires AllNamed(x.secs) && forall i | 0 <= i < |x.secs| :: AllResolvable(x.cpu, t.rows, t.index, x.secs[i].relocs)
    ensures var vs := SectionViewsOf(x, t);
            VmSize(x.secs, |x.secs|) == MemorySize(vs) && FileSize(x.secs, |x.secs|) == StoredSize(vs)
  {
    var vs := SectionViewsOf(x, t);
    SizesAre(x.secs, vs, |x.secs|);
    assert vs[..|x.secs|] == vs;
  }

  /** Section i of every file, with names, flags, size, bytes and alignment. */
  lemma SectionsRecovered(x: Input, i: nat)
    requires Buildable(x) && InBounds(x) && i < |x.secs|
    ensures i < |ObjectOfFile(x).sections| == |x.secs| && IsSection(ObjectOfFile(x).sections[i], x.secs[i])
  {
    ObjectIs(x);
    SectionDecoded(x, TablesOf(x.secs), x.secs[i]);
  }

  /** The CPU, the build version, and the segment's sizes, which are those of its sections. */
  lemma SegmentRecovered(x: Input)
    requires Buildable(x) && InBounds(x)
    ensures var o := ObjectOfFile(x);
            && o.cpu == x.cpu && o.vmSize == MemorySize(o.sections) && o.fileSize == StoredSize(o.sections)
            && o.build == match x.build
                          case Some(v) => Some((v.platform, v.minOS, v.sdk))
                          case None => None
  {
    ObjectIs(x);
    ViewSizes(x, TablesOf(x.secs));
  }

  // --------------------------------------------------------------- unused fields

  /** The fields of the header, the segment and a section header that are the same for all
      objects: no subtype, but subsections; an unnamed segment at address 0, open to
      everything, whose contents start behind the load commands; no section addresses. */
  predicate FieldsFixed(hdr: Record, seg: Record, sec: Record)
    requires |hdr| == 8 && |seg| == 11 && |sec| == 12
  {
    && FromLE(hdr[2]) == 0 && FromLE(hdr[6]) == 0x2000 && FromLE(hdr[7]) == 0
    && seg[2] == Zeros(16) && FromLE(seg[3]) == 0 && FromLE(seg[5]) == 32 + FromLE(hdr[5])
    && FromLE(seg[7]) == 7 && FromLE(seg[8]) == 7 && FromLE(seg[10]) == 0
    && FromLE(sec[2]) == 0 && FromLE(sec[9]) == 0 && FromLE(sec[10]) == 0 && FromLE(sec[11]) == 0
  }

  lemma HeaderFixed(cpu: u32, nCmds: nat, cmdsLen: nat)
    requires cmdsLen < 0x1_0000_0000
    ensures var hdr := HeaderOf(cpu, nCmds, cmdsLen);
            FromLE(hdr[2]) == 0 && FromLE(hdr[5]) == cmdsLen && FromLE(hdr[6]) == 0x2000 && FromLE(hdr[7]) == 0
  {
    Pow256Values();
    LEFits(4, 0);
    LEFits(4, cmdsLen);
    LEFits(4, MH_SUBSECTIONS_VIA_SYMBOLS);
  }

  lemma SegmentFixed(x: Input)
    requires DataStart(x) < 0x1_0000_0000
    ensures var seg := SegmentCommand(x);
            && seg[2] == Zeros(16) && FromLE(seg[3]) == 0 && FromLE(seg[5]) == 32 + CmdsLen(x)
            && FromLE(seg[7]) == 7 && FromLE(seg[8]) == 7 && FromLE(seg[10]) == 0
  {
    Pow256Values();
    LEFits(8, 0);
    LEFits(8, DataStart(x));
    LEFits(4, VM_PROT_ALL);
    LEFits(4, 0);
  }

  lemma SectionFixed(x: Input, k: nat)
    requires k < |x.secs| && Named(x.secs[k])
    ensures var sec := SectionRecord(x, k);
            FromLE(sec[2]) == 0 && FromLE(sec[9]) == 0 && FromLE(sec[10]) == 0 && FromLE(sec[11]) == 0
  {
    Pow256Values();
    LEFits(8, 0);
    LEFits(4, 0);
  }

  /** Nowhere to look for bytes or relocations that there are not. */
  predicate Unplaced(sec: Record, s: Section)
    requires |sec| == 12
  {
    && (Unstored(s) ==> FromLE(sec[4]) == 0)
    && (Unstored(s) || s.relocs == [] ==> FromLE(sec[6]) == 0 && FromLE(sec[7]) == 0)
  }

  lemma SectionUnplaced(x: Input, k: nat)
    requires k < |x.secs| && Named(x.secs[k])
    ensures Unplaced(SectionRecord(x, k), x.secs[k])
  {
    Pow256Values();
    LEFits(4, 0);
  }

  lemma RecordsIn(b: seq<byte>, x: Input, t: Tables, k: nat)
    requires Writable(x, t) && Laid(b, x, t) && k < |x.secs|
    ensures ReadRecord(HDR, b, 0) == Some(FileHeader(x)) && ReadRecord(SEG_CMD, b, 32) == Some(SegmentCommand(x))
    ensures ReadRecord(SECTION, b, Slot(104, k, 80)) == Some(SectionRecord(x, k))
  {
    ReadJoined(HDR, b, 0, FileHeader(x));
    ReadJoined(SEG_CMD, b, HDR_SIZE, SegmentCommand(x));
    RecordIn(b, x, t, k);
  }

  lemma FieldsRecovered(x: Input, k: nat)
    requires Buildable(x) && InBounds(x) && k < |x.secs|
    ensures Writable(x, TablesOf(x.secs))
    ensures var b := FileOf(x, TablesOf(x.secs));
            var hdr, seg := ReadRecord(HDR, b, 0), ReadRecord(SEG_CMD, b, 32);
            var sec := ReadRecord(SECTION, b, Slot(104, k, 80));
            && hdr.Some? && seg.Some? && sec.Some? && FieldsFixed(hdr.value, seg.value, sec.value)
            && Unplaced(sec.value, x.secs[k])
  {
    TablesWritable(x);
    FileLaid(x, TablesOf(x.secs));
    RecordsIn(FileOf(x, TablesOf(x.secs)), x, TablesOf(x.secs), k);
    HeaderFixed(x.cpu, if x.build.Some? then 3 else 2, CmdsLen(x));
    SegmentFixed(x);
    SectionFixed(x, k);
    SectionUnplaced(x, k);
  }
}
