/** The main results about Mach-O files: the load-command walk, the full round trip, and
    what a relocation's target means. */
module MachoTheorems {
  import opened Bytes
  import opened Bits
  import opened Names
  import opened Objects
  import opened StringTable
  import opened Patch
  import opened MachoFormat
  import opened MachoSpec
  import opened MachoTables
  import opened MachoRoundTrip
  import R = MachoReader

  // ------------------------------------------------------------- load commands

  lemma JoinCons(a: seq<byte>, rest: Record)
    ensures Join([a] + rest) == a + Join(rest)
  {
    assert ([a] + rest)[1..] == rest;
  }

  lemma JoinHead(a: seq<byte>, c: seq<byte>, rest: Record)
    ensures Join([a] + ([c] + rest)) == Join([a, c]) + Join(rest)
  {
    JoinCons(a, [c] + rest);
    JoinCons(c, rest);
    JoinCons(c, []);
    JoinCons(a, [c] + []);
    assert [a] + ([c] + []) == [a, c];
    assert a + (c + Join(rest)) == (a + (c + [])) + Join(rest);
  }

  lemma CommandReads(b: seq<byte>, off: nat, rec: Record, cmd: nat, size: nat)
    requires At(b, off, Join(rec)) && |rec| >= 2 && rec[0] == LE(4, cmd) && rec[1] == LE(4, size)
    requires cmd < 0x1_0000_0000 && size < 0x1_0000_0000
    ensures CommandAt(b, off, cmd, size)
  {
    JoinHead(rec[0], rec[1], rec[2..]);
    assert rec == [rec[0]] + ([rec[1]] + rec[2..]);
    AtSplit(b, off, Join([rec[0], rec[1]]), Join(rec[2..]));
    ReadJoined(CMD, b, off, [rec[0], rec[1]]);
    Pow256Values();
    LEFits(4, cmd);
    LEFits(4, size);
  }

  /** The command at off announces cmd and size. */
  predicate CommandAt(b: seq<byte>, off: nat, cmd: nat, size: nat) {
    ReadRecord(CMD, b, off).Some?
    && var f := ReadRecord(CMD, b, off).value; FromLE(f[0]) == cmd && FromLE(f[1]) == size
  }

  function SegmentEntry(x: Input): R.Command { R.Command(LC_SEGMENT_64, HDR_SIZE, SegCmdLen(|x.secs|)) }

  function BuildEntry(x: Input): R.Command { R.Command(LC_BUILD_VERSION, BuildOff(x), BUILD_CMD_SIZE) }

  function SymtabEntry(x: Input): R.Command { R.Command(LC_SYMTAB, SymtabOff(x), SYMTAB_CMD_SIZE) }

  function CommandsFor(x: Input): seq<R.Command> {
    if x.build.Some? then [SegmentEntry(x), BuildEntry(x), SymtabEntry(x)] else [SegmentEntry(x), SymtabEntry(x)]
  }

  lemma CommandsStep(b: seq<byte>, off: nat, n: nat, cmd: nat, size: nat, rest: seq<R.Command>)
    requires n > 0 && CommandAt(b, off, cmd, size) && R.Commands(b, off + size, n - 1) == Some(rest)
    ensures R.Commands(b, off, n) == Some([R.Command(cmd, off, size)] + rest)
  {
  }

  /** Walking the commands meets the segment, the build version if there is one, and the
      symbol table, and ends where the header says. */
  lemma CommandsWalk(b: seq<byte>, x: Input)
    requires CommandAt(b, HDR_SIZE, LC_SEGMENT_64, SegCmdLen(|x.secs|))
    requires x.build.Some? ==> CommandAt(b, BuildOff(x), LC_BUILD_VERSION, BUILD_CMD_SIZE)
    requires CommandAt(b, SymtabOff(x), LC_SYMTAB, SYMTAB_CMD_SIZE)
    ensures R.Commands(b, HDR_SIZE, if x.build.Some? then 3 else 2) == Some(CommandsFor(x))
    ensures R.Fills(CommandsFor(x), HDR_SIZE, CmdsLen(x))
  {
    assert R.Commands(b, SymtabOff(x) + SYMTAB_CMD_SIZE, 0) == Some([]);
    CommandsStep(b, SymtabOff(x), 1, LC_SYMTAB, SYMTAB_CMD_SIZE, []);
    assert [SymtabEntry(x)] + [] == [SymtabEntry(x)];
    if x.build.Some? {
      CommandsStep(b, BuildOff(x), 2, LC_BUILD_VERSION, BUILD_CMD_SIZE, [SymtabEntry(x)]);
      assert [BuildEntry(x)] + [SymtabEntry(x)] == [BuildEntry(x), SymtabEntry(x)];
      CommandsStep(b, HDR_SIZE, 3, LC_SEGMENT_64, SegCmdLen(|x.secs|), [BuildEntry(x), SymtabEntry(x)]);
      assert [SegmentEntry(x)] + [BuildEntry(x), SymtabEntry(x)] == CommandsFor(x);
    } else {
      CommandsStep(b, HDR_SIZE, 2, LC_SEGMENT_64, SegCmdLen(|x.secs|), [SymtabEntry(x)]);
      assert [SegmentEntry(x)] + [SymtabEntry(x)] == CommandsFor(x);
    }
  }

  lemma CommandsFound(x: Input)
    ensures R.Find(CommandsFor(x), LC_SEGMENT_64) == Some(SegmentEntry(x))
    ensures R.Find(CommandsFor(x), LC_SYMTAB) == Some(SymtabEntry(x))
    ensures R.Find(CommandsFor(x), LC_BUILD_VERSION) == if x.build.Some? then Some(BuildEntry(x)) else None
  {
    var tail: seq<R.Command> := [SymtabEntry(x)];
    forall cmd: nat ensures R.Find(tail, cmd) == if cmd == LC_SYMTAB then Some(SymtabEntry(x)) else None {
      FindCons(SymtabEntry(x), [], cmd);
    }
    if x.build.Some? {
      assert CommandsFor(x) == [SegmentEntry(x)] + ([BuildEntry(x)] + tail);
      forall cmd: nat ensures R.Find(CommandsFor(x), cmd) ==
          if cmd == LC_SEGMENT_64 then Some(SegmentEntry(x)) else if cmd == LC_BUILD_VERSION then Some(BuildEntry(x))
          else R.Find(tail, cmd)
      {
        FindCons(SegmentEntry(x), [BuildEntry(x)] + tail, cmd);
        FindCons(BuildEntry(x), tail, cmd);
      }
    } else {
      assert CommandsFor(x) == [SegmentEntry(x)] + tail;
      forall cmd: nat ensures R.Find(CommandsFor(x), cmd) ==
          if cmd == LC_SEGMENT_64 then Some(SegmentEntry(x)) else R.Find(tail, cmd)
      {
        FindCons(SegmentEntry(x), tail, cmd);
      }
    }
  }

  lemma FindCons(c: R.Command, rest: seq<R.Command>, cmd: nat)
    ensures R.Find([c] + rest, cmd) == if c.cmd == cmd then Some(c) else R.Find(rest, cmd)
  {
    assert ([c] + rest)[1..] == rest;
  }

  // --------------------------------------------------------------- head records

  /** Sizes and offsets fit their 32-bit fields, segment sizes their 64-bit ones. */
  predicate HeadFits(x: Input, nRows: nat, strSize: nat) {
    && |x.secs| < 0x100 && SymOff(x) < 0x1_0000_0000 && StrOff(x, nRows) < 0x1_0000_0000
    && nRows < 0x1_0000_0000 && strSize < 0x1_0000_0000
    && VmSize(x.secs, |x.secs|) < 0x1_0000_0000_0000_0000 && FileSize(x.secs, |x.secs|) < 0x1_0000_0000_0000_0000
  }

  lemma HeaderOfReads(b: seq<byte>, cpu: u32, nCmds: nat, cmdsLen: nat)
    requires At(b, 0, Join(HeaderOf(cpu, nCmds, cmdsLen))) && nCmds < 0x1_0000_0000 && cmdsLen < 0x1_0000_0000
    ensures ReadRecord(HDR, b, 0).Some?
    ensures var f := ReadRecord(HDR, b, 0).value;
            && FromLE(f[0]) == MH_MAGIC_64 && FromLE(f[1]) == cpu && FromLE(f[3]) == MH_OBJECT
            && FromLE(f[4]) == nCmds && FromLE(f[5]) == cmdsLen
  {
    ReadJoined(HDR, b, 0, HeaderOf(cpu, nCmds, cmdsLen));
    Pow256Values();
    LEFits(4, MH_MAGIC_64);
    LEFits(4, cpu);
    LEFits(4, MH_OBJECT);
    LEFits(4, nCmds);
    LEFits(4, cmdsLen);
  }

  lemma HeaderReads(b: seq<byte>, x: Input)
    requires At(b, 0, Join(FileHeader(x))) && |x.secs| < 0x100
    ensures ReadRecord(HDR, b, 0).Some?
    ensures var f := ReadRecord(HDR, b, 0).value;
            && FromLE(f[0]) == MH_MAGIC_64 && FromLE(f[1]) == x.cpu && FromLE(f[3]) == MH_OBJECT
            && FromLE(f[4]) == (if x.build.Some? then 3 else 2) && FromLE(f[5]) == CmdsLen(x)
  {
    assert CmdsLen(x) < 0x1_0000_0000;
    HeaderOfReads(b, x.cpu, if x.build.Some? then 3 else 2, CmdsLen(x));
  }

  lemma SegmentReads(b: seq<byte>, x: Input)
    requires At(b, HDR_SIZE, Join(SegmentCommand(x))) && |x.secs| < 0x100
    requires VmSize(x.secs, |x.secs|) < 0x1_0000_0000_0000_0000
    requires FileSize(x.secs, |x.secs|) < 0x1_0000_0000_0000_0000
    ensures CommandAt(b, HDR_SIZE, LC_SEGMENT_64, SegCmdLen(|x.secs|))
    ensures ReadRecord(SEG_CMD, b, HDR_SIZE).Some?
    ensures var f := ReadRecord(SEG_CMD, b, HDR_SIZE).value;
            FromLE(f[4]) == VmSize(x.secs, |x.secs|) && FromLE(f[6]) == FileSize(x.secs, |x.secs|)
            && FromLE(f[9]) == |x.secs|
  {
    CommandReads(b, HDR_SIZE, SegmentCommand(x), LC_SEGMENT_64, SegCmdLen(|x.secs|));
    ReadJoined(SEG_CMD, b, HDR_SIZE, SegmentCommand(x));
    Pow256Values();
    LEFits(8, VmSize(x.secs, |x.secs|));
    LEFits(8, FileSize(x.secs, |x.secs|));
    LEFits(4, |x.secs|);
  }

  lemma BuildReads(b: seq<byte>, x: Input)
    requires x.build.Some? && At(b, BuildOff(x), BuildBytes(x.build))
    ensures CommandAt(b, BuildOff(x), LC_BUILD_VERSION, BUILD_CMD_SIZE)
    ensures R.ReadBuild(b, BuildEntry(x))
            == Some((x.build.value.platform, x.build.value.minOS, x.build.value.sdk))
  {
    var v := x.build.value;
    CommandReads(b, BuildOff(x), BuildCommand(v), LC_BUILD_VERSION, BUILD_CMD_SIZE);
    ReadJoined(SIX_WORDS, b, BuildOff(x), BuildCommand(v));
    Pow256Values();
    LEFits(4, v.platform);
    LEFits(4, v.minOS);
    LEFits(4, v.sdk);
  }

  lemma SymtabCommandReads(b: seq<byte>, x: Input, nRows: nat, strings: seq<byte>)
    requires At(b, SymtabOff(x), Join(SymtabCommand(x, nRows, |strings|))) && HeadFits(x, nRows, |strings|)
    requires At(b, StrOff(x, nRows), strings)
    ensures CommandAt(b, SymtabOff(x), LC_SYMTAB, SYMTAB_CMD_SIZE)
    ensures R.ReadSymtab(b, SymtabEntry(x))
            == Some(R.Symtab(SymOff(x), nRows, strings))
  {
    var rec := SymtabCommand(x, nRows, |strings|);
    CommandReads(b, SymtabOff(x), rec, LC_SYMTAB, SYMTAB_CMD_SIZE);
    ReadJoined(SIX_WORDS, b, SymtabOff(x), rec);
    Pow256Values();
    LEFits(4, SymOff(x));
    LEFits(4, nRows);
    LEFits(4, StrOff(x, nRows));
    LEFits(4, |strings|);
  }

  // --------------------------------------------------------------- the round trip

  function SymtabView(x: Input, t: Tables): R.Symtab { R.Symtab(SymOff(x), |t.rows|, t.strtab.data) }

  /** Everything the reader's second half needs. */
  ghost predicate BodySeen(b: seq<byte>, x: Input, t: Tables) {
    && RowsSeen(b, SymtabView(x, t), t.rows, t.strtab) && |t.rows| <= 0x100_0000
    && AllNamed(x.secs)
    && forall k: nat | k < |x.secs| :: SectionSeen(b, x, t, k)
  }

  ghost predicate SectionSeen(b: seq<byte>, x: Input, t: Tables, k: nat)
    requires k < |x.secs| && Named(x.secs[k])
  {
    && ChunkSeen(b, x, t, k) && HeaderFits(x, k)
    && ReadRecord(SECTION, b, Slot(HDR_SIZE + SEG_CMD_SIZE, k, SECTION_SIZE)) == Some(SectionRecord(x, k))
  }

  lemma SectionReadsAt(b: seq<byte>, x: Input, t: Tables, k: nat)
    requires BodySeen(b, x, t) && k < |x.secs|
    ensures AllResolvable(x.cpu, t.rows, t.index, x.secs[k].relocs)
    ensures R.ReadSection(b, SymtabView(x, t), HDR_SIZE + SEG_CMD_SIZE, k) == Some(SectionViewOf(x, t, x.secs[k]))
  {
    assert SectionSeen(b, x, t, k);
    SectionReads(b, SymtabView(x, t), x, t, HDR_SIZE + SEG_CMD_SIZE, k);
  }

  lemma BodySections(b: seq<byte>, x: Input, t: Tables)
    requires BodySeen(b, x, t)
    ensures forall i | 0 <= i < |x.secs| :: AllResolvable(x.cpu, t.rows, t.index, x.secs[i].relocs)
  {
    forall i: nat | i < |x.secs| ensures AllResolvable(x.cpu, t.rows, t.index, x.secs[i].relocs) {
      assert SectionSeen(b, x, t, i);
    }
  }

  lemma AllSectionsRead(b: seq<byte>, x: Input, t: Tables)
    requires BodySeen(b, x, t)
    requires forall i | 0 <= i < |x.secs| :: AllResolvable(x.cpu, t.rows, t.index, x.secs[i].relocs)
    ensures R.ReadSections(b, SymtabView(x, t), HDR_SIZE + SEG_CMD_SIZE, |x.secs|) == Some(SectionViewsOf(x, t))
  {
    var vs := SectionViewsOf(x, t);
    forall k: nat | k < |vs| ensures R.ReadSection(b, SymtabView(x, t), HDR_SIZE + SEG_CMD_SIZE, k) == Some(vs[k]) {
      SectionReadsAt(b, x, t, k);
    }
    SectionsRead(b, SymtabView(x, t), HDR_SIZE + SEG_CMD_SIZE, vs);
  }

  lemma BodyReads(b: seq<byte>, x: Input, t: Tables)
    requires BodySeen(b, x, t)
    ensures forall i | 0 <= i < |x.secs| :: AllResolvable(x.cpu, t.rows, t.index, x.secs[i].relocs)
    ensures R.ReadSymbols(b, SymtabView(x, t)) == Some(SymbolViewsOf(t.rows))
    ensures R.ReadSections(b, SymtabView(x, t), HDR_SIZE + SEG_CMD_SIZE, |x.secs|) == Some(SectionViewsOf(x, t))
  {
    SymbolsRead(b, SymtabView(x, t), t.rows, t.strtab);
    BodySections(b, x, t);
    AllSectionsRead(b, x, t);
  }

  function BuildView(build: Option<BuildVersion>): Option<(nat, nat, nat)> {
    if build.Some? then Some((build.value.platform, build.value.minOS, build.value.sdk)) else None
  }

  /** What a reader must recover from the file made from x. */
  ghost function Expected(x: Input, t: Tables): R.ObjectView
    requires AllNamed(x.secs) && forall i | 0 <= i < |x.secs| :: AllResolvable(x.cpu, t.rows, t.index, x.secs[i].relocs)
  {
    R.ObjectView(x.cpu, VmSize(x.secs, |x.secs|), FileSize(x.secs, |x.secs|), SectionViewsOf(x, t),
        SymbolViewsOf(t.rows),
                 BuildView(x.build))
  }

  lemma ContentsRead(b: seq<byte>, x: Input, t: Tables)
    requires BodySeen(b, x, t)
    requires ReadRecord(SEG_CMD, b, HDR_SIZE).Some?
    requires var f := ReadRecord(SEG_CMD, b, HDR_SIZE).value;
             FromLE(f[4]) == VmSize(x.secs, |x.secs|) && FromLE(f[6]) == FileSize(x.secs, |x.secs|)
             && FromLE(f[9]) == |x.secs|
    requires R.ReadSymtab(b, SymtabEntry(x)) == Some(SymtabView(x, t))
    requires x.build.Some? ==>
               R.ReadBuild(b, BuildEntry(x)) == BuildView(x.build)
    ensures forall i | 0 <= i < |x.secs| :: AllResolvable(x.cpu, t.rows, t.index, x.secs[i].relocs)
    ensures R.ReadContents(b, x.cpu, CommandsFor(x)) == Some(Expected(x, t))
  {
    CommandsFound(x);
    BodyReads(b, x, t);
  }

  lemma ObjectReads(b: seq<byte>, x: Input, t: Tables)
    requires Writable(x, t) && HeadLaid(b, x, t) && At(b, StrOff(x, |t.rows|), t.strtab.data)
    requires HeadFits(x, |t.rows|, |t.strtab.data|) && BodySeen(b, x, t)
    ensures R.ReadObject(b) == Some(Expected(x, t))
  {
    HeaderReads(b, x);
    SegmentReads(b, x);
    if x.build.Some? { BuildReads(b, x); }
    SymtabCommandReads(b, x, |t.rows|, t.strtab.data);
    CommandsWalk(b, x);
    ContentsRead(b, x, t);
  }

  /** Names fit their fields and have no NUL; sizes fit their fields. */
  predicate SectionFits(s: Section) {
    && Named(s) && NameFits(SegName(s)) && NameFits(SectName(s))
    && Size(s) < 0x1_0000_0000_0000_0000 && |s.relocs| < 0x1_0000_0000
    && (forall j | 0 <= j < |s.symbols| :: NulFree(s.symbols[j].name))
    && (forall j | 0 <= j < |s.relocs| :: NulFree(s.relocs[j].symbol))
  }

  ghost predicate InBounds(x: Input)
    requires Buildable(x)
  {
    TablesWritable(x);
    && |x.secs| < 0x100 && |Rows(x.secs)| <= 0x100_0000
    && (forall i | 0 <= i < |x.secs| :: SectionFits(x.secs[i]))
    && |FileOf(x, TablesOf(x.secs))| < 0x1_0000_0000
    && VmSize(x.secs, |x.secs|) < 0x1_0000_0000_0000_0000
  }

  // ------------------------------------------------------------------- row facts

  lemma DefFits(secs: seq<Section>, d: Def)
    requires |secs| < 0x100 && (forall i | 0 <= i < |secs| :: SectionFits(secs[i])) && d in AllDefs(secs)
    ensures d.sec < |secs| && RowFits(LocalRow(d)) && RowFits(ExportedRow(secs, d))
  {
    DefsMember(secs, |secs|, 0, d);
    assert SectionFits(secs[d.sec]);
  }

  lemma ExternalFits(secs: seq<Section>, n: Name)
    requires (forall i | 0 <= i < |secs| :: SectionFits(secs[i])) && External(secs, n)
    ensures RowFits(ExternalRow(n))
  {
    var u :| u in AllUses(secs) && u.rel.symbol == n;
    UsesMember(secs, |secs|, 0, u);
    assert SectionFits(secs[u.sec]);
  }

  lemma RowsFit(secs: seq<Section>)
    requires |secs| < 0x100 && forall i | 0 <= i < |secs| :: SectionFits(secs[i])
    ensures forall k | 0 <= k < |Rows(secs)| :: RowFits(Rows(secs)[k])
  {
    forall k | 0 <= k < |Rows(secs)| ensures RowFits(Rows(secs)[k]) {
      if k <= |secs| {
        HeadRowsAre(|secs|, k);
      } else {
        RowFitsAt(secs, k);
      }
    }
  }

  lemma RowFitsAt(secs: seq<Section>, k: nat)
    requires |secs| < 0x100 && (forall i | 0 <= i < |secs| :: SectionFits(secs[i]))
    requires 1 + |secs| <= k < |Rows(secs)|
    ensures RowFits(Rows(secs)[k])
  {
    var r := Rows(secs)[k];
    RowOrigin(secs, k);
    if FromLocal(secs, r) {
      var d :| d in AllDefs(secs) && IsLocal(d) && r == LocalRow(d);
      DefFits(secs, d);
    } else if FromExported(secs, r) {
      var d :| d in AllDefs(secs) && IsExported(d) && r == ExportedRow(secs, d);
      DefFits(secs, d);
    } else {
      ExternalFits(secs, r.name);
    }
  }

  lemma {:induction false} FileSizeBelow(secs: seq<Section>, n: nat)
    requires n <= |secs|
    ensures FileSize(secs, n) <= VmSize(secs, n)
  {
    if n > 0 { FileSizeBelow(secs, n - 1); }
  }

  lemma ChunkIn(b: seq<byte>, x: Input, t: Tables, k: nat)
    requires k < |x.secs| && ChunkSeen(b, x, t, k) && |b| < 0x1_0000_0000
    ensures DataOff(x, k) < 0x1_0000_0000 && RelocOff(x, k) < 0x1_0000_0000
  {
    if !IsZerofill(x.secs[k]) { ChunkSize(x, t, x.secs[k]); }
  }

  lemma HeaderIn(x: Input, k: nat)
    requires k < |x.secs| && SectionFits(x.secs[k])
    requires DataOff(x, k) < 0x1_0000_0000 && RelocOff(x, k) < 0x1_0000_0000
    ensures HeaderFits(x, k)
  {
  }

  lemma RecordIn(b: seq<byte>, x: Input, t: Tables, k: nat)
    requires Writable(x, t) && Laid(b, x, t) && k < |x.secs|
    ensures ReadRecord(SECTION, b, Slot(HDR_SIZE + SEG_CMD_SIZE, k, SECTION_SIZE)) == Some(SectionRecord(x, k))
  {
    SectionWidth();
    ReadTable(SECTION, b, HDR_SIZE + SEG_CMD_SIZE, SectionRecords(x), k);
  }

  lemma SectionIn(b: seq<byte>, x: Input, t: Tables, k: nat)
    requires Writable(x, t) && Laid(b, x, t) && |b| < 0x1_0000_0000 && k < |x.secs| && SectionFits(x.secs[k])
    ensures SectionSeen(b, x, t, k)
  {
    RecordIn(b, x, t, k);
    assert ChunkSeen(b, x, t, k);
    ChunkIn(b, x, t, k);
    HeaderIn(x, k);
  }

  lemma RowsAreSeen(b: seq<byte>, x: Input, t: Tables)
    requires Writable(x, t) && Laid(b, x, t) && |b| < 0x1_0000_0000
    requires t.strtab.Sound() && forall k | 0 <= k < |t.rows| :: RowFits(t.rows[k])
    ensures RowsSeen(b, SymtabView(x, t), t.rows, t.strtab)
  {
  }

  lemma BodyIsSeen(b: seq<byte>, x: Input, t: Tables)
    requires Writable(x, t) && Laid(b, x, t) && |b| < 0x1_0000_0000 && |t.rows| <= 0x100_0000
    requires forall i | 0 <= i < |x.secs| :: SectionFits(x.secs[i])
    requires t.strtab.Sound() && forall k | 0 <= k < |t.rows| :: RowFits(t.rows[k])
    ensures BodySeen(b, x, t)
  {
    RowsAreSeen(b, x, t);
    forall k: nat | k < |x.secs| ensures SectionSeen(b, x, t, k) { SectionIn(b, x, t, k); }
  }

  lemma StrtabSound(secs: seq<Section>)
    ensures Strtab(secs).Sound()
  {
    BaseTablesWellFormed();
    InternAllWellFormed(Sentinel, RowStrings(Rows(secs)));
  }

  /** Every file that is written reads back: sections with their names, sizes, alignment,
      patched bytes and relocations, all symbols in order, and the segment's sizes. */
  lemma RoundTrip(x: Input)
    requires Buildable(x) && InBounds(x)
    ensures Writable(x, TablesOf(x.secs))
    ensures R.ReadObject(FileOf(x, TablesOf(x.secs))) == Some(Expected(x, TablesOf(x.secs)))
  {
    TablesWritable(x);
    var t, b := TablesOf(x.secs), FileOf(x, TablesOf(x.secs));
    FileLaid(x, t);
    RowsFit(x.secs);
    StrtabSound(x.secs);
    BodyIsSeen(b, x, t);
    FileSizeBelow(x.secs, |x.secs|);
    ObjectReads(b, x, t);
  }

  // ----------------------------------------------------------- what targets mean

  /** r_extern = 0 exactly if the target has a local definition and no exported one and the
      relocation is not an ARM64 page relocation; the number is then one plus the index of
      the section of the last local definition.  With r_extern = 1 the symbol is the resolved
      row, whose name is "_" and the target. */
  lemma TargetMeaning(x: Input, i: nat, j: nat)
    requires Buildable(x) && i < |x.secs| && j < |x.secs[i].relocs|
    ensures Resolvable(x.cpu, Rows(x.secs), Index(x.secs), x.secs[i].relocs[j])
    ensures
      var r, ds := x.secs[i].relocs[j], AllDefs(x.secs);
      var local, exported := Last(ds, r.symbol, LocalDef), Last(ds, r.symbol, ExportedDef);
      var page := PageReloc(x.cpu, Describe(x.cpu, r.kind).value);
      match TargetOf(x.cpu, Rows(x.secs), Index(x.secs), r)
      case ToSection(n) => local.Some? && exported.None? && !page && n == 1 + ds[local.value].sec
      case ToSymbol(sym) =>
        && sym == SymbolViewOf(Resolved(x.secs, r.symbol)) && sym.name == [UNDERSCORE] + r.symbol
        && (local.None? || exported.Some? || page)
  {
    TargetsResolvable(x);
    var r := x.secs[i].relocs[j];
    var n := r.symbol;
    assert Resolvable(x.cpu, Rows(x.secs), Index(x.secs), r);
    IndexPoints(x.secs);
    RowNamed(x.secs, Index(x.secs)[n]);
    FinallyLocal(x.secs, n);
    Resolution(x.secs, n);
  }

  // --------------------------------------------------------------- patched bytes

  /** The positions of the relocations that bake something. */
  function Baking(rs: seq<Reloc>): seq<nat> {
    if rs == [] then [] else Baking(rs[..|rs| - 1]) + if rs[|rs| - 1].addend == 0 then [] else [|rs| - 1]
  }

  lemma {:induction false} BakingPositions(rs: seq<Reloc>)
    ensures forall k | 0 <= k < |Baking(rs)| :: Baking(rs)[k] < |rs|
    ensures forall j, k | 0 <= j < k < |Baking(rs)| :: Baking(rs)[j] < Baking(rs)[k]
    ensures forall j: nat :: j in Baking(rs) <==> j < |rs| && rs[j].addend != 0
  {
    if rs != [] {
      var front := rs[..|rs| - 1];
      BakingPositions(front);
      forall j: nat ensures j in Baking(rs) <==> j < |rs| && rs[j].addend != 0 {
        if j < |front| { assert front[j] == rs[j]; }
      }
    }
  }

  lemma {:induction false} BakingWrites(cpu: u32, rs: seq<Reloc>)
    requires Supported(cpu, rs)
    ensures |AddendWrites(cpu, rs)| == |Baking(rs)|
    ensures forall k | 0 <= k < |Baking(rs)| :: Baking(rs)[k] < |rs|
    ensures forall k | 0 <= k < |Baking(rs)| :: AddendWrites(cpu, rs)[k] == AddendWrite(cpu, rs[Baking(rs)[k]])
  {
    if rs != [] {
      var front := rs[..|rs| - 1];
      BakingWrites(cpu, front);
      assert forall j | 0 <= j < |front| :: front[j] == rs[j];
    }
  }

  /** Exactly the relocations with a non-zero addend bake something, in order. */
  lemma BakingOnly(cpu: u32, rs: seq<Reloc>)
    requires Supported(cpu, rs)
    ensures forall j, k | 0 <= j < k < |Baking(rs)| :: Baking(rs)[j] < Baking(rs)[k]
    ensures forall j: nat :: j in Baking(rs) <==> j < |rs| && rs[j].addend != 0
    ensures |AddendWrites(cpu, rs)| == |Baking(rs)| && forall k | 0 <= k < |Baking(rs)| :: Baking(rs)[k] < |rs|
    ensures forall k | 0 <= k < |Baking(rs)| :: AddendWrites(cpu, rs)[k] == AddendWrite(cpu, rs[Baking(rs)[k]])
  {
    BakingPositions(rs);
    BakingWrites(cpu, rs);
  }

  /** Frame and last-writer rule for recovered bytes: each byte is the one baked by the last
      in-range relocation with a non-zero addend that covers it, else the original byte. */
  lemma RecoveredByte(x: Input, t: Tables, s: Section, p: nat)
    requires Named(s) && AllResolvable(x.cpu, t.rows, t.index, s.relocs) && Supported(x.cpu, s.relocs)
    requires !IsZerofill(s) && p < |s.code|
    ensures |SectionViewOf(x, t, s).data| == |s.code|
    ensures var ws := AddendWrites(x.cpu, s.relocs);
            SectionViewOf(x, t, s).data[p] ==
            match LastCovering(ws, |s.code|, p)
            case None => s.code[p]
            case Some(k) => ws[k].data[p - ws[k].off]
  {
    LastWriterWins(s.code, AddendWrites(x.cpu, s.relocs), p);
  }

  // ------------------------------------------------------------ exact agreement results

  /** Relocations reach the file exactly when the section has file bytes or has none. */
  lemma RelocationsKept(x: Input, t: Tables, s: Section)
    requires Named(s) && AllResolvable(x.cpu, t.rows, t.index, s.relocs)
    ensures SectionViewOf(x, t, s).relocs == RelocViewsOf(x.cpu, t.rows, t.index, s.relocs)
            <==> !IsZerofill(s) || s.relocs == []
  {
    if IsZerofill(s) && s.relocs == [] { assert RelocViewsOf(x.cpu, t.rows, t.index, s.relocs) == []; }
  }

  /** The header's log2 is the alignment itself exactly for powers of two. */
  lemma AlignmentRecovered(x: Input, t: Tables, s: Section)
    requires Named(s) && AllResolvable(x.cpu, t.rows, t.index, s.relocs)
    ensures Pow2(SectionViewOf(x, t, s).log2Align) == Align(s) <==> IsPow2(Align(s))
  {
    if IsPow2(Align(s)) {
      var k := Pow2Exponent(Align(s));
      Log2OfPow2(k);
    } else {
      PowersArePow2(Log2Of(Align(s)));
    }
  }
}
