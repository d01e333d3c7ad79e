/** The small input as a Mach-O file: it is within all bounds. */
module MachoSample {
  import opened Bytes
  import opened Objects
  import opened StringTable
  import opened MachoFormat
  import opened MachoSpec
  import opened MachoTables
  import opened MachoRoundTrip
  import opened MachoTheorems
  import Layout
  import Sample

  function SampleInput(c: Sample.Case): Input { Input(CPU_X86_64, None, Sample.Sections(c)) }

  /** The machine has the relocation. */
  predicate Known(c: Sample.Case) { Describe(CPU_X86_64, c.kind).Some? }

  lemma Written(c: Sample.Case)
    requires Known(c)
    ensures Buildable(SampleInput(c))
  {
    Sample.References(c);
    SucceedsIff(SampleInput(c));
  }

  lemma RowCount(c: Sample.Case)
    ensures |Rows(Sample.Sections(c))| == 5
  {
    var secs, ds := Sample.Sections(c), AllDefs(Sample.Sections(c));
    Sample.Definitions(c);
    Sample.NoExternals(c, false);
    assert |HeadRows(1)| == 2;
    assert ds[..1] == [Def(0, Sample.GlobalF)];
    assert LocalRows(ds[..1]) == [] && |LocalRows(ds)| == 1;
    assert |ExportedRows(secs, ds[..1])| == 1 && |ExportedRows(secs, ds)| == 1;
  }

  lemma StringBytes(c: Sample.Case)
    ensures |Strtab(Sample.Sections(c)).data| <= 100
  {
    var secs := Sample.Sections(c);
    RowCount(c);
    forall i | 0 <= i < 5 ensures |RowStrings(Rows(secs))[i]| <= 2 {
      if i > 2 {
        RowOrigin(secs, i);
        Sample.Definitions(c);
        Sample.NoExternals(c, false);
      } else {
        HeadRowsAre(2, i);
      }
    }
    InternAllBound(Sentinel, RowStrings(Rows(secs)), 2);
  }

  lemma Placed(c: Sample.Case)
    ensures SymOff(SampleInput(c)) == DataStart(SampleInput(c)) + |c.code| + 8
  {
    var secs, start := Sample.Sections(c), DataStart(SampleInput(c));
    var es := Extents(secs);
    assert Layout.Pos(start, es, 0) == start;
    assert Layout.Pos(start, es, 1) == start + |c.code| + 8;
    assert Layout.Pos(start, es, 2) == start + |c.code| + 8;
  }

  lemma FileSize(c: Sample.Case)
    requires Known(c)
    ensures Buildable(SampleInput(c)) && Writable(SampleInput(c), TablesOf(SampleInput(c).secs))
    ensures |FileOf(SampleInput(c), TablesOf(SampleInput(c).secs))|
            <= DataStart(SampleInput(c)) + |c.code| + 188
  {
    var x := SampleInput(c);
    Written(c);
    TablesWritable(x);
    RowCount(c);
    StringBytes(c);
    Placed(c);
    FileLaid(x, TablesOf(x.secs));
  }

  lemma SectionsFit(c: Sample.Case)
    requires |c.code| <= 0x1000
    ensures forall i | 0 <= i < 2 :: SectionFits(Sample.Sections(c)[i])
  {
    var secs := Sample.Sections(c);
    assert SectionFits(secs[0]) && SectionFits(secs[1]);
  }

  lemma MemorySize(c: Sample.Case)
    ensures VmSize(Sample.Sections(c), 2) == |c.code|
  {
    assert VmSize(Sample.Sections(c), 1) == |c.code|;
  }

  lemma Within(x: Input, n: nat)
    requires Buildable(x) && |x.secs| == 2 && x.build == None && n <= 0x1000
    requires |FileOfBuilt(x)| <= DataStart(x) + n + 188 && |Rows(x.secs)| == 5 && VmSize(x.secs, 2) == n
    requires forall i | 0 <= i < 2 :: SectionFits(x.secs[i])
    ensures InBounds(x)
  {
    TablesWritable(x);
  }

  ghost function FileOfBuilt(x: Input): seq<byte>
    requires Buildable(x)
  {
    TablesWritable(x);
    FileOf(x, TablesOf(x.secs))
  }

  /** The bounds of the round trip are met. */
  lemma Fits(c: Sample.Case)
    requires |c.code| <= 0x1000 && Known(c)
    ensures Buildable(SampleInput(c)) && InBounds(SampleInput(c))
  {
    FileSize(c);
    RowCount(c);
    SectionsFit(c);
    MemorySize(c);
    Within(SampleInput(c), |c.code|);
  }
}
