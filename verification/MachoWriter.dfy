/** The Mach-O writer itself, phase by phase, each proved to compute its part of MachoSpec. */
module MachoWriter {
  import opened Bytes
  import opened Bits
  import opened Names
  import opened Objects
  import opened StringTable
  import opened Output
  import opened Patch
  import opened Layout
  import opened MachoFormat
  import opened MachoSpec
  import opened MachoTables

  // ------------------------------------------- phase 1: relocation descriptors

  lemma {:induction false} UnsupportedSticks(cpu: u32, a: seq<Use>, b: seq<Use>)
    requires a <= b && FirstUnsupported(cpu, a).Some?
    ensures FirstUnsupported(cpu, b) == FirstUnsupported(cpu, a)
    decreases |b|
  {
    if |a| < |b| { UnsupportedSticks(cpu, a, b[..|b| - 1]); } else { assert a == b; }
  }

  lemma UnsupportedHere(cpu: u32, secs: seq<Section>, i: nat, j: nat)
    requires i < |secs| && j < |secs[i].relocs| && FirstUnsupported(cpu, Uses(secs, i, j)).None?
    ensures Describe(cpu, secs[i].relocs[j].kind).Some? ==> FirstUnsupported(cpu, Uses(secs, i, j + 1)).None?
    ensures Describe(cpu, secs[i].relocs[j].kind).None? ==>
              FirstUnsupported(cpu, AllUses(secs)) == Some(UnsupportedReloc(i, secs[i].relocs[j].kind))
  {
    assert Uses(secs, i, j + 1)[..|Uses(secs, i, j)|] == Uses(secs, i, j);
    if Describe(cpu, secs[i].relocs[j].kind).None? {
      UsesPrefix(secs, i, j + 1);
      UnsupportedSticks(cpu, Uses(secs, i, j + 1), AllUses(secs));
    }
  }

  /** ds describe the relocations rs, one by one. */
  ghost predicate Described(cpu: u32, rs: seq<Reloc>, ds: seq<RelocDesc>) {
    |ds| == |rs| && forall j | 0 <= j < |rs| :: Describe(cpu, rs[j].kind) == Some(ds[j])
  }

  method DescribeRelocs(cpu: u32, secs: seq<Section>, i: nat) returns (r: Result<seq<RelocDesc>, Error>)
    requires i < |secs| && FirstUnsupported(cpu, Uses(secs, i, 0)).None?
    ensures r.Err? ==> FirstUnsupported(cpu, AllUses(secs)) == Some(r.error)
    ensures r.Ok? ==> Described(cpu, secs[i].relocs, r.value) && FirstUnsupported(cpu, Uses(secs, i + 1, 0)).None?
  {
    var descs: seq<RelocDesc> := [];
    for j := 0 to |secs[i].relocs|
      invariant Described(cpu, secs[i].relocs[..j], descs) && FirstUnsupported(cpu, Uses(secs, i, j)).None?
    {
      UnsupportedHere(cpu, secs, i, j);
      var d := Describe(cpu, secs[i].relocs[j].kind);
      if d.None? { return Err(UnsupportedReloc(i, secs[i].relocs[j].kind)); }
      descs := descs + [d.value];
    }
    r := Ok(descs);
  }

  ghost predicate AllDescribed(cpu: u32, secs: seq<Section>, n: nat, descs: seq<seq<RelocDesc>>)
    requires n <= |secs|
  {
    |descs| == n && forall i | 0 <= i < n :: Described(cpu, secs[i].relocs, descs[i])
  }

  /** Phase 1. */
  method BuildDescs(cpu: u32, secs: seq<Section>) returns (r: Result<seq<seq<RelocDesc>>, Error>)
    ensures r.Err? ==> FirstUnsupported(cpu, AllUses(secs)) == Some(r.error)
    ensures r.Ok? ==> FirstUnsupported(cpu, AllUses(secs)).None? && AllDescribed(cpu, secs, |secs|, r.value)
  {
    var descs: seq<seq<RelocDesc>> := [];
    for i := 0 to |secs|
      invariant AllDescribed(cpu, secs, i, descs) && FirstUnsupported(cpu, Uses(secs, i, 0)).None?
    {
      var ds := DescribeRelocs(cpu, secs, i);
      if ds.Err? { return Err(ds.error); }
      descs := descs + [ds.value];
    }
    r := Ok(descs);
  }

  // ---------------------------------------------------------- phase 2: metadata

  datatype SecMeta = SecMeta(segName: Name, sectName: Name, flags: nat, align: nat, rawSize: nat, bssSize: nat,
                             isZerofill: bool)

  ghost predicate MetaFor(m: SecMeta, s: Section) {
    && Named(s) && m.segName == SegName(s) && m.sectName == SectName(s) && m.flags == SectionFlags(s)
    && SizesFor(m, s)
  }

  /** What layout and output use of the metadata. */
  ghost predicate SizesFor(m: SecMeta, s: Section) {
    && m.align == Align(s) && m.rawSize == RawSize(s) && m.isZerofill == IsZerofill(s)
    && m.bssSize == if IsZerofill(s) then ZerofillSize(s) else 0
  }

  /** A custom name is segment, comma, section. */
  method CustomMeta(i: nat, s: Section) returns (r: Result<SecMeta, Error>)
    requires s.kind == Custom
    ensures Named(s) ==> r.Ok? && MetaFor(r.value, s)
    ensures !Named(s) ==> r == Err(NotSegmentSection(i))
  {
    var comma := Comma(s.custom);
    if comma.None? { return Err(NotSegmentSection(i)); }
    r := Ok(SecMeta(s.custom[..comma.value], s.custom[comma.value + 1..], S_REGULAR,
                    if s.align > 0 then s.align else 1, |s.code|, 0, false));
  }

  method ThreadMeta(s: Section, align: nat, size: nat) returns (m: SecMeta)
    requires s.kind == TLS && align == Align(s) && size == ZerofillSize(s)
    ensures MetaFor(m, s)
  {
    if |s.code| > 0 {
      m := SecMeta(Ascii("__DATA"), Ascii("__thread_data"), S_REGULAR, align, |s.code|, 0, false);
    } else {
      m := SecMeta(Ascii("__DATA"), Ascii("__thread_bss"), S_ZEROFILL, align, 0, size, true);
    }
  }

  /** sectionMeta: a table by kind; a custom name must be "segment,section". */
  method SectionMeta(i: nat, s: Section) returns (r: Result<SecMeta, Error>)
    ensures Named(s) ==> r.Ok? && MetaFor(r.value, s)
    ensures !Named(s) ==> r == Err(NotSegmentSection(i))
  {
    var align: nat := if s.align > 0 then s.align else 8;
    var size: nat := if s.vsize > 0 then s.vsize else |s.code|;
    match s.kind {
      case Text =>
        r := Ok(SecMeta(Ascii("__TEXT"), Ascii("__text"), S_ATTR_PURE_INSTRUCTIONS + S_ATTR_SOME_INSTRUCTIONS,
                        if s.align > 0 then s.align else 16, |s.code|, 0, false));
      case Data => r := Ok(SecMeta(Ascii("__DATA"), Ascii("__data"), S_REGULAR, align, |s.code|, 0, false));
      case ROData => r := Ok(SecMeta(Ascii("__TEXT"), Ascii("__const"), S_REGULAR, align, |s.code|, 0, false));
      case BSS => r := Ok(SecMeta(Ascii("__DATA"), Ascii("__bss"), S_ZEROFILL, align, 0, size, true));
      case Unwind =>
        r := Ok(SecMeta(Ascii("__TEXT"), Ascii("__unwind_info"), S_REGULAR, if s.align > 0 then s.align else 4,
                        |s.code|, 0, false));
      case InitArray =>
        r := Ok(SecMeta(Ascii("__DATA"), Ascii("__mod_init_func"), S_REGULAR, align, |s.code|, 0, false));
      case FiniArray =>
        r := Ok(SecMeta(Ascii("__DATA"), Ascii("__mod_term_func"), S_REGULAR, align, |s.code|, 0, false));
      case TLS =>
        var m := ThreadMeta(s, align, size);
        r := Ok(m);
      case Custom => r := CustomMeta(i, s);
    }
  }

  lemma {:induction false} UnnamedSticks(secs: seq<Section>, i: nat, n: nat)
    requires i <= n <= |secs| && FirstUnnamed(secs, i).Some?
    ensures FirstUnnamed(secs, n) == FirstUnnamed(secs, i)
  {
    if i < n { UnnamedSticks(secs, i, n - 1); }
  }

  ghost predicate AllMeta(secs: seq<Section>, n: nat, meta: seq<SecMeta>)
    requires n <= |secs|
  {
    |meta| == n && forall i | 0 <= i < n :: MetaFor(meta[i], secs[i])
  }

  /** Phase 2. */
  method BuildMetas(secs: seq<Section>) returns (r: Result<seq<SecMeta>, Error>)
    ensures r.Err? ==> FirstUnnamed(secs, |secs|) == Some(r.error)
    ensures r.Ok? ==> FirstUnnamed(secs, |secs|).None? && AllMeta(secs, |secs|, r.value)
  {
    var meta: seq<SecMeta> := [];
    for i := 0 to |secs|
      invariant AllMeta(secs, i, meta) && FirstUnnamed(secs, i).None?
    {
      var m := SectionMeta(i, secs[i]);
      if m.Err? {
        UnnamedSticks(secs, i + 1, |secs|);
        return Err(m.error);
      }
      meta := meta + [m.value];
    }
    r := Ok(meta);
  }

  // ------------------------------------------------------ phase 3: symbol table

  /** symEntry: a symbol's row, its section (-1 if undefined) and its binding. */
  datatype Entry = Entry(nlistIdx: nat, sectIdx: int, binding: Binding)

  ghost predicate DefsAre(defs: map<Name, Entry>, rows: seq<Row>, index: map<Name, nat>) {
    defs.Keys == index.Keys && forall n | n in index :: EntryIs(defs[n], rows, index[n])
  }

  ghost predicate EntryIs(e: Entry, rows: seq<Row>, i: nat) {
    i < |rows| && e == Entry(i, rows[i].sect - 1, rows[i].binding)
  }

  /** What the symbol loops keep: records and string table are those of the rows appended so
      far, under the offsets the table has now, and symDefs leads to the last row of a name. */
  ghost predicate Recorded(rows: seq<Row>, syms: seq<Record>, t: StrTable, defs: map<Name, Entry>, start: nat) {
    && t == Sentinel.InternAll(RowStrings(rows))
    && Stored(rows, t.offsets) && syms == NlistRecords(rows, t.offsets)
    && DefsAre(defs, rows, LastIndex(RowNames(rows), start))
  }

  lemma RecordsGrow(rows: seq<Row>, t: StrTable, r: Row)
    requires Stored(rows, t.offsets)
    ensures var u := t.Intern(RowString(r));
            && Stored(rows + [r], u.offsets)
            && NlistRecords(rows + [r], u.offsets)
               == NlistRecords(rows, t.offsets) + [NlistRecord(r, u.offsets[RowString(r)])]
  {
  }

  lemma StringsSnoc(rows: seq<Row>, r: Row)
    ensures Sentinel.InternAll(RowStrings(rows + [r])) == Sentinel.InternAll(RowStrings(rows)).Intern(RowString(r))
    ensures RowNames(rows + [r]) == RowNames(rows) + [r.name]
  {
    assert RowStrings(rows + [r]) == RowStrings(rows) + [RowString(r)];
    InternAllSnoc(Sentinel, RowStrings(rows), RowString(r));
  }

  lemma DefsGrow(rows: seq<Row>, defs: map<Name, Entry>, start: nat, r: Row)
    requires DefsAre(defs, rows, LastIndex(RowNames(rows), start)) && start <= |rows|
    ensures DefsAre(defs[r.name := Entry(|rows|, r.sect - 1, r.binding)], rows + [r],
                    LastIndex(RowNames(rows) + [r.name], start))
  {
    LastIndexSnoc(RowNames(rows), start, r.name);
  }

  lemma RecordNamed(rows: seq<Row>, syms: seq<Record>, t: StrTable, defs: map<Name, Entry>, start: nat, r: Row)
    requires Recorded(rows, syms, t, defs, start) && start <= |rows|
    ensures var u := t.Intern(RowString(r));
            Recorded(rows + [r], syms + [NlistRecord(r, u.offsets[RowString(r)])], u,
                     defs[r.name := Entry(|syms|, r.sect - 1, r.binding)], start)
  {
    StringsSnoc(rows, r);
    RecordsGrow(rows, t, r);
    DefsGrow(rows, defs, start, r);
  }

  /** Rows without a name point at the empty string and stay out of symDefs. */
  lemma RecordAnonymous(rows: seq<Row>, syms: seq<Record>, t: StrTable, start: nat, r: Row)
    requires Recorded(rows, syms, t, map[], start) && |rows| < start && r.name == []
    ensures Recorded(rows + [r], syms + [NlistRecord(r, 0)], t, map[], start)
  {
    StringsSnoc(rows, r);
    BaseTablesWellFormed();
    InternAllGrows(Sentinel, RowStrings(rows));
    assert [] in Sentinel.offsets && Sentinel.offsets[[]] == 0;
    RecordsGrow(rows, t, r);
    LastIndexEmpty(RowNames(rows + [r]), start);
  }

  /** Appends a named symbol and points its name at it. */
  method AppendNamed(r: Row, syms: seq<Record>, defs: map<Name, Entry>, strtab: StrTab, ghost rows: seq<Row>,
                     ghost start: nat)
    returns (syms': seq<Record>, defs': map<Name, Entry>)
    requires Recorded(rows, syms, strtab.Value(), defs, start) && start <= |rows| && r.name != []
    modifies strtab
    ensures Recorded(rows + [r], syms', strtab.Value(), defs', start)
  {
    RecordNamed(rows, syms, strtab.Value(), defs, start, r);
    var idx := |syms|;
    var off := strtab.Intern([UNDERSCORE] + r.name);
    syms' := syms + [NlistRecord(r, off)];
    defs' := defs[r.name := Entry(idx, r.sect - 1, r.binding)];
  }

  /** Appends a row without a name. */
  method AppendAnonymous(r: Row, syms: seq<Record>, ghost t: StrTable, ghost rows: seq<Row>, ghost start: nat)
    returns (syms': seq<Record>)
    requires Recorded(rows, syms, t, map[], start) && |rows| < start && r.name == []
    ensures Recorded(rows + [r], syms', t, map[], start)
  {
    RecordAnonymous(rows, syms, t, start, r);
    syms' := syms + [NlistRecord(r, 0)];
  }

  lemma NothingRecorded(start: nat)
    ensures Recorded([], [], Sentinel, map[], start)
  {
    LastIndexEmpty([], start);
  }

  method HeadSymbols(secs: seq<Section>, strtab: StrTab) returns (syms: seq<Record>)
    requires strtab.Value() == Sentinel
    ensures Recorded(HeadRows(|secs|), syms, strtab.Value(), map[], 1 + |secs|)
  {
    NothingRecorded(1 + |secs|);
    syms := AppendAnonymous(NullRow, [], Sentinel, [], 1 + |secs|);
    assert [] + [NullRow] == HeadRows(0);
    for i := 0 to |secs|
      invariant Recorded(HeadRows(i), syms, Sentinel, map[], 1 + |secs|)
    {
      syms := AppendAnonymous(SectionRow(i), syms, Sentinel, HeadRows(i), 1 + |secs|);
      assert HeadRows(i + 1) == HeadRows(i) + [SectionRow(i)];
    }
  }

  lemma AppendRow(a: seq<Row>, b: seq<Row>, r: Row)
    ensures a + b + [r] == a + (b + [r])
  {
  }

  lemma LocalRowsSnoc(ds: seq<Def>, d: Def)
    ensures LocalRows(ds + [d]) == LocalRows(ds) + if IsLocal(d) then [LocalRow(d)] else []
  {
    assert (ds + [d])[..|ds|] == ds;
  }

  lemma ExportedRowsSnoc(secs: seq<Section>, ds: seq<Def>, d: Def)
    ensures ExportedRows(secs, ds + [d])
            == ExportedRows(secs, ds) + if IsExported(d) then [ExportedRow(secs, d)] else []
  {
    assert (ds + [d])[..|ds|] == ds;
  }

  /** Named local symbols, section by section. */
  method LocalSymbols(secs: seq<Section>, strtab: StrTab, ghost base: seq<Row>, ghost start: nat, syms0: seq<Record>,
                      defs0: map<Name, Entry>)
    returns (syms: seq<Record>, defs: map<Name, Entry>)
    requires Recorded(base, syms0, strtab.Value(), defs0, start) && start <= |base|
    modifies strtab
    ensures Recorded(base + LocalRows(AllDefs(secs)), syms, strtab.Value(), defs, start)
  {
    syms, defs := syms0, defs0;
    ghost var rows: seq<Row> := [];
    assert base + rows == base;
    for i := 0 to |secs|
      invariant rows == LocalRows(Defs(secs, i, 0)) && Recorded(base + rows, syms, strtab.Value(), defs, start)
    {
      for j := 0 to |secs[i].symbols|
        invariant rows == LocalRows(Defs(secs, i, j)) && Recorded(base + rows, syms, strtab.Value(), defs, start)
      {
        var d := Def(i, secs[i].symbols[j]);
        LocalRowsSnoc(Defs(secs, i, j), d);
        if !IsLocal(d) { continue; }
        syms, defs := AppendNamed(LocalRow(d), syms, defs, strtab, base + rows, start);
        AppendRow(base, rows, LocalRow(d));
        rows := rows + [LocalRow(d)];
      }
    }
  }

  /** Global and weak symbols; link-once sections mark theirs as weak definitions. */
  method GlobalSymbols(secs: seq<Section>, strtab: StrTab, ghost base: seq<Row>, ghost start: nat, syms0: seq<Record>,
                       defs0: map<Name, Entry>)
    returns (syms: seq<Record>, defs: map<Name, Entry>)
    requires Recorded(base, syms0, strtab.Value(), defs0, start) && start <= |base|
    modifies strtab
    ensures Recorded(base + ExportedRows(secs, AllDefs(secs)), syms, strtab.Value(), defs, start)
  {
    syms, defs := syms0, defs0;
    ghost var rows: seq<Row> := [];
    assert base + rows == base;
    for i := 0 to |secs|
      invariant rows == ExportedRows(secs, Defs(secs, i, 0))
      invariant Recorded(base + rows, syms, strtab.Value(), defs, start)
    {
      for j := 0 to |secs[i].symbols|
        invariant rows == ExportedRows(secs, Defs(secs, i, j))
        invariant Recorded(base + rows, syms, strtab.Value(), defs, start)
      {
        var d := Def(i, secs[i].symbols[j]);
        ExportedRowsSnoc(secs, Defs(secs, i, j), d);
        if !IsExported(d) { continue; }
        syms, defs := AppendNamed(ExportedRow(secs, d), syms, defs, strtab, base + rows, start);
        AppendRow(base, rows, ExportedRow(secs, d));
        rows := rows + [ExportedRow(secs, d)];
      }
    }
  }

  lemma ExternalRowsStep(base: seq<Row>, ns: seq<Name>, k: nat)
    requires k < |ns|
    ensures base + ExternalRows(ns[..k + 1]) == base + ExternalRows(ns[..k]) + [ExternalRow(ns[k])]
  {
    assert ExternalRows(ns[..k + 1]) == ExternalRows(ns[..k]) + [ExternalRow(ns[k])];
  }

  method UndefinedSymbols(names: seq<Name>, strtab: StrTab, ghost base: seq<Row>, ghost start: nat, syms0: seq<Record>,
                          defs0: map<Name, Entry>)
    returns (syms: seq<Record>, defs: map<Name, Entry>)
    requires Recorded(base, syms0, strtab.Value(), defs0, start) && start <= |base|
    requires forall k | 0 <= k < |names| :: names[k] != []
    modifies strtab
    ensures Recorded(base + ExternalRows(names), syms, strtab.Value(), defs, start)
  {
    syms, defs := syms0, defs0;
    assert base + ExternalRows(names[..0]) == base;
    for k := 0 to |names|
      invariant Recorded(base + ExternalRows(names[..k]), syms, strtab.Value(), defs, start)
    {
      ExternalRowsStep(base, names, k);
      syms, defs := AppendNamed(ExternalRow(names[k]), syms, defs, strtab, base + ExternalRows(names[..k]), start);
    }
    assert names[..|names|] == names;
  }

  lemma ExternalsNamed(secs: seq<Section>)
    ensures forall k | 0 <= k < |Externals(secs, false)| :: Externals(secs, false)[k] != []
  {
    ExternalsFacts(secs, false);
    forall k | 0 <= k < |Externals(secs, false)| ensures Externals(secs, false)[k] != [] {
      assert Externals(secs, false)[k] in Externals(secs, false);
    }
  }

  /** Phase 3. */
  method BuildSymbols(secs: seq<Section>, strtab: StrTab) returns (syms: seq<Record>, defs: map<Name, Entry>)
    requires strtab.Value() == Sentinel
    modifies strtab
    ensures Recorded(Rows(secs), syms, strtab.Value(), defs, 1 + |secs|)
  {
    ghost var start := 1 + |secs|;
    syms := HeadSymbols(secs, strtab);
    LastIndexEmpty(RowNames(HeadRows(|secs|)), start);
    defs := map[];
    syms, defs := LocalSymbols(secs, strtab, HeadRows(|secs|), start, syms, defs);
    ghost var local := HeadRows(|secs|) + LocalRows(AllDefs(secs));
    syms, defs := GlobalSymbols(secs, strtab, local, start, syms, defs);
    var names := ExternalSymbols(secs, false);
    ExternalsNamed(secs);
    syms, defs := UndefinedSymbols(names, strtab, local + ExportedRows(secs, AllDefs(secs)), start, syms, defs);
  }

  // -------------------------------------------------- phase 4: relocation records

  lemma {:induction false} MissingSticks(index: map<Name, nat>, a: seq<Use>, b: seq<Use>)
    requires a <= b && FirstMissing(index, a).Some?
    ensures FirstMissing(index, b) == FirstMissing(index, a)
    decreases |b|
  {
    if |a| < |b| { MissingSticks(index, a, b[..|b| - 1]); } else { assert a == b; }
  }

  lemma MissingStep(index: map<Name, nat>, us: seq<Use>, u: Use)
    requires FirstMissing(index, us).None?
    ensures FirstMissing(index, us + [u]) ==
            if u.rel.symbol in index then None else Some(MissingSymbol(u.sec, u.rel.symbol))
  {
    assert (us + [u])[..|us|] == us;
  }

  lemma MissingHere(index: map<Name, nat>, secs: seq<Section>, i: nat, j: nat)
    requires i < |secs| && j < |secs[i].relocs| && FirstMissing(index, Uses(secs, i, j)).None?
    ensures secs[i].relocs[j].symbol in index ==> FirstMissing(index, Uses(secs, i, j + 1)).None?
    ensures secs[i].relocs[j].symbol !in index ==>
              FirstMissing(index, AllUses(secs)) == Some(MissingSymbol(i, secs[i].relocs[j].symbol))
  {
    MissingStep(index, Uses(secs, i, j), Use(i, secs[i].relocs[j]));
    if secs[i].relocs[j].symbol !in index {
      UsesPrefix(secs, i, j + 1);
      MissingSticks(index, Uses(secs, i, j + 1), AllUses(secs));
    }
  }

  /** One record: by section number for local targets, by symbol otherwise. */
  method EncodeReloc(cpu: u32, r: Reloc, rd: RelocDesc, def: Entry, ghost rows: seq<Row>, ghost index: map<Name, nat>)
    returns (rec: Record)
    requires r.symbol in index && EntryIs(def, rows, index[r.symbol]) && Describe(cpu, r.kind) == Some(rd)
    ensures Resolvable(cpu, rows, index, r) && rec == RelocRecord(cpu, rows, index, r)
  {
    var page := cpu == CPU_ARM64 && (rd.rtype == ARM64_PAGE21 || rd.rtype == ARM64_PAGEOFF12);
    var isExternal, num := true, def.nlistIdx;
    if def.binding == Local && def.sectIdx >= 0 && !page {
      isExternal, num := false, 1 + def.sectIdx;
    }
    rec := [LE(4, r.offset), LE(4, PackRelocInfo(num, rd.pcrel, rd.length, isExternal, rd.rtype))];
  }

  /** The encoded relocations of rs. */
  ghost predicate RelocsDone(cpu: u32, rows: seq<Row>, index: map<Name, nat>, rs: seq<Reloc>, recs: seq<Record>) {
    AllResolvable(cpu, rows, index, rs) && recs == RelocRecords(cpu, rows, index, rs)
  }

  lemma RelocsDoneSnoc(cpu: u32, rows: seq<Row>, index: map<Name, nat>, rs: seq<Reloc>, recs: seq<Record>, r: Reloc)
    requires RelocsDone(cpu, rows, index, rs, recs) && Resolvable(cpu, rows, index, r)
    ensures RelocsDone(cpu, rows, index, rs + [r], recs + [RelocRecord(cpu, rows, index, r)])
  {
    assert AllResolvable(cpu, rows, index, rs + [r]);
    assert RelocRecords(cpu, rows, index, rs + [r])
           == RelocRecords(cpu, rows, index, rs) + [RelocRecord(cpu, rows, index, r)];
  }

  method EncodeRelocs(cpu: u32, secs: seq<Section>, i: nat, descs: seq<RelocDesc>, defs: map<Name, Entry>,
                      ghost rows: seq<Row>, ghost index: map<Name, nat>)
    returns (r: Result<seq<Record>, Error>)
    requires i < |secs| && Described(cpu, secs[i].relocs, descs) && DefsAre(defs, rows, index)
    requires FirstMissing(index, Uses(secs, i, 0)).None?
    ensures r.Err? ==> FirstMissing(index, AllUses(secs)) == Some(r.error)
    ensures r.Ok? ==> RelocsDone(cpu, rows, index, secs[i].relocs, r.value)
                      && FirstMissing(index, Uses(secs, i + 1, 0)).None?
  {
    var rs := secs[i].relocs;
    var recs: seq<Record> := [];
    for j := 0 to |rs|
      invariant RelocsDone(cpu, rows, index, rs[..j], recs) && FirstMissing(index, Uses(secs, i, j)).None?
    {
      MissingHere(index, secs, i, j);
      assert rs[j].symbol in defs <==> rs[j].symbol in index;
      if rs[j].symbol !in defs { return Err(MissingSymbol(i, rs[j].symbol)); }
      var rec := EncodeReloc(cpu, rs[j], descs[j], defs[rs[j].symbol], rows, index);
      RelocsDoneSnoc(cpu, rows, index, rs[..j], recs, rs[j]);
      assert rs[..j + 1] == rs[..j] + [rs[j]];
      recs := recs + [rec];
    }
    assert rs[..|rs|] == rs;
    r := Ok(recs);
  }

  ghost predicate AllRelocsDone(cpu: u32, rows: seq<Row>, index: map<Name, nat>, secs: seq<Section>, n: nat,
                                recs: seq<seq<Record>>)
    requires n <= |secs|
  {
    |recs| == n && forall i | 0 <= i < n :: RelocsDone(cpu, rows, index, secs[i].relocs, recs[i])
  }

  /** Phase 4. */
  method BuildRelocs(cpu: u32, secs: seq<Section>, descs: seq<seq<RelocDesc>>, defs: map<Name, Entry>,
                     ghost rows: seq<Row>, ghost index: map<Name, nat>)
    returns (r: Result<seq<seq<Record>>, Error>)
    requires AllDescribed(cpu, secs, |secs|, descs) && DefsAre(defs, rows, index)
    ensures r.Err? ==> FirstMissing(index, AllUses(secs)) == Some(r.error)
    ensures r.Ok? ==> FirstMissing(index, AllUses(secs)).None?
                      && AllRelocsDone(cpu, rows, index, secs, |secs|, r.value)
  {
    var all: seq<seq<Record>> := [];
    for i := 0 to |secs|
      invariant AllRelocsDone(cpu, rows, index, secs, i, all) && FirstMissing(index, Uses(secs, i, 0)).None?
    {
      var recs := EncodeRelocs(cpu, secs, i, descs[i], defs, rows, index);
      if recs.Err? { return Err(recs.error); }
      all := all + [recs.value];
    }
    r := Ok(all);
  }

  // ------------------------------------------------- phases 5 to 7: layout and sizes

  datatype SecLayout = SecLayout(dataOff: nat, relocOff: nat, nReloc: nat)

  function LayoutOf(x: Input, k: nat): SecLayout
    requires k < |x.secs|
  {
    SecLayout(DataOff(x, k), RelocOff(x, k), RelocCount(x.secs[k]))
  }

  ghost predicate LaidOut(x: Input, n: nat, layout: seq<SecLayout>)
    requires n <= |x.secs|
  {
    |layout| == n && forall k | 0 <= k < n :: layout[k] == LayoutOf(x, k)
  }

  ghost predicate AllSizes(secs: seq<Section>, meta: seq<SecMeta>) {
    |meta| == |secs| && forall i | 0 <= i < |secs| :: SizesFor(meta[i], secs[i])
  }

  /** One section's place and the position behind it. */
  method PlaceSection(x: Input, m: SecMeta, nr: nat, k: nat, pos0: nat) returns (l: SecLayout, pos: nat)
    requires k < |x.secs| && SizesFor(m, x.secs[k]) && nr == |x.secs[k].relocs|
    requires pos0 == Pos(DataStart(x), Extents(x.secs), k)
    ensures l == LayoutOf(x, k) && pos == Pos(DataStart(x), Extents(x.secs), k + 1)
  {
    l, pos := SecLayout(0, 0, 0), pos0;
    if m.isZerofill { return; }
    pos := AlignUp(pos, m.align);
    l := l.(dataOff := pos);
    pos := pos + m.rawSize;
    if nr > 0 {
      l := l.(relocOff := pos, nReloc := nr);
      pos := pos + nr * RELOC_SIZE;
    }
  }

  /** Phases 5 and 6: predicted offsets behind the load commands. */
  method BuildLayout(x: Input, meta: seq<SecMeta>, recs: seq<seq<Record>>) returns (layout: seq<SecLayout>, symOff: nat)
    requires AllSizes(x.secs, meta) && |recs| == |x.secs|
    requires forall i | 0 <= i < |x.secs| :: |recs[i]| == |x.secs[i].relocs|
    ensures LaidOut(x, |x.secs|, layout) && symOff == SymOff(x)
  {
    layout := [];
    var pos := DataStart(x);
    for i := 0 to |x.secs|
      invariant LaidOut(x, i, layout) && pos == Pos(DataStart(x), Extents(x.secs), i)
    {
      var l;
      l, pos := PlaceSection(x, meta[i], |recs[i]|, i, pos);
      layout := layout + [l];
    }
    symOff := pos;
  }

  /** Phase 7: what the segment occupies in memory and in the file. */
  method SegmentSizes(secs: seq<Section>, meta: seq<SecMeta>) returns (vmSize: nat, fileSize: nat)
    requires AllSizes(secs, meta)
    ensures vmSize == VmSize(secs, |secs|) && fileSize == FileSize(secs, |secs|)
  {
    vmSize, fileSize := 0, 0;
    for i := 0 to |secs|
      invariant vmSize == VmSize(secs, i) && fileSize == FileSize(secs, i)
    {
      if meta[i].isZerofill {
        vmSize := vmSize + meta[i].bssSize;
      } else {
        vmSize, fileSize := vmSize + meta[i].rawSize, fileSize + meta[i].rawSize;
      }
    }
  }

  // ---------------------------------------------------------- phase 8: serialise

  /** log2, counting the shifts after the first. */
  method Log2Field(v0: nat) returns (n: nat)
    ensures n == Log2Of(v0)
  {
    n := 0;
    if v0 <= 1 { return; }
    var v := v0 / 2;
    n := 1;
    while v > 1
      invariant v >= 1 && n + Log2Of(v) == Log2Of(v0)
      decreases v
    {
      v := v / 2;
      n := n + 1;
    }
  }

  method WriteSectionHeader(m: SecMeta, l: SecLayout, ghost x: Input, ghost k: nat, out: Buffer)
    requires k < |x.secs| && MetaFor(m, x.secs[k]) && l == LayoutOf(x, k)
    modifies out
    ensures out.data == old(out.data) + Join(SectionRecord(x, k))
  {
    var log := Log2Field(m.align);
    var size, off, relocOff, nReloc := m.rawSize, l.dataOff, l.relocOff, l.nReloc;
    if m.isZerofill { size, off, relocOff, nReloc := m.bssSize, 0, 0, 0; }
    out.Write(Join([Padded(m.sectName, 16), Padded(m.segName, 16), LE(8, 0), LE(8, size), LE(4, off), LE(4, log),
                    LE(4, relocOff), LE(4, nReloc), LE(4, m.flags), LE(4, 0), LE(4, 0), LE(4, 0)]));
  }

  method WriteSectionHeaders(meta: seq<SecMeta>, layout: seq<SecLayout>, ghost x: Input, out: Buffer)
    requires AllMeta(x.secs, |x.secs|, meta) && LaidOut(x, |x.secs|, layout)
    modifies out
    ensures AllNamed(x.secs)
    ensures out.data == old(out.data) + Table(SectionRecords(x))
  {
    assert AllNamed(x.secs) by {
      forall i | 0 <= i < |x.secs| ensures Named(x.secs[i]) { assert MetaFor(meta[i], x.secs[i]); }
    }
    ghost var start, recs := out.data, SectionRecords(x);
    assert start + [] == start;
    for i := 0 to |meta|
      invariant out.data == start + Table(recs[..i])
    {
      TableGrows(start, recs, i);
      assert MetaFor(meta[i], x.secs[i]);
      WriteSectionHeader(meta[i], layout[i], x, i, out);
    }
    assert recs[..|meta|] == recs;
  }

  lemma AddendWritesSnoc(cpu: u32, rs: seq<Reloc>, r: Reloc)
    requires Supported(cpu, rs) && Describe(cpu, r.kind).Some?
    ensures Supported(cpu, rs + [r])
    ensures r.addend == 0 ==> AddendWrites(cpu, rs + [r]) == AddendWrites(cpu, rs)
    ensures r.addend != 0 ==>
              AddendWrites(cpu, rs + [r])
              == AddendWrites(cpu, rs) + [Write(r.offset, LE(AddendSize(Describe(cpu, r.kind).value), r.addend))]
  {
    assert (rs + [r])[..|rs|] == rs;
  }

  /** applyImplicitAddends: non-zero addends are baked into a fresh copy; the caller's code
      is not touched. */
  method ApplyImplicitAddends(cpu: u32, code: seq<byte>, relocs: seq<Reloc>, descs: seq<RelocDesc>)
    returns (patched: seq<byte>)
    requires Described(cpu, relocs, descs)
    ensures Supported(cpu, relocs) && patched == Apply(code, AddendWrites(cpu, relocs))
  {
    if |relocs| == 0 { return code; }
    var a := new byte[|code|](i requires 0 <= i < |code| => code[i]);
    assert a[..] == code;
    for i := 0 to |relocs|
      invariant Supported(cpu, relocs[..i]) && a[..] == Apply(code, AddendWrites(cpu, relocs[..i]))
    {
      assert relocs[..i + 1] == relocs[..i] + [relocs[i]];
      AddendWritesSnoc(cpu, relocs[..i], relocs[i]);
      if relocs[i].addend == 0 { continue; }
      PatchLE(a, relocs[i].offset, AddendSize(descs[i]), relocs[i].addend, code, AddendWrites(cpu, relocs[..i]));
    }
    assert relocs[..|relocs|] == relocs;
    patched := a[..];
  }

  /** One section's patched bytes and its relocation records, at the predicted offset. */
  method WriteSection(x: Input, ghost rows: seq<Row>, ghost index: map<Name, nat>, s: Section, descs: seq<RelocDesc>,
                      recs: seq<Record>, dataOff: nat, out: Buffer)
    requires Described(x.cpu, s.relocs, descs) && RelocsDone(x.cpu, rows, index, s.relocs, recs)
    modifies out
    ensures out.data == PadTo(old(out.data), dataOff) + ChunkData(x, rows, index, s)
  {
    var code := ApplyImplicitAddends(x.cpu, s.code, s.relocs, descs);
    out.PadTo(dataOff);
    WriteChunk(code, recs, out);
  }

  method WriteChunk(code: seq<byte>, recs: seq<Record>, out: Buffer)
    modifies out
    ensures out.data == old(out.data) + (code + Table(recs))
  {
    ghost var start := out.data;
    out.Write(code);
    out.WriteTable(recs);
    assert start + code + Table(recs) == start + (code + Table(recs));
  }

  /** What the earlier phases hand to the output loop. */
  ghost predicate Ready(x: Input, t: Tables, meta: seq<SecMeta>, descs: seq<seq<RelocDesc>>, recs: seq<seq<Record>>,
                        layout: seq<SecLayout>) {
    && Writable(x, t) && AllSizes(x.secs, meta) && LaidOut(x, |x.secs|, layout)
    && AllDescribed(x.cpu, x.secs, |x.secs|, descs)
    && AllRelocsDone(x.cpu, t.rows, t.index, x.secs, |x.secs|, recs)
  }

  /** The output behind the first i sections. */
  ghost function Through(b: seq<byte>, x: Input, t: Tables, i: nat): seq<byte>
    requires Writable(x, t) && i <= |x.secs|
  {
    Emit(b, Chunks(DataStart(x), Extents(x.secs), ChunkDatas(x, t), i))
  }

  /** What the output loop needs at section i. */
  lemma ReadyAt(x: Input, t: Tables, meta: seq<SecMeta>, descs: seq<seq<RelocDesc>>, recs: seq<seq<Record>>,
                layout: seq<SecLayout>, i: nat)
    requires i < |x.secs| && Ready(x, t, meta, descs, recs, layout)
    ensures |meta| == |descs| == |recs| == |layout| == |x.secs| && meta[i].isZerofill == Extents(x.secs)[i].skip
    ensures layout[i].dataOff == DataOff(x, i) && Described(x.cpu, x.secs[i].relocs, descs[i])
    ensures RelocsDone(x.cpu, t.rows, t.index, x.secs[i].relocs, recs[i])
  {
    assert SizesFor(meta[i], x.secs[i]);
  }

  /** What section i adds to the output so far. */
  lemma TurnAt(b: seq<byte>, x: Input, t: Tables, m: SecMeta, l: SecLayout, i: nat)
    requires i < |x.secs| && Writable(x, t)
    requires m.isZerofill == Extents(x.secs)[i].skip && l.dataOff == DataOff(x, i)
    ensures Through(b, x, t, i + 1)
         == if m.isZerofill then Through(b, x, t, i)
            else PadTo(Through(b, x, t, i), l.dataOff) + ChunkData(x, t.rows, t.index, x.secs[i])
  {
    EmitStep(b, DataStart(x), Extents(x.secs), ChunkDatas(x, t), i);
  }

  /** Section i, if it has file bytes. */
  method WriteSectionAt(x: Input, ghost t: Tables, meta: seq<SecMeta>, descs: seq<seq<RelocDesc>>,
                        recs: seq<seq<Record>>, layout: seq<SecLayout>, i: nat, ghost b: seq<byte>, out: Buffer)
    requires i < |x.secs| && Ready(x, t, meta, descs, recs, layout) && out.data == Through(b, x, t, i)
    modifies out
    ensures out.data == Through(b, x, t, i + 1)
  {
    ReadyAt(x, t, meta, descs, recs, layout, i);
    TurnAt(b, x, t, meta[i], layout[i], i);
    if meta[i].isZerofill { return; }
    WriteSection(x, t.rows, t.index, x.secs[i], descs[i], recs[i], layout[i].dataOff, out);
  }

  method WriteSections(x: Input, ghost t: Tables, meta: seq<SecMeta>, descs: seq<seq<RelocDesc>>,
                       recs: seq<seq<Record>>, layout: seq<SecLayout>, out: Buffer)
    requires Ready(x, t, meta, descs, recs, layout)
    modifies out
    ensures out.data == Emit(old(out.data), Chunks(DataStart(x), Extents(x.secs), ChunkDatas(x, t), |x.secs|))
  {
    ghost var b := out.data;
    for i := 0 to |x.secs|
      invariant out.data == Through(b, x, t, i)
    {
      WriteSectionAt(x, t, meta, descs, recs, layout, i, b, out);
    }
  }

  method WriteFileHeader(x: Input, nCmds: nat, totalLCSize: nat) returns (out: Buffer)
    requires nCmds == (if x.build.Some? then 3 else 2) && totalLCSize == CmdsLen(x)
    ensures fresh(out) && out.data == Join(FileHeader(x))
  {
    out := new Buffer();
    out.Write(Join([LE(4, MH_MAGIC_64), LE(4, x.cpu), LE(4, 0), LE(4, MH_OBJECT), LE(4, nCmds), LE(4, totalLCSize),
                    LE(4, MH_SUBSECTIONS_VIA_SYMBOLS), LE(4, 0)]));
  }

  method WriteSegment(x: Input, lcSegSize: nat, dataStart: nat, vmSize: nat, fileSize: nat, out: Buffer)
    requires lcSegSize == SegCmdLen(|x.secs|) && dataStart == DataStart(x)
    requires vmSize == VmSize(x.secs, |x.secs|) && fileSize == FileSize(x.secs, |x.secs|)
    modifies out
    ensures out.data == old(out.data) + Join(SegmentCommand(x))
  {
    out.Write(Join([LE(4, LC_SEGMENT_64), LE(4, lcSegSize), Zeros(16), LE(8, 0), LE(8, vmSize), LE(8, dataStart),
                    LE(8, fileSize), LE(4, VM_PROT_ALL), LE(4, VM_PROT_ALL), LE(4, |x.secs|), LE(4, 0)]));
  }

  method WriteHead(x: Input, vmSize: nat, fileSize: nat) returns (out: Buffer)
    requires vmSize == VmSize(x.secs, |x.secs|) && fileSize == FileSize(x.secs, |x.secs|)
    ensures fresh(out) && out.data == Join(FileHeader(x)) + Join(SegmentCommand(x))
  {
    var lcSegSize := SEG_CMD_SIZE + |x.secs| * SECTION_SIZE;
    var lcBvSize, nCmds := 0, 2;
    if x.build.Some? { lcBvSize, nCmds := BUILD_CMD_SIZE, 3; }
    var totalLCSize := lcSegSize + lcBvSize + SYMTAB_CMD_SIZE;
    out := WriteFileHeader(x, nCmds, totalLCSize);
    WriteSegment(x, lcSegSize, HDR_SIZE + totalLCSize, vmSize, fileSize, out);
  }

  method WriteTailCommands(x: Input, symOff: nat, nRows: nat, strSize: nat, out: Buffer)
    requires symOff == SymOff(x)
    modifies out
    ensures out.data == old(out.data) + BuildBytes(x.build) + Join(SymtabCommand(x, nRows, strSize))
  {
    if x.build.Some? {
      var v := x.build.value;
      out.Write(Join([LE(4, LC_BUILD_VERSION), LE(4, BUILD_CMD_SIZE), LE(4, v.platform), LE(4, v.minOS), LE(4, v.sdk),
                      LE(4, 0)]));
    } else {
      assert out.data + [] == out.data;
    }
    var strOff := symOff + nRows * NLIST_SIZE;
    out.Write(Join([LE(4, LC_SYMTAB), LE(4, SYMTAB_CMD_SIZE), LE(4, symOff), LE(4, nRows), LE(4, strOff),
                    LE(4, strSize)]));
  }

  method WritePreamble(x: Input, ghost t: Tables, meta: seq<SecMeta>, layout: seq<SecLayout>, symOff: nat, nRows: nat,
                       strSize: nat)
    returns (out: Buffer)
    requires Writable(x, t) && AllMeta(x.secs, |x.secs|, meta) && LaidOut(x, |x.secs|, layout)
    requires symOff == SymOff(x) && nRows == |t.rows| && strSize == |t.strtab.data|
    ensures fresh(out) && out.data == Preamble(x, t)
  {
    MetaSizes(x.secs, meta);
    var vmSize, fileSize := SegmentSizes(x.secs, meta);
    out := WriteHead(x, vmSize, fileSize);
    WriteSectionHeaders(meta, layout, x, out);
    WriteTailCommands(x, symOff, nRows, strSize, out);
  }

  lemma MetaSizes(secs: seq<Section>, meta: seq<SecMeta>)
    requires AllMeta(secs, |secs|, meta)
    ensures AllSizes(secs, meta)
  {
    forall i | 0 <= i < |secs| ensures SizesFor(meta[i], secs[i]) { assert MetaFor(meta[i], secs[i]); }
  }

  /** What phases 1 to 4 hand to the rest. */
  ghost predicate Prepared(x: Input, t: Tables, descs: seq<seq<RelocDesc>>, meta: seq<SecMeta>, syms: seq<Record>,
                           recs: seq<seq<Record>>) {
    && Writable(x, t) && AllMeta(x.secs, |x.secs|, meta) && AllDescribed(x.cpu, x.secs, |x.secs|, descs)
    && AllRelocsDone(x.cpu, t.rows, t.index, x.secs, |x.secs|, recs)
    && syms == NlistRecords(t.rows, t.strtab.offsets)
  }

  lemma RecordCounts(x: Input, t: Tables, recs: seq<seq<Record>>)
    requires AllRelocsDone(x.cpu, t.rows, t.index, x.secs, |x.secs|, recs)
    ensures forall i | 0 <= i < |x.secs| :: |recs[i]| == |x.secs[i].relocs|
  {
    forall i | 0 <= i < |x.secs| ensures |recs[i]| == |x.secs[i].relocs| {
      assert RelocsDone(x.cpu, t.rows, t.index, x.secs[i].relocs, recs[i]);
    }
  }

  /** The symbol and string tables behind the section data. */
  method WriteTables(x: Input, ghost t: Tables, syms: seq<Record>, strings: seq<byte>, symOff: nat, out: Buffer)
    requires Writable(x, t) && syms == NlistRecords(t.rows, t.strtab.offsets) && strings == t.strtab.data
    requires symOff == SymOff(x)
    modifies out
    ensures out.data == PadTo(PadTo(old(out.data), SymOff(x)) + Table(NlistRecords(t.rows, t.strtab.offsets)),
                              StrOff(x, |t.rows|)) + t.strtab.data
  {
    out.PadTo(symOff);
    out.WriteTable(syms);
    out.PadTo(symOff + |syms| * NLIST_SIZE);
    out.Write(strings);
  }

  /** Phases 5 to 8. */
  method Serialise(x: Input, ghost t: Tables, descs: seq<seq<RelocDesc>>, meta: seq<SecMeta>, syms: seq<Record>,
                   strings: seq<byte>, recs: seq<seq<Record>>)
    returns (b: seq<byte>)
    requires Prepared(x, t, descs, meta, syms, recs) && strings == t.strtab.data
    ensures b == FileOf(x, t)
  {
    MetaSizes(x.secs, meta);
    RecordCounts(x, t, recs);
    var layout, symOff := BuildLayout(x, meta, recs);
    var out := WritePreamble(x, t, meta, layout, symOff, |syms|, |strings|);
    ghost var preamble := out.data;
    WriteSections(x, t, meta, descs, recs, layout, out);
    WriteTables(x, t, syms, strings, symOff, out);
    ghost var chunks := Chunks(DataStart(x), Extents(x.secs), ChunkDatas(x, t), |x.secs|);
    ghost var nlists := Placement(SymOff(x), Table(NlistRecords(t.rows, t.strtab.offsets)));
    EmitSnoc(preamble, chunks, nlists);
    EmitSnoc(preamble, chunks + [nlists], Placement(StrOff(x, |t.rows|), t.strtab.data));
    b := out.data;
  }

  // ------------------------------------------------------------------- the writer

  lemma FailureIs(x: Input)
    ensures var e := FirstUnsupported(x.cpu, AllUses(x.secs)); e.Some? ==> FirstFailure(x, Index(x.secs)) == e
    ensures var e := FirstUnnamed(x.secs, |x.secs|);
            FirstUnsupported(x.cpu, AllUses(x.secs)).None? && e.Some? ==> FirstFailure(x, Index(x.secs)) == e
    ensures FirstUnsupported(x.cpu, AllUses(x.secs)).None? && FirstUnnamed(x.secs, |x.secs|).None? ==>
              FirstFailure(x, Index(x.secs)) == FirstMissing(Index(x.secs), AllUses(x.secs))
  {
  }

  /** Phases 3 to 8, once descriptors and metadata are there. */
  method BuildFile(x: Input, descs: seq<seq<RelocDesc>>, meta: seq<SecMeta>) returns (r: Result<seq<byte>, Error>)
    requires AllDescribed(x.cpu, x.secs, |x.secs|, descs) && AllMeta(x.secs, |x.secs|, meta)
    requires FirstUnsupported(x.cpu, AllUses(x.secs)).None? && FirstUnnamed(x.secs, |x.secs|).None?
    ensures r == Outcome(x)
  {
    FailureIs(x);
    var strtab := new StrTab(Sentinel);
    var syms, defs := BuildSymbols(x.secs, strtab);
    var recs := BuildRelocs(x.cpu, x.secs, descs, defs, Rows(x.secs), Index(x.secs));
    if recs.Err? { return Err(recs.error); }
    TablesWritable(x);
    var b := Serialise(x, TablesOf(x.secs), descs, meta, syms, strtab.data, recs.value);
    r := Ok(b);
  }

  method Build(x: Input) returns (r: Result<seq<byte>, Error>)
    ensures r == Outcome(x)
  {
    FailureIs(x);
    var descs := BuildDescs(x.cpu, x.secs);
    if descs.Err? { return Err(descs.error); }
    var meta := BuildMetas(x.secs);
    if meta.Err? { return Err(meta.error); }
    r := BuildFile(x, descs.value, meta.value);
  }

  /** macho.File: accumulates sections and serialises them. */
  class File {
    var cpuType: u32
    var buildVersion: bool
    var bvPlatform: u32
    var bvMinOS: u32
    var bvSDK: u32
    var sections: seq<Section>

    function InputOf(): Input
      reads this
    {
      Input(cpuType, if buildVersion then Some(BuildVersion(bvPlatform, bvMinOS, bvSDK)) else None, sections)
    }

    constructor (arm64: bool)
      ensures InputOf() == Input(if arm64 then CPU_ARM64 else CPU_X86_64, None, [])
    {
      sections, buildVersion := [], false;
      bvPlatform, bvMinOS, bvSDK := 0, 0, 0;
      if arm64 { cpuType := CPU_ARM64; } else { cpuType := CPU_X86_64; }
    }

    /** Requests LC_BUILD_VERSION; the SDK version is set to the minimum OS version. */
    method SetMinOS(platform: u32, major: u8, minor: u8)
      modifies this`buildVersion, this`bvPlatform, this`bvMinOS, this`bvSDK
      ensures var v := major * 0x1_0000 + minor * 0x100;
              InputOf() == old(InputOf()).(build := Some(BuildVersion(platform, v, v)))
    {
      VersionPacked(major, minor);
      buildVersion, bvPlatform := true, platform;
      bvMinOS := Or(Shl(major, 16), Shl(minor, 8));
      bvSDK := bvMinOS;
    }

    method AddSection(s: Section)
      modifies this`sections
      ensures InputOf() == old(InputOf()).(secs := old(sections) + [s])
    {
      sections := sections + [s];
    }

    /** Changes nothing, so that serialising again gives the same bytes. */
    method Serialize() returns (r: Result<seq<byte>, Error>)
      ensures r == Outcome(InputOf())
    {
      r := Build(InputOf());
    }
  }

  lemma VersionPacked(major: u8, minor: u8)
    ensures Or(Shl(major, 16), Shl(minor, 8)) == major * 0x1_0000 + minor * 0x100
  {
    Pow2Of8();
    Pow2Of16();
    ShlPow2(minor, 8);
    Packed(major, 16, Shl(minor, 8), 0x1_0000);
  }
}
