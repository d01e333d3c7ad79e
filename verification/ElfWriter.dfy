/** The ELF writer itself, phase by phase, each proved to compute its part of ElfSpec. */
module ElfWriter {
  import opened Bytes
  import opened Bits
  import opened Names
  import opened Objects
  import opened StringTable
  import opened Output
  import opened ElfFormat
  import opened ElfSpec

  // ------------------------------------------------------ phase 1: symbol table

  /** What the symbol loops keep: the symbols, the string table and the index are those of
      the rows appended so far, under the offsets the table has now. */
  ghost predicate Recorded(rows: seq<Row>, syms: seq<Sym>, t: StrTable, index: map<Name, nat>, start: nat) {
    && t == Sentinel.InternAll(RowNames(rows))
    && (forall i | 0 <= i < |rows| :: rows[i].name in t.offsets)
    && syms == Stamp(rows, t.offsets)
    && index == LastIndex(RowNames(rows), start)
  }

  lemma RowNamesSnoc(rows: seq<Row>, r: Row)
    ensures RowNames(rows + [r]) == RowNames(rows) + [r.name]
  {
  }

  /** Interning one more name leaves all earlier stamps valid. */
  lemma StampGrows(rows: seq<Row>, t: StrTable, r: Row)
    requires forall i | 0 <= i < |rows| :: rows[i].name in t.offsets
    ensures var u := t.Intern(r.name);
            && (forall i | 0 <= i < |rows + [r]| :: (rows + [r])[i].name in u.offsets)
            && Stamp(rows + [r], u.offsets)
               == Stamp(rows, t.offsets) + [Sym(u.offsets[r.name], r.info, r.shndx, r.value, r.size)]
  {
  }

  lemma RecordNamed(rows: seq<Row>, syms: seq<Sym>, t: StrTable, index: map<Name, nat>, start: nat, r: Row)
    requires Recorded(rows, syms, t, index, start) && start <= |rows|
    ensures var u := t.Intern(r.name);
            Recorded(rows + [r], syms + [Sym(u.offsets[r.name], r.info, r.shndx, r.value, r.size)], u,
                     index[r.name := |syms|], start)
  {
    RowNamesSnoc(rows, r);
    InternAllSnoc(Sentinel, RowNames(rows), r.name);
    StampGrows(rows, t, r);
    LastIndexSnoc(RowNames(rows), start, r.name);
  }

  lemma RecordAnonymous(rows: seq<Row>, syms: seq<Sym>, t: StrTable, index: map<Name, nat>, start: nat, r: Row)
    requires Recorded(rows, syms, t, index, start) && |rows| < start && r.name == []
    ensures Recorded(rows + [r], syms + [Sym(0, r.info, r.shndx, r.value, r.size)], t, index, start)
  {
    RowNamesSnoc(rows, r);
    InternAllSnoc(Sentinel, RowNames(rows), r.name);
    EmptyNameFirst(RowNames(rows));
    StampGrows(rows, t, r);
    LastIndexEmpty(RowNames(rows), start);
    LastIndexEmpty(RowNames(rows + [r]), start);
  }

  /** Appends a named symbol and points its name at it. */
  method AppendNamed(r: Row, syms: seq<Sym>, index: map<Name, nat>, strtab: StrTab, ghost rows: seq<Row>,
                     ghost start: nat)
    returns (syms': seq<Sym>, index': map<Name, nat>)
    requires Recorded(rows, syms, strtab.Value(), index, start) && start <= |rows|
    modifies strtab
    ensures Recorded(rows + [r], syms', strtab.Value(), index', start)
  {
    RecordNamed(rows, syms, strtab.Value(), index, start, r);
    var idx := |syms|;
    var off := strtab.Intern(r.name);
    syms' := syms + [Sym(off, r.info, r.shndx, r.value, r.size)];
    index' := index[r.name := idx];
  }

  lemma RecordHead(i: nat, syms: seq<Sym>, t: StrTable, start: nat)
    requires Recorded(HeadRows(i), syms, t, map[], start) && 1 + i < start
    ensures Recorded(HeadRows(i + 1), syms + [Sym(0, StInfo(STB_LOCAL, STT_SECTION), 1 + i, 0, 0)], t, map[], start)
  {
    RecordAnonymous(HeadRows(i), syms, t, map[], start, SectionRow(i));
  }

  method HeadSymbols(secs: seq<Section>, strtab: StrTab) returns (syms: seq<Sym>)
    requires strtab.Value() == Sentinel
    ensures Recorded(HeadRows(|secs|), syms, strtab.Value(), map[], 1 + |secs|)
  {
    var start := 1 + |secs|;
    assert Recorded([], [], Sentinel, map[], start);
    RecordAnonymous([], [], Sentinel, map[], start, NullRow);
    syms := [Sym(0, 0, 0, 0, 0)];
    for i := 0 to |secs|
      invariant Recorded(HeadRows(i), syms, strtab.Value(), map[], start)
    {
      RecordHead(i, syms, strtab.Value(), start);
      syms := syms + [Sym(0, StInfo(STB_LOCAL, STT_SECTION), 1 + i, 0, 0)];
    }
  }

  lemma AppendRow(a: seq<Row>, b: seq<Row>, r: Row)
    ensures a + b + [r] == a + (b + [r])
    ensures a + b + [] == a + b
  {
  }

  lemma LocalRowsSnoc(ds: seq<Def>, d: Def)
    ensures LocalRows(ds + [d]) == LocalRows(ds) + if IsLocal(d) then [DefRow(d)] else []
  {
    assert (ds + [d])[..|ds|] == ds;
  }

  lemma ExportedRowsSnoc(ds: seq<Def>, d: Def)
    ensures ExportedRows(ds + [d]) == ExportedRows(ds) + if IsExported(d) then [DefRow(d)] else []
  {
    assert (ds + [d])[..|ds|] == ds;
  }

  /** Named local symbols, section by section; section-relative labels are skipped. */
  method LocalSymbols(secs: seq<Section>, strtab: StrTab, ghost base: seq<Row>, ghost start: nat, syms0: seq<Sym>,
                 index0: map<Name, nat>)
    returns (syms: seq<Sym>, index: map<Name, nat>)
    requires Recorded(base, syms0, strtab.Value(), index0, start) && start <= |base|
    modifies strtab
    ensures Recorded(base + LocalRows(AllDefs(secs)), syms, strtab.Value(), index, start)
  {
    syms, index := syms0, index0;
    ghost var rows: seq<Row> := [];
    assert base + rows == base;
    for i := 0 to |secs|
      invariant rows == LocalRows(Defs(secs, i, 0)) && Recorded(base + rows, syms, strtab.Value(), index, start)
    {
      for j := 0 to |secs[i].symbols|
        invariant rows == LocalRows(Defs(secs, i, j)) && Recorded(base + rows, syms, strtab.Value(), index, start)
      {
        var d := Def(i, secs[i].symbols[j]);
        LocalRowsSnoc(Defs(secs, i, j), d);
        if !IsLocal(d) { continue; }
        syms, index := AppendNamed(DefRow(d), syms, index, strtab, base + rows, start);
        AppendRow(base, rows, DefRow(d));
        rows := rows + [DefRow(d)];
      }
    }
  }

  /** Global and weak symbols, section by section. */
  method GlobalSymbols(secs: seq<Section>, strtab: StrTab, ghost base: seq<Row>, ghost start: nat, syms0: seq<Sym>,
                 index0: map<Name, nat>)
    returns (syms: seq<Sym>, index: map<Name, nat>)
    requires Recorded(base, syms0, strtab.Value(), index0, start) && start <= |base|
    modifies strtab
    ensures Recorded(base + ExportedRows(AllDefs(secs)), syms, strtab.Value(), index, start)
  {
    syms, index := syms0, index0;
    ghost var rows: seq<Row> := [];
    assert base + rows == base;
    for i := 0 to |secs|
      invariant rows == ExportedRows(Defs(secs, i, 0)) && Recorded(base + rows, syms, strtab.Value(), index, start)
    {
      for j := 0 to |secs[i].symbols|
        invariant rows == ExportedRows(Defs(secs, i, j)) && Recorded(base + rows, syms, strtab.Value(), index, start)
      {
        var d := Def(i, secs[i].symbols[j]);
        ExportedRowsSnoc(Defs(secs, i, j), d);
        if !IsExported(d) { continue; }
        syms, index := AppendNamed(DefRow(d), syms, index, strtab, base + rows, start);
        AppendRow(base, rows, DefRow(d));
        rows := rows + [DefRow(d)];
      }
    }
  }

  method ExternalSymbolRows(names: seq<Name>, strtab: StrTab, ghost base: seq<Row>, ghost start: nat, syms0: seq<Sym>,
                            index0: map<Name, nat>)
    returns (syms: seq<Sym>, index: map<Name, nat>)
    requires Recorded(base, syms0, strtab.Value(), index0, start) && start <= |base|
    modifies strtab
    ensures Recorded(base + ExternalRows(names), syms, strtab.Value(), index, start)
  {
    syms, index := syms0, index0;
    assert base + [] == base;
    for k := 0 to |names|
      invariant Recorded(base + ExternalRows(names[..k]), syms, strtab.Value(), index, start)
    {
      ghost var rows := ExternalRows(names[..k]);
      assert names[..k + 1][..k] == names[..k];
      syms, index := AppendNamed(ExternalRow(names[k]), syms, index, strtab, base + rows, start);
      AppendRow(base, rows, ExternalRow(names[k]));
    }
    assert names[..|names|] == names;
  }

  /** Phase 1.  The string-table offsets captured along the way are those of the final table. */
  method BuildSymbols(secs: seq<Section>, strtab: StrTab)
    returns (syms: seq<Sym>, index: map<Name, nat>, firstGlobal: nat)
    requires strtab.Value() == Sentinel
    modifies strtab
    ensures strtab.Value() == Strtab(secs)
    ensures syms == Syms(secs) && index == Index(secs) && firstGlobal == |LocalPart(secs)|
  {
    ghost var start := 1 + |secs|;
    syms := HeadSymbols(secs, strtab);
    index := map[];
    syms, index := LocalSymbols(secs, strtab, HeadRows(|secs|), start, syms, index);
    firstGlobal := |syms|;
    syms, index := GlobalSymbols(secs, strtab, LocalPart(secs), start, syms, index);
    var names := ExternalSymbols(secs, false);
    syms, index := ExternalSymbolRows(names, strtab, LocalPart(secs) + ExportedRows(AllDefs(secs)), start, syms, index);
  }

  /** The encoded symbol table. */
  method EncodeSymbols(c: Class, syms: seq<Sym>) returns (data: seq<byte>)
    ensures data == Table(SymRecords(c, syms))
  {
    var buf := new Buffer();
    ghost var recs := SymRecords(c, syms);
    for k := 0 to |syms|
      invariant buf.data == Table(recs[..k])
    {
      TableSnoc(recs, k);
      buf.Write(Join(SymRecord(c, syms[k])));
    }
    assert recs[..|syms|] == recs;
    data := buf.data;
  }

  // ------------------------------------------------- phase 2: relocation sections

  lemma {:induction false} FirstErrorSticks(machine: u16, index: map<Name, nat>, a: seq<Use>, b: seq<Use>)
    requires a <= b && FirstError(machine, index, a).Some?
    ensures FirstError(machine, index, b) == FirstError(machine, index, a)
    decreases |b|
  {
    if |a| < |b| { FirstErrorSticks(machine, index, a, b[..|b| - 1]); } else { assert a == b; }
  }

  /** The error at (i, j), if nothing failed before it, is the error of the whole phase. */
  lemma ErrorHere(machine: u16, index: map<Name, nat>, secs: seq<Section>, i: nat, j: nat)
    requires i < |secs| && j < |secs[i].relocs|
    requires FirstError(machine, index, Uses(secs, i, j)).None?
    ensures FirstError(machine, index, Uses(secs, i, j + 1)) == CheckUse(machine, index, Use(i, secs[i].relocs[j]))
    ensures CheckUse(machine, index, Use(i, secs[i].relocs[j])).Some? ==>
              FirstError(machine, index, AllUses(secs)) == CheckUse(machine, index, Use(i, secs[i].relocs[j]))
  {
    assert Uses(secs, i, j + 1)[..|Uses(secs, i, j)|] == Uses(secs, i, j);
    if CheckUse(machine, index, Use(i, secs[i].relocs[j])).Some? {
      UsesPrefix(secs, i, j + 1);
      FirstErrorSticks(machine, index, Uses(secs, i, j + 1), AllUses(secs));
    }
  }

  datatype RelaEntry = RelaEntry(contentIdx: nat, data: seq<byte>)

  /** work holds the encoded relocations of each relocated section among the first n. */
  ghost predicate WorkDone(x: Input, index: map<Name, nat>, work: seq<RelaEntry>, n: nat)
    requires n <= |x.secs|
  {
    && |work| == |Relocated(x.secs, n)|
    && forall j | 0 <= j < |work| :: EntryDone(x, index, work[j], Relocated(x.secs, n)[j])
  }

  ghost predicate EntryDone(x: Input, index: map<Name, nat>, e: RelaEntry, i: nat) {
    && i < |x.secs| && e.contentIdx == i && AllResolvable(x.machine, index, x.secs[i].relocs)
    && e.data == Table(RelaRecords(x.class_, x.machine, index, x.secs[i].relocs))
  }

  /** data holds the encoding of the first j relocations of rs. */
  ghost predicate Encoded(c: Class, machine: u16, index: map<Name, nat>, rs: seq<Reloc>, j: nat, data: seq<byte>)
    requires j <= |rs|
  {
    AllResolvable(machine, index, rs[..j]) && data == Table(RelaRecords(c, machine, index, rs[..j]))
  }

  lemma EncodedStep(c: Class, machine: u16, index: map<Name, nat>, rs: seq<Reloc>, j: nat, data: seq<byte>)
    requires j < |rs| && Encoded(c, machine, index, rs, j, data) && Resolvable(machine, index, rs[j])
    ensures Encoded(c, machine, index, rs, j + 1, data + Join(UseRecord(c, machine, index, rs[j])))
  {
    RelaRecordsPrefix(c, machine, index, rs, j);
    var recs := RelaRecords(c, machine, index, rs[..j + 1]);
    TableSnoc(recs, j);
    assert recs[..j + 1] == recs;
  }

  lemma RelaRecordsPrefix(c: Class, machine: u16, index: map<Name, nat>, rs: seq<Reloc>, j: nat)
    requires j < |rs| && AllResolvable(machine, index, rs[..j]) && Resolvable(machine, index, rs[j])
    ensures AllResolvable(machine, index, rs[..j + 1])
    ensures RelaRecords(c, machine, index, rs[..j + 1])[..j] == RelaRecords(c, machine, index, rs[..j])
    ensures RelaRecords(c, machine, index, rs[..j + 1])[j] == UseRecord(c, machine, index, rs[j])
  {
    assert rs[..j + 1] == rs[..j] + [rs[j]];
    var shorter, longer := RelaRecords(c, machine, index, rs[..j]), RelaRecords(c, machine, index, rs[..j + 1]);
    forall k | 0 <= k < j ensures longer[k] == shorter[k] { assert rs[..j + 1][k] == rs[..j][k]; }
    assert longer[..j] == shorter;
  }

  /** One relocation. */
  method EncodeReloc(c: Class, machine: u16, index: map<Name, nat>, i: nat, rel: Reloc)
    returns (r: Result<seq<byte>, Error>)
    ensures r.Err? ==> CheckUse(machine, index, Use(i, rel)) == Some(r.error)
    ensures r.Ok? ==> CheckUse(machine, index, Use(i, rel)).None? && r.value == Join(UseRecord(c, machine, index, rel))
  {
    if rel.symbol !in index { return Err(MissingSymbol(i, rel.symbol)); }
    var rtype := RelocType(machine, rel.kind);
    if rtype.None? { return Err(UnsupportedReloc(i, rel.kind)); }
    r := Ok(Join(RelaRecord(c, rel.offset, RInfo(c, index[rel.symbol], rtype.value), rel.addend)));
  }

  /** One section's relocations, or the first error among them. */
  method EncodeRelocs(x: Input, index: map<Name, nat>, i: nat) returns (r: Result<seq<byte>, Error>)
    requires i < |x.secs| && FirstError(x.machine, index, Uses(x.secs, i, 0)).None?
    ensures r.Err? ==> FirstError(x.machine, index, AllUses(x.secs)) == Some(r.error)
    ensures r.Ok? ==> FirstError(x.machine, index, Uses(x.secs, i + 1, 0)).None?
    ensures r.Ok? ==> EntryDone(x, index, RelaEntry(i, r.value), i)
  {
    var rs := x.secs[i].relocs;
    var buf := new Buffer();
    for j := 0 to |rs|
      invariant Encoded(x.class_, x.machine, index, rs, j, buf.data)
      invariant FirstError(x.machine, index, Uses(x.secs, i, j)).None?
    {
      ErrorHere(x.machine, index, x.secs, i, j);
      var rec := EncodeReloc(x.class_, x.machine, index, i, rs[j]);
      if rec.Err? { return rec; }
      EncodedStep(x.class_, x.machine, index, rs, j, buf.data);
      buf.Write(rec.value);
    }
    assert rs[..|rs|] == rs;
    r := Ok(buf.data);
  }

  lemma WorkStep(x: Input, index: map<Name, nat>, work: seq<RelaEntry>, n: nat, e: RelaEntry)
    requires n < |x.secs| && WorkDone(x, index, work, n)
    ensures x.secs[n].relocs == [] ==> WorkDone(x, index, work, n + 1)
    ensures x.secs[n].relocs != [] && EntryDone(x, index, e, n) ==> WorkDone(x, index, work + [e], n + 1)
  {
  }

  method BuildRelas(x: Input, index: map<Name, nat>) returns (r: Result<seq<RelaEntry>, Error>)
    ensures r.Err? ==> FirstError(x.machine, index, AllUses(x.secs)) == Some(r.error)
    ensures r.Ok? ==> FirstError(x.machine, index, AllUses(x.secs)).None? && WorkDone(x, index, r.value, |x.secs|)
  {
    var work: seq<RelaEntry> := [];
    for i := 0 to |x.secs|
      invariant WorkDone(x, index, work, i)
      invariant FirstError(x.machine, index, Uses(x.secs, i, 0)).None?
    {
      if |x.secs[i].relocs| == 0 {
        WorkStep(x, index, work, i, RelaEntry(i, []));
        continue;
      }
      var data := EncodeRelocs(x, index, i);
      if data.Err? { return Err(data.error); }
      WorkStep(x, index, work, i, RelaEntry(i, data.value));
      work := work + [RelaEntry(i, data.value)];
    }
    r := Ok(work);
  }

  // --------------------------------------------- phase 3: section descriptor list

  lemma WorkIds(x: Input, index: map<Name, nat>, work: seq<RelaEntry>)
    requires WorkDone(x, index, work, |x.secs|)
    ensures |work| == |Relocated(x.secs, |x.secs|)|
    ensures forall j | 0 <= j < |work| :: work[j].contentIdx == Relocated(x.secs, |x.secs|)[j]
  {
    forall j | 0 <= j < |work| ensures work[j].contentIdx == Relocated(x.secs, |x.secs|)[j] {
      assert EntryDone(x, index, work[j], Relocated(x.secs, |x.secs|)[j]);
    }
  }

  /** relaIdxFor: content section index to position in the relocation work list. */
  method IndexRelas(secs: seq<Section>, work: seq<RelaEntry>) returns (m: map<nat, nat>)
    requires |work| == |Relocated(secs, |secs|)|
    requires forall j | 0 <= j < |work| :: work[j].contentIdx == Relocated(secs, |secs|)[j]
    ensures RelaIndex(secs, m)
  {
    m := map[];
    for j := 0 to |work|
      invariant forall k | 0 <= k < j :: work[k].contentIdx in m && m[work[k].contentIdx] == k
      invariant forall i | i in m :: i < |secs| && secs[i].relocs != []
    {
      RelocatedOnly(secs, |secs|, j);
      forall k | 0 <= k < j ensures work[k].contentIdx != work[j].contentIdx { RelocatedOnly(secs, |secs|, k); }
      m := m[work[j].contentIdx := j];
    }
    forall i | 0 <= i < |secs| && secs[i].relocs != [] ensures i in m && m[i] == |Relocated(secs, i)| {
      RelocatedIndex(secs, |secs|, i);
      assert work[|Relocated(secs, i)|].contentIdx in m;
    }
  }

  ghost predicate RelaIndex(secs: seq<Section>, m: map<nat, nat>) {
    forall i: nat | i < |secs| :: RelaIndexAt(secs, m, i)
  }

  ghost predicate RelaIndexAt(secs: seq<Section>, m: map<nat, nat>, i: nat)
    requires i < |secs|
  {
    (i in m <==> secs[i].relocs != []) && (i in m ==> m[i] == |Relocated(secs, i)|)
  }

  function MemberList(contentIdx: nat, relaIdxFor: map<nat, nat>, i: nat, nContent: nat): seq<nat> {
    [contentIdx] + if i in relaIdxFor then [1 + nContent + relaIdxFor[i]] else []
  }

  lemma MembersAre(secs: seq<Section>, m: map<nat, nat>, i: nat)
    requires i < |secs| && RelaIndexAt(secs, m, i)
    ensures MemberList(1 + i, m, i, |secs|) == GroupMembers(secs, i)
  {
  }

  /** buildGroupData: the GRP_COMDAT flag word, then the members, written in place. */
  method BuildGroupData(contentIdx: nat, relaIdxFor: map<nat, nat>, i: nat, nContent: nat) returns (data: seq<byte>)
    ensures data == WordList([1] + MemberList(contentIdx, relaIdxFor, i, nContent))
  {
    var members := [contentIdx];
    if i in relaIdxFor {
      members := members + [1 + nContent + relaIdxFor[i]];
    }
    ghost var ws := [1] + members;
    var a := new byte[4 * (1 + |members|)](_ => 0);
    PutLE(a, 0, 4, 1);
    WordListSnoc(ws, 0);
    WordListSnoc(ws, 1);
    assert a[..4] == LE(4, 1);
    for k := 0 to |members|
      invariant a[..4 + k * 4] == WordList(ws[..1 + k])
    {
      PutLE(a, 4 + k * 4, 4, members[k]);
      assert a[..4 + k * 4 + 4] == a[..4 + k * 4] + a[4 + k * 4..4 + k * 4 + 4];
      WordListSnoc(ws, 2 + k);
    }
    assert ws[..1 + |members|] == ws;
    data := a[..];
    assert data == a[..4 + |members| * 4];
    assert members == MemberList(contentIdx, relaIdxFor, i, nContent);
  }

  lemma WordListSnoc(ws: seq<nat>, k: nat)
    requires k <= |ws|
    ensures k == 0 ==> WordList(ws[..k]) == []
    ensures k > 0 ==> WordList(ws[..k]) == WordList(ws[..k - 1]) + LE(4, ws[k - 1])
  {
    if k > 0 { assert ws[..k][..k - 1] == ws[..k - 1]; }
  }

  /** comdatSig: the first global or weak symbol that is in the index. */
  method FindComdatSig(s: Section, index: map<Name, nat>, i: nat) returns (r: Result<nat, Error>)
    ensures ComdatSig(s.symbols, index).Some? ==> r == Ok(ComdatSig(s.symbols, index).value)
    ensures ComdatSig(s.symbols, index).None? ==> r == Err(NoComdatSignature(i))
  {
    for j := 0 to |s.symbols|
      invariant ComdatSig(s.symbols[j..], index) == ComdatSig(s.symbols, index)
    {
      assert s.symbols[j..][1..] == s.symbols[j + 1..];
      var sym := s.symbols[j];
      if sym.binding == Global || sym.binding == Weak {
        if sym.name in index {
          return Ok(index[sym.name]);
        }
      }
    }
    r := Err(NoComdatSignature(i));
  }

  /** The per-kind table of types, flags, alignments and contents. */
  method DescribeContent(c: Class, s: Section) returns (d: SecDesc)
    ensures d == ContentDesc(c, s)
  {
    d := SecDesc(SectionName(s), SHT_PROGBITS, 0, 0, 0, Word(c), 0, s.code, 0, 0);
    match s.kind {
      case Text => d := d.(flags := SHF_ALLOC + SHF_EXECINSTR, align := 16);
      case Data => d := d.(flags := SHF_ALLOC + SHF_WRITE);
      case ROData => d := d.(flags := SHF_ALLOC);
      case BSS => d := d.(shType := SHT_NOBITS, flags := SHF_ALLOC + SHF_WRITE, data := [], noSize := VSize(s));
      case Unwind => d := d.(flags := SHF_ALLOC);
      case InitArray => d := d.(shType := SHT_INIT_ARRAY, flags := SHF_ALLOC + SHF_WRITE);
      case FiniArray => d := d.(shType := SHT_FINI_ARRAY, flags := SHF_ALLOC + SHF_WRITE);
      case TLS =>
        d := d.(flags := SHF_ALLOC + SHF_WRITE + SHF_TLS);
        if |s.code| == 0 {
          d := d.(shType := SHT_NOBITS, data := [], noSize := VSize(s));
        }
      case Custom => d := d.(flags := SHF_ALLOC);
    }
    if s.align > 0 {
      d := d.(align := s.align);
    }
  }

  /** The name table is that of the descriptors appended so far. */
  ghost predicate Named(descs: seq<SecDesc>, t: StrTable) {
    t == Sentinel.InternAll(DescNames(descs))
  }

  method AppendDesc(descs: seq<SecDesc>, d: SecDesc, shstrtab: StrTab) returns (descs': seq<SecDesc>)
    requires Named(descs, shstrtab.Value())
    modifies shstrtab
    ensures descs' == descs + [d] && Named(descs', shstrtab.Value())
  {
    assert DescNames(descs + [d]) == DescNames(descs) + [d.name];
    InternAllSnoc(Sentinel, DescNames(descs), d.name);
    var _ := shstrtab.Intern(d.name);
    descs' := descs + [d];
  }

  method AppendContent(x: Input, descs0: seq<SecDesc>, shstrtab: StrTab) returns (descs: seq<SecDesc>)
    requires Named(descs0, shstrtab.Value())
    modifies shstrtab
    ensures descs == descs0 + ContentDescs(x.class_, x.secs, |x.secs|) && Named(descs, shstrtab.Value())
  {
    descs := descs0;
    for i := 0 to |x.secs|
      invariant descs == descs0 + ContentDescs(x.class_, x.secs, i) && Named(descs, shstrtab.Value())
    {
      var d := DescribeContent(x.class_, x.secs[i]);
      assert ContentDescs(x.class_, x.secs, i + 1) == ContentDescs(x.class_, x.secs, i) + [d];
      descs := AppendDesc(descs, d, shstrtab);
    }
  }

  method DescribeRela(x: Input, index: map<Name, nat>, e: RelaEntry, ghost j: nat, ghost work: seq<RelaEntry>)
    returns (d: SecDesc)
    requires WorkDone(x, index, work, |x.secs|) && j < |work| && e == work[j]
    requires forall i | 0 <= i < |x.secs| :: AllResolvable(x.machine, index, x.secs[i].relocs)
    ensures j < |RelaDescs(x, index, |x.secs|)| && d == RelaDescs(x, index, |x.secs|)[j]
  {
    assert EntryDone(x, index, e, Relocated(x.secs, |x.secs|)[j]);
    d := SecDesc(RelaName(x.secs[e.contentIdx]), SHT_RELA, SHF_INFO_LINK, SymtabIdx(x), 1 + e.contentIdx,
                 Word(x.class_), RelaSize(x.class_), e.data, 0, 0);
  }

  method AppendRelas(x: Input, index: map<Name, nat>, work: seq<RelaEntry>, descs0: seq<SecDesc>, shstrtab: StrTab)
    returns (descs: seq<SecDesc>)
    requires WorkDone(x, index, work, |x.secs|) && Named(descs0, shstrtab.Value())
    requires forall i | 0 <= i < |x.secs| :: AllResolvable(x.machine, index, x.secs[i].relocs)
    modifies shstrtab
    ensures descs == descs0 + RelaDescs(x, index, |x.secs|) && Named(descs, shstrtab.Value())
  {
    ghost var all := RelaDescs(x, index, |x.secs|);
    WorkIds(x, index, work);
    descs := descs0;
    for j := 0 to |work|
      invariant descs == descs0 + all[..j] && Named(descs, shstrtab.Value())
    {
      var d := DescribeRela(x, index, work[j], j, work);
      descs := AppendDesc(descs, d, shstrtab);
      AppendDescs(descs0, all, j);
    }
    assert all[..|work|] == all;
  }

  lemma AppendDescs(a: seq<SecDesc>, b: seq<SecDesc>, j: nat)
    requires j < |b|
    ensures a + b[..j + 1] == a + b[..j] + [b[j]]
  {
  }

  lemma {:induction false} ComdatErrorSticks(secs: seq<Section>, index: map<Name, nat>, i: nat, n: nat)
    requires i <= n <= |secs| && ComdatError(secs, index, i).Some?
    ensures ComdatError(secs, index, n) == ComdatError(secs, index, i)
  {
    if i < n { ComdatErrorSticks(secs, index, i, n - 1); }
  }

  lemma GroupDescsSnoc(x: Input, index: map<Name, nat>, i: nat)
    requires i < |x.secs| && ComdatError(x.secs, index, i + 1).None?
    ensures forall k | 0 <= k < i + 1 && x.secs[k].linkOnce :: ComdatSig(x.secs[k].symbols, index).Some?
    ensures GroupDescs(x, index, i + 1) ==
            GroupDescs(x, index, i) + if x.secs[i].linkOnce then [GroupDesc(x.secs, index, i, SymtabIdx(x))] else []
  {
    ComdatErrorFree(x.secs, index, i + 1);
  }

  method DescribeGroup(x: Input, index: map<Name, nat>, i: nat, relaIdxFor: map<nat, nat>)
    returns (r: Result<SecDesc, Error>)
    requires i < |x.secs| && x.secs[i].linkOnce && RelaIndex(x.secs, relaIdxFor)
    ensures ComdatSig(x.secs[i].symbols, index).Some? ==> r == Ok(GroupDesc(x.secs, index, i, SymtabIdx(x)))
    ensures ComdatSig(x.secs[i].symbols, index).None? ==> r == Err(NoComdatSignature(i))
  {
    var sig := FindComdatSig(x.secs[i], index, i);
    match sig {
      case Err(e) => return Err(e);
      case Ok(sigIdx) =>
        var data := BuildGroupData(1 + i, relaIdxFor, i, |x.secs|);
        assert RelaIndexAt(x.secs, relaIdxFor, i);
        MembersAre(x.secs, relaIdxFor, i);
        r := Ok(GroupDescWith(SymtabIdx(x), sigIdx, data));
    }
  }

  /** One COMDAT group per link-once section, or the first failure to find a signature. */
  method AppendGroups(x: Input, index: map<Name, nat>, relaIdxFor: map<nat, nat>, descs0: seq<SecDesc>,
                      shstrtab: StrTab)
    returns (r: Result<seq<SecDesc>, Error>)
    requires RelaIndex(x.secs, relaIdxFor) && Named(descs0, shstrtab.Value())
    modifies shstrtab
    ensures r.Err? ==> ComdatError(x.secs, index, |x.secs|) == Some(r.error)
    ensures r.Ok? ==> ComdatError(x.secs, index, |x.secs|).None?
    ensures r.Ok? ==> GroupsDone(x, index, descs0, r.value, |x.secs|) && Named(r.value, shstrtab.Value())
  {
    var descs := descs0;
    assert descs0 + GroupDescs(x, index, 0) == descs0;
    for i := 0 to |x.secs|
      invariant ComdatError(x.secs, index, i).None?
      invariant GroupsDone(x, index, descs0, descs, i) && Named(descs, shstrtab.Value())
    {
      if !x.secs[i].linkOnce {
        GroupStep(x, index, descs0, descs, i);
        continue;
      }
      var d := DescribeGroup(x, index, i, relaIdxFor);
      match d {
        case Err(e) =>
          ComdatErrorSticks(x.secs, index, i + 1, |x.secs|);
          return Err(e);
        case Ok(g) =>
          GroupStep(x, index, descs0, descs, i);
          descs := AppendDesc(descs, g, shstrtab);
      }
    }
    r := Ok(descs);
  }

  ghost predicate GroupsDone(x: Input, index: map<Name, nat>, descs0: seq<SecDesc>, descs: seq<SecDesc>, i: nat) {
    && i <= |x.secs|
    && (forall k | 0 <= k < i && x.secs[k].linkOnce :: ComdatSig(x.secs[k].symbols, index).Some?)
    && descs == descs0 + GroupDescs(x, index, i)
  }

  lemma GroupStep(x: Input, index: map<Name, nat>, descs0: seq<SecDesc>, descs: seq<SecDesc>, i: nat)
    requires i < |x.secs| && GroupsDone(x, index, descs0, descs, i)
    requires ComdatError(x.secs, index, i).None?
    requires x.secs[i].linkOnce ==> ComdatSig(x.secs[i].symbols, index).Some?
    ensures ComdatError(x.secs, index, i + 1).None?
    ensures GroupsDone(x, index, descs0,
                       descs + (if x.secs[i].linkOnce then [GroupDesc(x.secs, index, i, SymtabIdx(x))] else []), i + 1)
  {
    GroupDescsSnoc(x, index, i);
  }

  method CountGroups(secs: seq<Section>) returns (n: nat)
    ensures n == |LinkOnce(secs, |secs|)|
  {
    n := 0;
    for i := 0 to |secs|
      invariant n == |LinkOnce(secs, i)|
    {
      if secs[i].linkOnce { n := n + 1; }
    }
  }

  /** .note.GNU-stack, .symtab, .strtab and .shstrtab; the last captures the name table
      only after its own name has gone in. */
  method AppendTail(gnuStack: bool, symtab: SecDesc, strtab: SecDesc, descs0: seq<SecDesc>, shstrtab: StrTab)
    returns (descs: seq<SecDesc>)
    requires Named(descs0, shstrtab.Value())
    modifies shstrtab
    ensures descs == Closed(WithTail(descs0, gnuStack, symtab, strtab))
    ensures shstrtab.Value() == NameTable(WithTail(descs0, gnuStack, symtab, strtab))
  {
    descs := descs0;
    assert descs0 + [] == descs0;
    if gnuStack {
      descs := AppendDesc(descs, NoteDesc, shstrtab);
    }
    descs := AppendDesc(descs, symtab, shstrtab);
    descs := AppendDesc(descs, strtab, shstrtab);
    InternAllSnoc(Sentinel, DescNames(descs), Ascii(".shstrtab"));
    var _ := shstrtab.Intern(Ascii(".shstrtab"));
    descs := descs + [StrtabDesc(Ascii(".shstrtab"), shstrtab.data)];
  }

  /** The null, content, relocation and group descriptors. */
  method BuildLists(x: Input, index: map<Name, nat>, work: seq<RelaEntry>, shstrtab: StrTab)
    returns (r: Result<seq<SecDesc>, Error>)
    requires forall i | 0 <= i < |x.secs| :: AllResolvable(x.machine, index, x.secs[i].relocs)
    requires WorkDone(x, index, work, |x.secs|) && shstrtab.Value() == Sentinel
    modifies shstrtab
    ensures r.Err? ==> ComdatError(x.secs, index, |x.secs|) == Some(r.error)
    ensures r.Ok? ==> ComdatError(x.secs, index, |x.secs|).None? && Named(r.value, shstrtab.Value())
    ensures r.Ok? ==> GroupsDone(x, index, [NullDesc] + ContentDescs(x.class_, x.secs, |x.secs|)
                                           + RelaDescs(x, index, |x.secs|), r.value, |x.secs|)
  {
    WorkIds(x, index, work);
    var relaIdxFor := IndexRelas(x.secs, work);
    NameTableStart();
    var _ := shstrtab.Intern([]);
    var descs := [NullDesc];
    descs := AppendContent(x, descs, shstrtab);
    descs := AppendRelas(x, index, work, descs, shstrtab);
    r := AppendGroups(x, index, relaIdxFor, descs, shstrtab);
  }

  /** lists is everything before the tail. */
  ghost predicate ListsGiven(x: Input, index: map<Name, nat>, lists: seq<SecDesc>) {
    && (forall i | 0 <= i < |x.secs| :: AllResolvable(x.machine, index, x.secs[i].relocs))
    && GroupsDone(x, index, [NullDesc] + ContentDescs(x.class_, x.secs, |x.secs|) + RelaDescs(x, index, |x.secs|),
                  lists, |x.secs|)
  }

  function WithTail(lists: seq<SecDesc>, gnuStack: bool, symtab: SecDesc, strtab: SecDesc): (ds: seq<SecDesc>)
    ensures |ds| >= |lists| + 2
    ensures |lists| > 0 ==> ds[0] == lists[0]
  {
    lists + NoteDescs(gnuStack) + [symtab] + [strtab]
  }

  function BodyFrom(x: Input, lists: seq<SecDesc>, syms: seq<Sym>, firstGlobal: nat,
      strtabData: seq<byte>): seq<SecDesc> {
    WithTail(lists, x.gnuStack, SymtabDesc(x.class_, syms, SymtabIdx(x) + 1, firstGlobal),
             StrtabDesc(Ascii(".strtab"), strtabData))
  }

  lemma BodyIs(x: Input, lists: seq<SecDesc>)
    requires Buildable(x) && ListsGiven(x, Index(x.secs), lists)
    ensures BodyFrom(x, lists, Syms(x.secs), |LocalPart(x.secs)|, Strtab(x.secs).data) == Body(x)
  {
  }

  method BuildSymtabDesc(x: Input, syms: seq<Sym>, nRela: nat, firstGlobal: nat) returns (d: SecDesc)
    requires nRela == |Relocated(x.secs, |x.secs|)|
    ensures d == SymtabDesc(x.class_, syms, SymtabIdx(x) + 1, firstGlobal)
  {
    var nGroup := CountGroups(x.secs);
    var symtabIdx := 1 + |x.secs| + nRela + nGroup + if x.gnuStack then 1 else 0;
    var data := EncodeSymbols(x.class_, syms);
    d := SecDesc(Ascii(".symtab"), SHT_SYMTAB, 0, symtabIdx + 1, firstGlobal, Word(x.class_), SymSize(x.class_),
        data, 0, 0);
  }

  method FinishDescs(x: Input, syms: seq<Sym>, firstGlobal: nat, strtabData: seq<byte>, nRela: nat,
                     lists: seq<SecDesc>, shstrtab: StrTab)
    returns (ds: seq<SecDesc>)
    requires nRela == |Relocated(x.secs, |x.secs|)| && Named(lists, shstrtab.Value())
    modifies shstrtab
    ensures ds == Closed(BodyFrom(x, lists, syms, firstGlobal, strtabData))
    ensures shstrtab.Value() == NameTable(BodyFrom(x, lists, syms, firstGlobal, strtabData))
  {
    var symtab := BuildSymtabDesc(x, syms, nRela, firstGlobal);
    ds := AppendTail(x.gnuStack, symtab, StrtabDesc(Ascii(".strtab"), strtabData), lists, shstrtab);
  }

  /** Phase 3. */
  method BuildDescs(x: Input, syms: seq<Sym>, index: map<Name, nat>, firstGlobal: nat, strtabData: seq<byte>,
                    work: seq<RelaEntry>, shstrtab: StrTab)
    returns (r: Result<seq<SecDesc>, Error>, ghost lists: seq<SecDesc>)
    requires forall i | 0 <= i < |x.secs| :: AllResolvable(x.machine, index, x.secs[i].relocs)
    requires WorkDone(x, index, work, |x.secs|) && shstrtab.Value() == Sentinel
    modifies shstrtab
    ensures r.Err? ==> ComdatError(x.secs, index, |x.secs|) == Some(r.error)
    ensures r.Ok? ==> ComdatError(x.secs, index, |x.secs|).None? && ListsGiven(x, index, lists)
    ensures r.Ok? ==> r.value == Closed(BodyFrom(x, lists, syms, firstGlobal, strtabData))
    ensures r.Ok? ==> shstrtab.Value() == NameTable(BodyFrom(x, lists, syms, firstGlobal, strtabData))
  {
    r := BuildLists(x, index, work, shstrtab);
    lists := [];
    if r.Ok? {
      lists := r.value;
      var all := FinishDescs(x, syms, firstGlobal, strtabData, |work|, r.value, shstrtab);
      r := Ok(all);
    }
  }

  lemma NameTableStart()
    ensures Named([NullDesc], Sentinel.Intern([]))
  {
    InternAllSnoc(Sentinel, [], []);
    assert DescNames([NullDesc]) == [] + [[]];
  }

  // -------------------------------------------------------- phase 4: file offsets

  /** The descriptors of descs0 with their predicted offsets filled in. */
  ghost predicate Assigned(c: Class, descs0: seq<SecDesc>, descs: seq<SecDesc>) {
    |descs| == |descs0| && forall k | 0 <= k < |descs| :: descs[k] == descs0[k].(fileOff := FileOff(c, descs0, k))
  }

  /** The offset of one descriptor and the position behind it: sections without file bytes
      are aligned but take no space, empty ones are not even aligned. */
  method PlaceDesc(c: Class, ghost descs0: seq<SecDesc>, ghost i: nat, d: SecDesc, pos0: nat)
    returns (off: nat, pos: nat)
    requires 0 < i < |descs0| && d == descs0[i] && pos0 == Pos(c, descs0, i)
    ensures off == FileOff(c, descs0, i) && pos == Pos(c, descs0, i + 1)
  {
    pos := pos0;
    if d.shType == SHT_NOBITS {
      pos := AlignUp(pos, d.align);
      off := pos;
    } else if |d.data| == 0 {
      off := pos;
    } else {
      pos := AlignUp(pos, d.align);
      off := pos;
      pos := pos + |d.data|;
    }
  }

  /** Assigns fileOff in place and returns the offset of the section header table. */
  method AssignOffsets(c: Class, descs0: seq<SecDesc>) returns (descs: seq<SecDesc>, shoff: nat)
    requires |descs0| > 0 && descs0[0].fileOff == 0
    ensures Assigned(c, descs0, descs) && shoff == Shoff(c, descs0)
  {
    descs := descs0;
    var pos := EhdrSize(c);
    for i := 1 to |descs0|
      invariant |descs| == |descs0| && pos == Pos(c, descs0, i)
      invariant forall k | 0 <= k < i :: descs[k] == descs0[k].(fileOff := FileOff(c, descs0, k))
      invariant forall k | i <= k < |descs| :: descs[k] == descs0[k]
    {
      var off;
      off, pos := PlaceDesc(c, descs0, i, descs[i], pos);
      descs := descs[i := descs[i].(fileOff := off)];
    }
    shoff := AlignUp(pos, Word(c));
  }

  // ----------------------------------------------------------- phase 5: serialise

  lemma PlacementsStep(c: Class, ds: seq<SecDesc>, i: nat, b: seq<byte>)
    requires 1 <= i < |ds|
    ensures Emit(b, Placements(c, ds, i + 1)) ==
            if HasBytes(ds[i]) then PadTo(Emit(b, Placements(c, ds, i)), FileOff(c, ds, i)) + ds[i].data
            else Emit(b, Placements(c, ds, i))
  {
    if HasBytes(ds[i]) {
      EmitSnoc(b, Placements(c, ds, i), Placement(FileOff(c, ds, i), ds[i].data));
    } else {
      assert Placements(c, ds, i + 1) == Placements(c, ds, i);
    }
  }

  method WriteContents(c: Class, descs: seq<SecDesc>, ghost descs0: seq<SecDesc>, out: Buffer)
    requires Assigned(c, descs0, descs) && |descs| > 0
    modifies out
    ensures out.data == Emit(old(out.data), Placements(c, descs0, |descs0|))
  {
    for i := 1 to |descs|
      invariant out.data == Emit(old(out.data), Placements(c, descs0, i))
    {
      PlacementsStep(c, descs0, i, old(out.data));
      if descs[i].shType == SHT_NOBITS || |descs[i].data| == 0 { continue; }
      out.Place(Placement(descs[i].fileOff, descs[i].data));
    }
  }

  /** Writes header i; the null header is all zeros. */
  method WriteHeader(c: Class, descs: seq<SecDesc>, ghost descs0: seq<SecDesc>, names: map<Name, nat>, i: nat,
                     out: Buffer)
    requires Assigned(c, descs0, descs) && i < |descs| && descs[0] == NullDesc
    requires descs[0].name in names && names[descs[0].name] == 0
    requires descs0[i].name in names
    modifies out
    ensures out.data == old(out.data) + Join(HeaderRecord(c, descs0, names, i))
  {
    var sh := ShdrRecord(c, NullDesc, 0);
    if i > 0 {
      sh := ShdrRecord(c, descs[i], names[descs[i].name]);
    }
    assert sh == HeaderRecord(c, descs0, names, i);
    out.Write(Join(sh));
  }

  method WriteHeaders(c: Class, descs: seq<SecDesc>, ghost descs0: seq<SecDesc>, names: map<Name, nat>, out: Buffer)
    requires Assigned(c, descs0, descs) && |descs| > 0 && descs[0] == NullDesc
    requires forall k | 0 <= k < |descs0| :: descs0[k].name in names
    requires names[descs[0].name] == 0
    modifies out
    ensures out.data == old(out.data) + Table(HeaderRecords(c, descs0, names))
  {
    ghost var start, recs := out.data, HeaderRecords(c, descs0, names);
    assert start + [] == start;
    for i := 0 to |descs|
      invariant out.data == start + Table(recs[..i])
    {
      TableGrows(start, recs, i);
      WriteHeader(c, descs, descs0, names, i, out);
    }
    assert recs[..|descs|] == recs;
  }

  method WriteFileHeader(c: Class, osabi: u8, machine: u16, ghost descs0: seq<SecDesc>, n: nat, shoff: nat,
                         shstrtab: nat)
    returns (out: Buffer)
    requires n == |descs0| && shoff == Shoff(c, descs0)
    ensures fresh(out) && out.data == Join(FileHeader(c, osabi, machine, descs0, shstrtab))
  {
    out := new Buffer();
    out.Write(Join(EhdrRecord(c, osabi, machine, shoff, n, shstrtab)));
  }

  /** Phases 4 and 5. */
  method Serialise(c: Class, osabi: u8, machine: u16, descs0: seq<SecDesc>, names: map<Name, nat>, shstrtab: nat)
    returns (b: seq<byte>)
    requires |descs0| > 0 && descs0[0] == NullDesc
    requires forall k | 0 <= k < |descs0| :: descs0[k].name in names
    requires names[descs0[0].name] == 0
    ensures b == FileOf(c, Join(FileHeader(c, osabi, machine, descs0, shstrtab)), descs0, names)
  {
    var descs, shoff := AssignOffsets(c, descs0);
    var out := WriteFileHeader(c, osabi, machine, descs0, |descs|, shoff, shstrtab);
    ghost var header := out.data;
    WriteContents(c, descs, descs0, out);
    out.PadTo(shoff);
    WriteHeaders(c, descs, descs0, names, out);
    EmitSnoc(header, Placements(c, descs0, |descs0|), Placement(shoff, Table(HeaderRecords(c, descs0, names))));
    b := out.data;
  }

  /** What serialisation needs to know about a finished descriptor list. */
  lemma DescsReady(body: seq<SecDesc>)
    requires |body| > 0 && body[0] == NullDesc
    ensures Closed(body)[0] == NullDesc && [] in NameTable(body).offsets && NameTable(body).offsets[[]] == 0
    ensures forall k | 0 <= k < |Closed(body)| :: Closed(body)[k].name in NameTable(body).offsets
  {
    ClosedNames(body);
    ClosedHead(body);
    NameTableHasNull(body);
  }

  // ------------------------------------------------------------------- the writer

  lemma ListsHead(x: Input, index: map<Name, nat>, lists: seq<SecDesc>)
    requires ListsGiven(x, index, lists)
    ensures |lists| > 0 && lists[0] == NullDesc
  {
  }

  lemma BodyHead(x: Input, lists: seq<SecDesc>, syms: seq<Sym>, firstGlobal: nat, strtabData: seq<byte>)
    requires |lists| > 0 && lists[0] == NullDesc
    ensures var body := BodyFrom(x, lists, syms, firstGlobal, strtabData);
            |body| > 0 && body[0] == NullDesc
  {
  }

  /** The index formula for .shstrtab gives the position it is appended at. */
  lemma ShstrtabIndex(x: Input, index: map<Name, nat>, lists: seq<SecDesc>, syms: seq<Sym>, firstGlobal: nat,
                      strtabData: seq<byte>)
    requires ListsGiven(x, index, lists)
    ensures |BodyFrom(x, lists, syms, firstGlobal, strtabData)| == SymtabIdx(x) + 2
  {
  }

  /** Phases 4 and 5 for a finished list. */
  method SerialiseBody(x: Input, ghost body: seq<SecDesc>, descs: seq<SecDesc>, names: map<Name, nat>, shstrtab: nat)
    returns (b: seq<byte>)
    requires |body| > 0 && body[0] == NullDesc && shstrtab == |body|
    requires descs == Closed(body) && names == NameTable(body).offsets
    ensures b == FileFrom(x, body)
  {
    DescsReady(body);
    b := Serialise(x.class_, x.osabi, x.machine, descs, names, shstrtab);
  }

  /** Phases 2 to 5, for whatever symbol tables phase 1 produced. */
  method BuildFile(x: Input, syms: seq<Sym>, index: map<Name, nat>, firstGlobal: nat, strtabData: seq<byte>)
    returns (r: Result<seq<byte>, Error>, ghost lists: seq<SecDesc>)
    ensures r.Err? ==> FirstFailure(x, index) == Some(r.error)
    ensures r.Ok? ==> FirstFailure(x, index).None?
    ensures r.Ok? ==> ListsGiven(x, index, lists)
    ensures r.Ok? ==> r.value == FileFrom(x, BodyFrom(x, lists, syms, firstGlobal, strtabData))
  {
    lists := [];
    var work := BuildRelas(x, index);
    if work.Err? { return Err(work.error), lists; }
    ErrorFree(x, index);
    var shstrtab := new StrTab(Sentinel);
    var descs;
    descs, lists := BuildDescs(x, syms, index, firstGlobal, strtabData, work.value, shstrtab);
    if descs.Err? { return Err(descs.error), lists; }
    ListsHead(x, index, lists);
    BodyHead(x, lists, syms, firstGlobal, strtabData);
    ShstrtabIndex(x, index, lists, syms, firstGlobal, strtabData);
    var b := SerialiseBody(x, BodyFrom(x, lists, syms, firstGlobal, strtabData), descs.value, shstrtab.offsets,
                           SymtabIdx(x) + 2);
    r := Ok(b);
  }

  method Build(x: Input) returns (r: Result<seq<byte>, Error>)
    ensures r == Outcome(x)
  {
    var strtab := new StrTab(Sentinel);
    var syms, index, firstGlobal := BuildSymbols(x.secs, strtab);
    ghost var lists;
    r, lists := BuildFile(x, syms, index, firstGlobal, strtab.data);
    if r.Ok? {
      BodyIs(x, lists);
    }
  }

  datatype Arch = AMD64 | ARM64 | RISCV64 | X86

  /** elf.File: accumulates sections and serialises them. */
  class File {
    var machine: u16
    var is64: bool
    var osabi: u8
    var gnuStack: bool
    var sections: seq<Section>

    function InputOf(): Input
      reads this
    {
      Input(if is64 then Elf64 else Elf32, machine, osabi, gnuStack, sections)
    }

    constructor (arch: Arch)
      ensures sections == [] && osabi == 0 && gnuStack
      ensures is64 <==> arch != X86
      ensures machine == match arch
                         case AMD64 => EM_X86_64
                         case ARM64 => EM_AARCH64
                         case RISCV64 => EM_RISCV
                         case X86 => EM_386
    {
      sections, osabi, gnuStack := [], 0, true;
      is64 := arch != X86;
      match arch {
        case AMD64 => machine := EM_X86_64;
        case ARM64 => machine := EM_AARCH64;
        case RISCV64 => machine := EM_RISCV;
        case X86 => machine := EM_386;
      }
    }

    method SetOSABI(o: u8)
      modifies this`osabi
      ensures osabi == o
    {
      osabi := o;
    }

    method EnableGNUStack(on: bool)
      modifies this`gnuStack
      ensures gnuStack == on
    {
      gnuStack := on;
    }

    method AddSection(s: Section)
      modifies this`sections
      ensures sections == old(sections) + [s]
    {
      sections := sections + [s];
    }

    /** Changes nothing, so that serialising again gives the same bytes. */
    method Serialize() returns (r: Result<seq<byte>, Error>)
      ensures r == Outcome(InputOf())
    {
      if is64 {
        r := Build(Input(Elf64, machine, osabi, gnuStack, sections));
      } else {
        r := Build(Input(Elf32, machine, osabi, gnuStack, sections));
      }
    }
  }
}
