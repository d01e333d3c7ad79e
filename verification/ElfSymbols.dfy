/** The whole symbol table of an ELF file, decoded by the numbers of the gABI (chapter 4,
    symbol table) and compared with the input's definitions. */
module ElfSymbols {
  import opened Bytes
  import opened Names
  import opened Objects
  import opened ElfFormat
  import opened ElfSpec
  import opened ElfReader
  import opened ElfRoundTrip
  import opened ElfTables

  /** What ELF32_ST_BIND and ELF32_ST_TYPE mean. */
  function BindingOf(bind: nat): Option<Binding> {
    if bind == 0 then Some(Local) else if bind == 1 then Some(Global) else if bind == 2 then Some(Weak) else None
  }

  function KindOf(typ: nat): Option<SymbolKind> {
    if typ == 1 then Some(SymData) else if typ == 2 then Some(SymFunc) else if typ == 3 then Some(SymSection) else None
  }

  /** The entry decodes to definition d, with default visibility. */
  predicate IsDef(v: SymbolView, d: Def) {
    && v.name == d.sym.name && v.shndx == 1 + d.sec && v.value == d.sym.offset && v.size == d.sym.size
    && v.other == 0 && BindingOf(v.bind) == Some(d.sym.binding) && KindOf(v.kind) == Some(d.sym.kind)
  }

  /** A global symbol without type in section 0, which is no section. */
  predicate IsUndefined(v: SymbolView, n: Name) { v == SymbolView(n, 1, 0, 0, 0, 0, 0) }

  /** The nameless local symbol that stands for section number k. */
  predicate IsSectionEntry(v: SymbolView, k: nat) { v == SymbolView([], 0, 3, k, 0, 0, 0) }

  lemma DefRead(d: Def)
    ensures IsDef(SymbolViewOf(DefRow(d)), d)
  {
    StInfoFields(Bind(d.sym.binding), SymType(d.sym.kind));
  }

  lemma UndefinedRead(n: Name)
    ensures IsUndefined(SymbolViewOf(ExternalRow(n)), n)
  {
    StInfoFields(STB_GLOBAL, STT_NOTYPE);
  }

  lemma SectionEntryRead(i: nat)
    ensures IsSectionEntry(SymbolViewOf(SectionRow(i)), 1 + i)
  {
    StInfoFields(STB_LOCAL, STT_SECTION);
  }

  // -------------------------------------------------------------------- the list

  /** The local definitions that are no section labels, in order, and the others that are
      not local. */
  function LocalDefs(ds: seq<Def>): seq<Def> {
    if ds == [] then [] else
    var d := ds[|ds| - 1];
    LocalDefs(ds[..|ds| - 1]) + if d.sym.binding == Local && d.sym.kind != SymSection then [d] else []
  }

  function ExportedDefs(ds: seq<Def>): seq<Def> {
    if ds == [] then [] else
    var d := ds[|ds| - 1];
    ExportedDefs(ds[..|ds| - 1]) + if d.sym.binding != Local then [d] else []
  }

  lemma {:induction false} LocalRowsList(ds: seq<Def>)
    ensures RowsOf(LocalRows(ds), LocalDefs(ds))
  {
    if ds != [] { LocalRowsList(ds[..|ds| - 1]); }
  }

  lemma {:induction false} ExportedRowsList(ds: seq<Def>)
    ensures RowsOf(ExportedRows(ds), ExportedDefs(ds))
  {
    if ds != [] { ExportedRowsList(ds[..|ds| - 1]); }
  }

  /** The entries vs from position start on are the definitions ds, one for one. */
  predicate Lists(vs: seq<SymbolView>, start: nat, ds: seq<Def>) {
    start + |ds| <= |vs| && forall k | 0 <= k < |ds| :: IsDef(vs[start + k], ds[k])
  }

  predicate ListsUndefined(vs: seq<SymbolView>, start: nat, ns: seq<Name>) {
    start + |ns| <= |vs| && forall k | 0 <= k < |ns| :: IsUndefined(vs[start + k], ns[k])
  }

  predicate ListsSections(vs: seq<SymbolView>, n: nat) {
    1 + n <= |vs| && vs[0] == SymbolView([], 0, 0, 0, 0, 0, 0) && forall k | 1 <= k <= n :: IsSectionEntry(vs[k], k)
  }

  predicate RowsOf(rows: seq<Row>, ds: seq<Def>) {
    |rows| == |ds| && forall k | 0 <= k < |ds| :: rows[k] == DefRow(ds[k])
  }

  lemma PieceLists(all: seq<Row>, a: seq<Row>, rows: seq<Row>, b: seq<Row>, ds: seq<Def>)
    requires all == a + rows + b && RowsOf(rows, ds)
    ensures Lists(SymbolViewsOf(all), |a|, ds)
  {
    forall k | 0 <= k < |ds| ensures IsDef(SymbolViewsOf(all)[|a| + k], ds[k]) {
      assert all[|a| + k] == rows[k];
      DefRead(ds[k]);
    }
  }

  lemma TailLists(all: seq<Row>, a: seq<Row>, ns: seq<Name>)
    requires all == a + ExternalRows(ns)
    ensures ListsUndefined(SymbolViewsOf(all), |a|, ns)
  {
    ExternalRowsAre(ns);
    forall k | 0 <= k < |ns| ensures IsUndefined(SymbolViewsOf(all)[|a| + k], ns[k]) {
      assert all[|a| + k] == ExternalRow(ns[k]);
      UndefinedRead(ns[k]);
    }
  }

  lemma HeadLists(all: seq<Row>, n: nat, rest: seq<Row>)
    requires n < 0xFF00 && all == HeadRows(n) + rest
    ensures ListsSections(SymbolViewsOf(all), n)
  {
    HeadRowsFit(n);
    forall k | 1 <= k <= n ensures IsSectionEntry(SymbolViewsOf(all)[k], k) {
      assert all[k] == SectionRow(k - 1);
      SectionEntryRead(k - 1);
    }
  }

  /** The entries of a symbol table whose first entry that is not local is number first. */
  predicate TableIs(vs: seq<SymbolView>, first: nat, n: nat, ds: seq<Def>, externals: seq<Name>) {
    && first == 1 + n + |LocalDefs(ds)| && |vs| == first + |ExportedDefs(ds)| + |externals|
    && ListsSections(vs, n) && Lists(vs, 1 + n, LocalDefs(ds)) && Lists(vs, first, ExportedDefs(ds))
    && ListsUndefined(vs, first + |ExportedDefs(ds)|, externals)
  }

  lemma Regroup(a: seq<Row>, b: seq<Row>, c: seq<Row>, d: seq<Row>)
    ensures a + b + c + d == a + (b + c + d) && a + b + c + d == a + b + (c + d)
  {
  }

  lemma LocalPiece(all: seq<Row>, head: seq<Row>, local: seq<Row>, exported: seq<Row>, external: seq<Row>, ls: seq<Def>)
    requires all == head + local + exported + external && RowsOf(local, ls)
    ensures Lists(SymbolViewsOf(all), |head|, ls)
  {
    Regroup(head, local, exported, external);
    PieceLists(all, head, local, exported + external, ls);
  }

  lemma HeadPiece(all: seq<Row>, n: nat, local: seq<Row>, exported: seq<Row>, external: seq<Row>)
    requires n < 0xFF00 && all == HeadRows(n) + local + exported + external
    ensures ListsSections(SymbolViewsOf(all), n)
  {
    Regroup(HeadRows(n), local, exported, external);
    HeadLists(all, n, local + exported + external);
  }

  lemma RowsStart(secs: seq<Section>)
    requires |secs| < 0xFF00
    ensures ListsSections(SymbolViewsOf(Rows(secs)), |secs|)
    ensures Lists(SymbolViewsOf(Rows(secs)), 1 + |secs|, LocalDefs(AllDefs(secs)))
  {
    var all, ds, external := Rows(secs), AllDefs(secs), ExternalRows(Externals(secs, false));
    LocalRowsList(ds);
    HeadPiece(all, |secs|, LocalRows(ds), ExportedRows(ds), external);
    LocalPiece(all, HeadRows(|secs|), LocalRows(ds), ExportedRows(ds), external, LocalDefs(ds));
  }

  lemma RowsEnd(secs: seq<Section>)
    ensures Lists(SymbolViewsOf(Rows(secs)), |LocalPart(secs)|, ExportedDefs(AllDefs(secs)))
    ensures ListsUndefined(SymbolViewsOf(Rows(secs)), |LocalPart(secs)| + |ExportedRows(AllDefs(secs))|,
                           Externals(secs, false))
  {
    var all, ds, ns := Rows(secs), AllDefs(secs), Externals(secs, false);
    ExportedRowsList(ds);
    PieceLists(all, LocalPart(secs), ExportedRows(ds), ExternalRows(ns), ExportedDefs(ds));
    TailLists(all, LocalPart(secs) + ExportedRows(ds), ns);
  }

  lemma RowCounts(secs: seq<Section>)
    ensures var ds := AllDefs(secs);
            && |LocalPart(secs)| == 1 + |secs| + |LocalDefs(ds)| && |ExportedRows(ds)| == |ExportedDefs(ds)|
            && |Rows(secs)| == |LocalPart(secs)| + |ExportedDefs(ds)| + |Externals(secs, false)|
  {
    LocalRowsList(AllDefs(secs));
    ExportedRowsList(AllDefs(secs));
    ExternalRowsAre(Externals(secs, false));
  }

  lemma RowsAre(secs: seq<Section>)
    requires |secs| < 0xFF00
    ensures TableIs(SymbolViewsOf(Rows(secs)), |LocalPart(secs)|, |secs|, AllDefs(secs), Externals(secs, false))
  {
    RowCounts(secs);
    RowsStart(secs);
    RowsEnd(secs);
  }

  lemma {:induction false} LocalDefsAre(ds: seq<Def>)
    ensures forall d :: d in LocalDefs(ds) <==> d in ds && d.sym.binding == Local && d.sym.kind != SymSection
  {
    if ds != [] {
      LocalDefsAre(ds[..|ds| - 1]);
      assert ds == ds[..|ds| - 1] + [ds[|ds| - 1]];
    }
  }

  lemma {:induction false} ExportedDefsAre(ds: seq<Def>)
    ensures forall d :: d in ExportedDefs(ds) <==> d in ds && d.sym.binding != Local
  {
    if ds != [] {
      ExportedDefsAre(ds[..|ds| - 1]);
      assert ds == ds[..|ds| - 1] + [ds[|ds| - 1]];
    }
  }

  /** Every definition has an entry, unless it is a local section label. */
  lemma DefinitionListed(vs: seq<SymbolView>, first: nat, n: nat, ds: seq<Def>, externals: seq<Name>, d: Def)
      returns (k: nat)
    requires TableIs(vs, first, n, ds, externals) && d in ds && (d.sym.binding == Local ==> d.sym.kind != SymSection)
    ensures k < |vs| && IsDef(vs[k], d) && (k < first <==> d.sym.binding == Local)
  {
    LocalDefsAre(ds);
    ExportedDefsAre(ds);
    if d.sym.binding == Local {
      var j :| 0 <= j < |LocalDefs(ds)| && LocalDefs(ds)[j] == d;
      k := 1 + n + j;
    } else {
      var j :| 0 <= j < |ExportedDefs(ds)| && ExportedDefs(ds)[j] == d;
      k := first + j;
    }
  }
}
