/** The whole symbol table of a Mach-O file, decoded by the numbers of nlist.h and compared
    with the input. */
module MachoSymbols {
  import opened Names
  import opened Objects
  import opened MachoSpec
  import opened MachoTables
  import opened MachoRoundTrip
  import opened MachoReader

  /** N_WEAK_DEF is for weak definitions and for those of link-once sections. */
  predicate MarkedWeak(secs: seq<Section>, d: Def) {
    d.sym.binding != Local && (d.sym.binding == Weak || (d.sec < |secs| && secs[d.sec].linkOnce))
  }

  /** N_SECT in the section's number, with N_EXT unless it is local. */
  predicate IsDef(v: SymbolView, secs: seq<Section>, d: Def) {
    && v.name == [95] + d.sym.name && v.sect == 1 + d.sec && v.value == d.sym.offset
    && v.ntype == (if d.sym.binding == Local then 0xE else 0xF)
    && v.desc == if MarkedWeak(secs, d) then 0x80 else 0
  }

  /** N_UNDF with N_EXT. */
  predicate IsUndefined(v: SymbolView, n: Name) { v == SymbolView([95] + n, 1, 0, 0, 0) }

  /** The nameless symbol at the start of section number k. */
  predicate IsSectionEntry(v: SymbolView, k: nat) { v == SymbolView([], 0xE, k, 0, 0) }

  lemma LocalRead(secs: seq<Section>, d: Def)
    requires d.sym.name != [] && d.sym.binding == Local
    ensures IsDef(SymbolViewOf(LocalRow(d)), secs, d)
  {
  }

  lemma ExportedRead(secs: seq<Section>, d: Def)
    requires d.sym.name != [] && d.sym.binding != Local
    ensures IsDef(SymbolViewOf(ExportedRow(secs, d)), secs, d)
  {
  }

  lemma UndefinedRead(n: Name)
    requires n != []
    ensures IsUndefined(SymbolViewOf(ExternalRow(n)), n)
  {
  }

  // -------------------------------------------------------------------- the list

  /** The local definitions, and the others, that have a name, in order. */
  function LocalDefs(ds: seq<Def>): seq<Def> {
    if ds == [] then [] else
    var d := ds[|ds| - 1];
    LocalDefs(ds[..|ds| - 1]) + if d.sym.name != [] && d.sym.binding == Local then [d] else []
  }

  function ExportedDefs(ds: seq<Def>): seq<Def> {
    if ds == [] then [] else
    var d := ds[|ds| - 1];
    ExportedDefs(ds[..|ds| - 1]) + if d.sym.name != [] && d.sym.binding != Local then [d] else []
  }

  /** The rows read as the definitions ds. */
  predicate RowsRead(rows: seq<Row>, secs: seq<Section>, ds: seq<Def>) {
    |rows| == |ds| && forall k | 0 <= k < |ds| :: IsDef(SymbolViewOf(rows[k]), secs, ds[k])
  }

  lemma {:induction false} LocalRowsRead(secs: seq<Section>, ds: seq<Def>)
    ensures RowsRead(LocalRows(ds), secs, LocalDefs(ds))
  {
    if ds != [] {
      LocalRowsRead(secs, ds[..|ds| - 1]);
      var d := ds[|ds| - 1];
      if IsLocal(d) { LocalRead(secs, d); }
    }
  }

  lemma {:induction false} ExportedRowsRead(secs: seq<Section>, ds: seq<Def>)
    ensures RowsRead(ExportedRows(secs, ds), secs, ExportedDefs(ds))
  {
    if ds != [] {
      ExportedRowsRead(secs, ds[..|ds| - 1]);
      var d := ds[|ds| - 1];
      if IsExported(d) { ExportedRead(secs, d); }
    }
  }

  /** The entries vs from position start on are the definitions ds, one for one. */
  predicate Lists(vs: seq<SymbolView>, start: nat, secs: seq<Section>, ds: seq<Def>) {
    start + |ds| <= |vs| && forall k | 0 <= k < |ds| :: IsDef(vs[start + k], secs, ds[k])
  }

  predicate ListsUndefined(vs: seq<SymbolView>, start: nat, ns: seq<Name>) {
    start + |ns| <= |vs| && forall k | 0 <= k < |ns| :: IsUndefined(vs[start + k], ns[k])
  }

  predicate ListsSections(vs: seq<SymbolView>, n: nat) {
    1 + n <= |vs| && vs[0] == SymbolView([], 0, 0, 0, 0) && forall k | 1 <= k <= n :: IsSectionEntry(vs[k], k)
  }

  lemma PieceLists(all: seq<Row>, a: seq<Row>, rows: seq<Row>, b: seq<Row>, secs: seq<Section>, ds: seq<Def>)
    requires all == a + rows + b && RowsRead(rows, secs, ds)
    ensures Lists(SymbolViewsOf(all), |a|, secs, ds)
  {
    forall k | 0 <= k < |ds| ensures IsDef(SymbolViewsOf(all)[|a| + k], secs, ds[k]) {
      assert all[|a| + k] == rows[k];
    }
  }

  lemma TailLists(all: seq<Row>, a: seq<Row>, ns: seq<Name>)
    requires all == a + ExternalRows(ns) && forall k | 0 <= k < |ns| :: ns[k] != []
    ensures ListsUndefined(SymbolViewsOf(all), |a|, ns)
  {
    forall k | 0 <= k < |ns| ensures IsUndefined(SymbolViewsOf(all)[|a| + k], ns[k]) {
      assert all[|a| + k] == ExternalRow(ns[k]);
      UndefinedRead(ns[k]);
    }
  }

  lemma HeadLists(all: seq<Row>, n: nat, rest: seq<Row>)
    requires all == HeadRows(n) + rest
    ensures ListsSections(SymbolViewsOf(all), n)
  {
    HeadRowsAre(n, 0);
    forall k | 1 <= k <= n ensures IsSectionEntry(SymbolViewsOf(all)[k], k) {
      HeadRowsAre(n, k);
      assert all[k] == SectionRow(k - 1);
    }
  }

  /** The null entry, one entry for each section, each named local definition, each other
      named definition, each external, and nothing else. */
  predicate TableIs(vs: seq<SymbolView>, secs: seq<Section>, ds: seq<Def>, externals: seq<Name>) {
    var first := 1 + |secs| + |LocalDefs(ds)|;
    && |vs| == first + |ExportedDefs(ds)| + |externals|
    && ListsSections(vs, |secs|) && Lists(vs, 1 + |secs|, secs, LocalDefs(ds))
    && Lists(vs, first, secs, ExportedDefs(ds)) && ListsUndefined(vs, first + |ExportedDefs(ds)|, externals)
  }

  lemma Regroup(a: seq<Row>, b: seq<Row>, c: seq<Row>, d: seq<Row>)
    ensures a + b + c + d == a + (b + c + d) && a + b + c + d == a + b + (c + d)
  {
  }

  lemma HeadPiece(all: seq<Row>, n: nat, local: seq<Row>, exported: seq<Row>, external: seq<Row>)
    requires all == HeadRows(n) + local + exported + external
    ensures ListsSections(SymbolViewsOf(all), n)
  {
    Regroup(HeadRows(n), local, exported, external);
    HeadLists(all, n, local + exported + external);
  }

  lemma LocalPiece(all: seq<Row>, head: seq<Row>, local: seq<Row>, exported: seq<Row>, external: seq<Row>,
                   secs: seq<Section>, ds: seq<Def>)
    requires all == head + local + exported + external && RowsRead(local, secs, ds)
    ensures Lists(SymbolViewsOf(all), |head|, secs, ds)
  {
    Regroup(head, local, exported, external);
    PieceLists(all, head, local, exported + external, secs, ds);
  }

  lemma RowsStart(secs: seq<Section>)
    ensures ListsSections(SymbolViewsOf(Rows(secs)), |secs|)
    ensures Lists(SymbolViewsOf(Rows(secs)), 1 + |secs|, secs, LocalDefs(AllDefs(secs)))
  {
    var all, ds, external := Rows(secs), AllDefs(secs), ExternalRows(Externals(secs, false));
    LocalRowsRead(secs, ds);
    HeadPiece(all, |secs|, LocalRows(ds), ExportedRows(secs, ds), external);
    LocalPiece(all, HeadRows(|secs|), LocalRows(ds), ExportedRows(secs, ds), external, secs, LocalDefs(ds));
  }

  /** The rows before the exported ones. */
  function LocalPart(secs: seq<Section>): seq<Row> { HeadRows(|secs|) + LocalRows(AllDefs(secs)) }

  lemma ExportedPiece(secs: seq<Section>)
    ensures Lists(SymbolViewsOf(Rows(secs)), |LocalPart(secs)|, secs, ExportedDefs(AllDefs(secs)))
  {
    var ds := AllDefs(secs);
    ExportedRowsRead(secs, ds);
    PieceLists(Rows(secs), LocalPart(secs), ExportedRows(secs, ds), ExternalRows(Externals(secs, false)), secs,
               ExportedDefs(ds));
  }

  lemma ExternalsNamed(secs: seq<Section>)
    ensures forall k | 0 <= k < |Externals(secs, false)| :: Externals(secs, false)[k] != []
  {
    var ns := Externals(secs, false);
    ExternalsFacts(secs, false);
    forall k | 0 <= k < |ns| ensures ns[k] != [] { assert ns[k] in ns; }
  }

  lemma ExternalPiece(secs: seq<Section>)
    ensures ListsUndefined(SymbolViewsOf(Rows(secs)), |LocalPart(secs)| + |ExportedRows(secs, AllDefs(secs))|,
                           Externals(secs, false))
  {
    ExternalsNamed(secs);
    TailLists(Rows(secs), LocalPart(secs) + ExportedRows(secs, AllDefs(secs)), Externals(secs, false));
  }

  lemma RowCounts(secs: seq<Section>)
    ensures var ds := AllDefs(secs);
            && |LocalRows(ds)| == |LocalDefs(ds)| && |ExportedRows(secs, ds)| == |ExportedDefs(ds)|
            && |Rows(secs)| == 1 + |secs| + |LocalDefs(ds)| + |ExportedDefs(ds)| + |Externals(secs, false)|
  {
    LocalRowsRead(secs, AllDefs(secs));
    ExportedRowsRead(secs, AllDefs(secs));
  }

  lemma RowsAre(secs: seq<Section>)
    ensures TableIs(SymbolViewsOf(Rows(secs)), secs, AllDefs(secs), Externals(secs, false))
  {
    RowCounts(secs);
    RowsStart(secs);
    ExportedPiece(secs);
    ExternalPiece(secs);
  }

  lemma {:induction false} LocalDefsAre(ds: seq<Def>)
    ensures forall d :: d in LocalDefs(ds) <==> d in ds && d.sym.name != [] && d.sym.binding == Local
  {
    if ds != [] {
      LocalDefsAre(ds[..|ds| - 1]);
      assert ds == ds[..|ds| - 1] + [ds[|ds| - 1]];
    }
  }

  lemma {:induction false} ExportedDefsAre(ds: seq<Def>)
    ensures forall d :: d in ExportedDefs(ds) <==> d in ds && d.sym.name != [] && d.sym.binding != Local
  {
    if ds != [] {
      ExportedDefsAre(ds[..|ds| - 1]);
      assert ds == ds[..|ds| - 1] + [ds[|ds| - 1]];
    }
  }

  /** Every definition that has a name has an entry. */
  lemma DefinitionListed(vs: seq<SymbolView>, secs: seq<Section>, ds: seq<Def>, externals: seq<Name>, d: Def)
      returns (k: nat)
    requires TableIs(vs, secs, ds, externals) && d in ds && d.sym.name != []
    ensures k < |vs| && IsDef(vs[k], secs, d)
  {
    LocalDefsAre(ds);
    ExportedDefsAre(ds);
    if d.sym.binding == Local {
      var j :| 0 <= j < |LocalDefs(ds)| && LocalDefs(ds)[j] == d;
      k := 1 + |secs| + j;
    } else {
      var j :| 0 <= j < |ExportedDefs(ds)| && ExportedDefs(ds)[j] == d;
      k := 1 + |secs| + |LocalDefs(ds)| + j;
    }
  }
}
