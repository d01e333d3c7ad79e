/** What the recovered ELF object says about the input: when building succeeds, what a
    symbol name resolves to, what a COMDAT group contains, and how the two classes agree. */
module ElfMeaning {
  import opened Bytes
  import opened Names
  import opened Objects
  import opened ElfFormat
  import opened ElfSpec
  import opened ElfTables

  // ---------------------------------------------------------- symbol resolution

  /** A definition gets a row unless it is a local section-relative label. */
  predicate HasRow(d: Def) { IsLocal(d) || IsExported(d) }

  ghost predicate Emitted(secs: seq<Section>, n: Name) {
    exists d :: d in AllDefs(secs) && HasRow(d) && d.sym.name == n
  }

  lemma {:induction false} LocalRowsAre(ds: seq<Def>)
    ensures forall r | r in LocalRows(ds) :: exists d :: d in ds && IsLocal(d) && r == DefRow(d)
    ensures forall d | d in ds && IsLocal(d) :: DefRow(d) in LocalRows(ds)
  {
    if ds != [] {
      var front, last := ds[..|ds| - 1], ds[|ds| - 1];
      LocalRowsAre(front);
      assert ds == front + [last];
      forall r | r in LocalRows(ds) ensures exists d :: d in ds && IsLocal(d) && r == DefRow(d) {
        if r in LocalRows(front) {
          var d :| d in front && IsLocal(d) && r == DefRow(d);
          assert d in ds;
        } else {
          assert last in ds;
        }
      }
    }
  }

  lemma {:induction false} ExportedRowsAre(ds: seq<Def>)
    ensures forall r | r in ExportedRows(ds) :: exists d :: d in ds && IsExported(d) && r == DefRow(d)
    ensures forall d | d in ds && IsExported(d) :: DefRow(d) in ExportedRows(ds)
  {
    if ds != [] {
      var front, last := ds[..|ds| - 1], ds[|ds| - 1];
      ExportedRowsAre(front);
      assert ds == front + [last];
      forall r | r in ExportedRows(ds) ensures exists d :: d in ds && IsExported(d) && r == DefRow(d) {
        if r in ExportedRows(front) {
          var d :| d in front && IsExported(d) && r == DefRow(d);
          assert d in ds;
        } else {
          assert last in ds;
        }
      }
    }
  }

  /** Where a row that is not a section row comes from. */
  ghost predicate RowFrom(secs: seq<Section>, r: Row, k: nat) {
    || (k < |LocalPart(secs)| && exists d :: d in AllDefs(secs) && IsLocal(d) && r == DefRow(d))
    || (|LocalPart(secs)| <= k < |LocalPart(secs)| + |ExportedRows(AllDefs(secs))|
        && exists d :: d in AllDefs(secs) && IsExported(d) && r == DefRow(d))
    || (|LocalPart(secs)| + |ExportedRows(AllDefs(secs))| <= k && r == ExternalRow(r.name) && External(secs, r.name)
        && r.name != [])
  }

  lemma RowOrigin(secs: seq<Section>, k: nat)
    requires 1 + |secs| <= k < |Rows(secs)|
    ensures RowFrom(secs, Rows(secs)[k], k)
  {
    var local, exported := LocalRows(AllDefs(secs)), ExportedRows(AllDefs(secs));
    var externals := Externals(secs, false);
    LocalRowsAre(AllDefs(secs));
    ExportedRowsAre(AllDefs(secs));
    ExternalRowsAre(externals);
    ExternalsFacts(secs, false);
    var r := Rows(secs)[k];
    if k < |LocalPart(secs)| {
      assert r == local[k - (1 + |secs|)];
      assert r in local;
    } else if k < |LocalPart(secs)| + |exported| {
      assert r == exported[k - |LocalPart(secs)|];
      assert r in exported;
    } else {
      var j := k - |LocalPart(secs)| - |exported|;
      assert r == ExternalRow(externals[j]);
      assert externals[j] in externals;
    }
  }

  lemma RowsHave(secs: seq<Section>, r: Row)
    requires r in LocalRows(AllDefs(secs)) || r in ExportedRows(AllDefs(secs))
             || r in ExternalRows(Externals(secs, false))
    ensures exists k :: 1 + |secs| <= k < |Rows(secs)| && Rows(secs)[k] == r
  {
    var rows := Rows(secs);
    ConcatHas(HeadRows(|secs|), LocalRows(AllDefs(secs)), ExportedRows(AllDefs(secs)),
              ExternalRows(Externals(secs, false)), r);
    var k :| |HeadRows(|secs|)| <= k < |rows| && rows[k] == r;
  }

  lemma RowIndexed(secs: seq<Section>, k: nat)
    requires 1 + |secs| <= k < |Rows(secs)|
    ensures Rows(secs)[k].name in Index(secs) && k <= Index(secs)[Rows(secs)[k].name]
  {
    LastIndexFacts(RowNames(Rows(secs)), 1 + |secs|);
    assert RowNames(Rows(secs))[k] in Index(secs);
  }

  /** A name can be a relocation target exactly if some definition of it has a row, or
      it is a non-empty name that nothing defines. */
  lemma IndexHas(secs: seq<Section>, n: Name)
    ensures n in Index(secs) <==> Emitted(secs, n) || (External(secs, n) && n != [])
  {
    if n in Index(secs) {
      IndexPoints(secs);
      RowOrigin(secs, Index(secs)[n]);
    }
    if Emitted(secs, n) {
      var d :| d in AllDefs(secs) && HasRow(d) && d.sym.name == n;
      LocalRowsAre(AllDefs(secs));
      ExportedRowsAre(AllDefs(secs));
      RowsHave(secs, DefRow(d));
      var k :| 1 + |secs| <= k < |Rows(secs)| && Rows(secs)[k] == DefRow(d);
      RowIndexed(secs, k);
    } else if External(secs, n) && n != [] {
      ExternalsFacts(secs, false);
      var ns := Externals(secs, false);
      var j :| 0 <= j < |ns| && ns[j] == n;
      ExternalRowsAre(ns);
      assert ExternalRows(ns)[j] in ExternalRows(ns);
      RowsHave(secs, ExternalRow(n));
      var k :| 1 + |secs| <= k < |Rows(secs)| && Rows(secs)[k] == ExternalRow(n);
      RowIndexed(secs, k);
    }
  }

  /** The row a relocation against n refers to. */
  ghost function Resolved(secs: seq<Section>, n: Name): (r: Row)
    requires n in Index(secs)
    ensures r.name == n
  {
    IndexPoints(secs);
    Rows(secs)[Index(secs)[n]]
  }

  /** A name with exactly one definition that has a row resolves to that section and offset. */
  lemma UniqueResolution(secs: seq<Section>, d: Def)
    requires d in AllDefs(secs) && HasRow(d)
    requires forall e | e in AllDefs(secs) && HasRow(e) && e.sym.name == d.sym.name :: e == d
    ensures d.sym.name in Index(secs) && Resolved(secs, d.sym.name) == DefRow(d)
  {
    var n := d.sym.name;
    IndexHas(secs, n);
    IndexPoints(secs);
    RowOrigin(secs, Index(secs)[n]);
    assert Defined(secs, n);
  }

  /** The last row of name n. */
  function LastRow(rows: seq<Row>, n: Name): Option<Row> {
    if rows == [] then None
    else if rows[|rows| - 1].name == n then Some(rows[|rows| - 1])
    else LastRow(rows[..|rows| - 1], n)
  }

  lemma {:induction false} LastRowAppend(a: seq<Row>, b: seq<Row>, n: Name)
    ensures LastRow(a + b, n) == if LastRow(b, n).Some? then LastRow(b, n) else LastRow(a, n)
  {
    if b == [] {
      assert a + b == a;
    } else {
      assert (a + b)[..|a + b| - 1] == a + b[..|b| - 1];
      LastRowAppend(a, b[..|b| - 1], n);
    }
  }

  /** A walk that overwrites the index at every row leaves the last row of each name. */
  lemma {:induction false} LastRowIndexed(rows: seq<Row>, start: nat, n: Name)
    requires start <= |rows|
    ensures var m := LastIndex(RowNames(rows), start);
            if n in m then m[n] < |rows| && LastRow(rows[start..], n) == Some(rows[m[n]])
            else LastRow(rows[start..], n) == None
  {
    if start < |rows| {
      var front := rows[..|rows| - 1];
      LastRowIndexed(front, start, n);
      assert RowNames(rows)[..|rows| - 1] == RowNames(front);
      assert rows[start..][..|rows[start..]| - 1] == front[start..];
    }
  }

  function RowOf(ds: seq<Def>, j: Option<nat>): Option<Row>
    requires j.Some? ==> j.value < |ds|
  {
    if j.Some? then Some(DefRow(ds[j.value])) else None
  }

  lemma {:induction false} LastExported(ds: seq<Def>, n: Name)
    ensures LastRow(ExportedRows(ds), n) == RowOf(ds, Last(ds, n, ExportedDef))
  {
    if ds != [] {
      var front, d := ds[..|ds| - 1], ds[|ds| - 1];
      LastExported(front, n);
      LastRowAppend(ExportedRows(front), if IsExported(d) then [DefRow(d)] else [], n);
    }
  }

  lemma {:induction false} LastLocal(ds: seq<Def>, n: Name)
    ensures LastRow(LocalRows(ds), n) == RowOf(ds, Last(ds, n, PlainDef))
  {
    if ds != [] {
      var front, d := ds[..|ds| - 1], ds[|ds| - 1];
      LastLocal(front, n);
      LastRowAppend(LocalRows(front), if IsLocal(d) then [DefRow(d)] else [], n);
    }
  }

  lemma {:induction false} LastExternal(ns: seq<Name>, n: Name)
    ensures LastRow(ExternalRows(ns), n) == if n in ns then Some(ExternalRow(n)) else None
  {
    if ns != [] {
      LastExternal(ns[..|ns| - 1], n);
      LastRowAppend(ExternalRows(ns[..|ns| - 1]), [ExternalRow(ns[|ns| - 1])], n);
      SnocMember(ns);
    }
  }

  lemma LastOfTail(secs: seq<Section>, n: Name)
    ensures
      var ds, tail := AllDefs(secs), Rows(secs)[1 + |secs|..];
      LastRow(tail, n) ==
      if n in Externals(secs, false) then Some(ExternalRow(n))
      else if Last(ds, n, ExportedDef).Some? then RowOf(ds, Last(ds, n, ExportedDef))
      else RowOf(ds, Last(ds, n, PlainDef))
  {
    var ds := AllDefs(secs);
    var local, exported, externals := LocalRows(ds), ExportedRows(ds), ExternalRows(Externals(secs, false));
    assert Rows(secs)[1 + |secs|..] == local + exported + externals;
    LastRowAppend(local + exported, externals, n);
    LastRowAppend(local, exported, n);
    LastExternal(Externals(secs, false), n);
    LastExported(ds, n);
    LastLocal(ds, n);
  }

  /** The definition a relocation against n refers to, if any: the last exported one, or
      the last local one that has a row if none is exported. */
  function Chosen(ds: seq<Def>, n: Name): (j: Option<nat>)
    ensures j.Some? ==> j.value < |ds| && ds[j.value].sym.name == n && HasRow(ds[j.value])
  {
    if Last(ds, n, ExportedDef).Some? then Last(ds, n, ExportedDef) else Last(ds, n, PlainDef)
  }

  lemma ChosenDefined(secs: seq<Section>, n: Name)
    ensures Chosen(AllDefs(secs), n).Some? ==> Defined(secs, n)
  {
    var ds := AllDefs(secs);
    if Chosen(ds, n).Some? { assert ds[Chosen(ds, n).value] in ds; }
  }

  /** A target resolves to its last global or weak definition; failing that, to its last
      local one other than a section label; and to an undefined entry if it has neither. */
  lemma Resolution(secs: seq<Section>, n: Name)
    ensures n in Index(secs) <==> Chosen(AllDefs(secs), n).Some? || n in Externals(secs, false)
    ensures n in Index(secs) ==>
              Resolved(secs, n) ==
              match Chosen(AllDefs(secs), n)
              case Some(j) => DefRow(AllDefs(secs)[j])
              case None => ExternalRow(n)
  {
    LastRowIndexed(Rows(secs), 1 + |secs|, n);
    LastOfTail(secs, n);
    ExternalsFacts(secs, false);
    ChosenDefined(secs, n);
  }

  /** A global or weak definition hides every local one of the same name, and a later one
      of them every earlier one. */
  lemma ExportedWins(secs: seq<Section>, d: Def)
    requires d in AllDefs(secs) && IsExported(d)
    ensures d.sym.name in Index(secs)
    ensures var j := Last(AllDefs(secs), d.sym.name, ExportedDef);
            j.Some? && Resolved(secs, d.sym.name) == DefRow(AllDefs(secs)[j.value])
  {
    LastIsLast(AllDefs(secs), d.sym.name, ExportedDef);
    Resolution(secs, d.sym.name);
  }

  // -------------------------------------------------------- when building succeeds

  predicate HasExported(s: Section) {
    exists j :: 0 <= j < |s.symbols| && s.symbols[j].binding != Local
  }

  lemma {:induction false} ComdatSigFound(syms: seq<Symbol>, index: map<Name, nat>)
    requires forall j | 0 <= j < |syms| && syms[j].binding != Local :: syms[j].name in index
    ensures ComdatSig(syms, index).Some? <==> exists j :: 0 <= j < |syms| && syms[j].binding != Local
  {
    if syms != [] {
      ComdatSigFound(syms[1..], index);
      if j :| 0 <= j < |syms| && syms[j].binding != Local && j > 0 { assert syms[1..][j - 1] == syms[j]; }
      if j :| 0 <= j < |syms[1..]| && syms[1..][j].binding != Local { assert syms[j + 1] == syms[1..][j]; }
    }
  }

  lemma ExportedIndexed(secs: seq<Section>, i: nat)
    requires i < |secs|
    ensures forall j | 0 <= j < |secs[i].symbols| && secs[i].symbols[j].binding != Local ::
              secs[i].symbols[j].name in Index(secs)
  {
    forall j | 0 <= j < |secs[i].symbols| && secs[i].symbols[j].binding != Local
      ensures secs[i].symbols[j].name in Index(secs)
    {
      var d := Def(i, secs[i].symbols[j]);
      DefsMember(secs, |secs|, 0, d);
      ExportedWins(secs, d);
    }
  }

  /** Every target of a used relocation is referenced, so "external" is just "undefined". */
  predicate Targetable(secs: seq<Section>, emitted: bool, n: Name) {
    emitted || (n != [] && !Defined(secs, n))
  }

  /** Serialisation succeeds exactly when every relocation kind exists on the machine,
      every target either has a row of its own or is non-empty and undefined, and every
      link-once section exports a symbol. */
  lemma SucceedsIff(x: Input)
    ensures Outcome(x).Ok? <==>
            && (forall u | u in AllUses(x.secs) ::
                  && RelocType(x.machine, u.rel.kind).Some?
                  && Targetable(x.secs, Emitted(x.secs, u.rel.symbol), u.rel.symbol))
            && (forall i | 0 <= i < |x.secs| && x.secs[i].linkOnce :: HasExported(x.secs[i]))
  {
    var index := Index(x.secs);
    NoFirstError(x.machine, index, AllUses(x.secs));
    forall u | u in AllUses(x.secs)
      ensures u.rel.symbol in index <==> Targetable(x.secs, Emitted(x.secs, u.rel.symbol), u.rel.symbol)
    {
      IndexHas(x.secs, u.rel.symbol);
      assert u.rel.symbol in UseNames(AllUses(x.secs));
    }
    ComdatErrorFree(x.secs, index, |x.secs|);
    forall i | 0 <= i < |x.secs|
      ensures ComdatSig(x.secs[i].symbols, index).Some? <==> HasExported(x.secs[i])
    {
      ExportedIndexed(x.secs, i);
      ComdatSigFound(x.secs[i].symbols, index);
    }
  }
}
