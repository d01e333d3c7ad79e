/** Facts about the tables of a Mach-O file: where nlist rows come from, what a name resolves
    to, and when writing succeeds. */
module MachoTables {
  import opened Bytes
  import opened Names
  import opened Objects
  import opened StringTable
  import opened MachoFormat
  import opened MachoSpec

  // -------------------------------------------------------------- origin of rows

  lemma {:induction false} LocalRowsAre(ds: seq<Def>)
    ensures forall r | r in LocalRows(ds) :: exists d :: d in ds && IsLocal(d) && r == LocalRow(d)
    ensures forall d | d in ds && IsLocal(d) :: LocalRow(d) in LocalRows(ds)
  {
    if ds != [] {
      var front, last := ds[..|ds| - 1], ds[|ds| - 1];
      LocalRowsAre(front);
      assert ds == front + [last];
      forall r | r in LocalRows(ds) ensures exists d :: d in ds && IsLocal(d) && r == LocalRow(d) {
        if r in LocalRows(front) {
          var d :| d in front && IsLocal(d) && r == LocalRow(d);
          assert d in ds;
        } else {
          assert last in ds;
        }
      }
    }
  }

  lemma {:induction false} ExportedRowsAre(secs: seq<Section>, ds: seq<Def>)
    ensures forall r | r in ExportedRows(secs, ds) :: exists d :: d in ds && IsExported(d) && r == ExportedRow(secs, d)
    ensures forall d | d in ds && IsExported(d) :: ExportedRow(secs, d) in ExportedRows(secs, ds)
  {
    if ds != [] {
      var front, last := ds[..|ds| - 1], ds[|ds| - 1];
      ExportedRowsAre(secs, front);
      assert ds == front + [last];
      forall r | r in ExportedRows(secs, ds)
        ensures exists d :: d in ds && IsExported(d) && r == ExportedRow(secs, d)
      {
        if r in ExportedRows(secs, front) {
          var d :| d in front && IsExported(d) && r == ExportedRow(secs, d);
          assert d in ds;
        } else {
          assert last in ds;
        }
      }
    }
  }

  lemma {:induction false} HeadRowsAre(n: nat, k: nat)
    requires k <= n
    ensures HeadRows(n)[k] == if k == 0 then NullRow else SectionRow(k - 1)
  {
    if n > 0 && k < n { HeadRowsAre(n - 1, k); }
  }

  ghost predicate FromLocal(secs: seq<Section>, r: Row) {
    exists d :: d in AllDefs(secs) && IsLocal(d) && r == LocalRow(d)
  }

  ghost predicate FromExported(secs: seq<Section>, r: Row) {
    exists d :: d in AllDefs(secs) && IsExported(d) && r == ExportedRow(secs, d)
  }

  ghost predicate FromExternal(secs: seq<Section>, r: Row) {
    r == ExternalRow(r.name) && External(secs, r.name) && r.name != []
  }

  /** The row at which exported definitions start. */
  function LocalCount(secs: seq<Section>): nat { 1 + |secs| + |LocalRows(AllDefs(secs))| }

  lemma RowOrigin(secs: seq<Section>, k: nat)
    requires 1 + |secs| <= k < |Rows(secs)|
    ensures k < LocalCount(secs) ==> FromLocal(secs, Rows(secs)[k])
    ensures k >= LocalCount(secs) ==> FromExported(secs, Rows(secs)[k]) || FromExternal(secs, Rows(secs)[k])
    ensures k >= LocalCount(secs) + |ExportedRows(secs, AllDefs(secs))| ==> FromExternal(secs, Rows(secs)[k])
  {
    var local, exported := LocalRows(AllDefs(secs)), ExportedRows(secs, AllDefs(secs));
    var externals := Externals(secs, false);
    LocalRowsAre(AllDefs(secs));
    ExportedRowsAre(secs, AllDefs(secs));
    var r := Rows(secs)[k];
    if k < LocalCount(secs) {
      assert r == local[k - (1 + |secs|)];
      assert r in local;
    } else if k < LocalCount(secs) + |exported| {
      assert r == exported[k - LocalCount(secs)];
      assert r in exported;
    } else {
      var j := k - LocalCount(secs) - |exported|;
      assert r == ExternalRow(externals[j]);
      assert externals[j] in externals;
      ExternalsFacts(secs, false);
    }
  }

  lemma RowNamed(secs: seq<Section>, k: nat)
    requires 1 + |secs| <= k < |Rows(secs)|
    ensures Rows(secs)[k].name != []
  {
    RowOrigin(secs, k);
  }

  // ------------------------------------------------------------------- the index

  /** symDefs: every name leads to a row of that name. */
  ghost predicate Points(index: map<Name, nat>, rows: seq<Row>) {
    forall n | n in index :: index[n] < |rows| && rows[index[n]].name == n
  }

  lemma IndexPoints(secs: seq<Section>)
    ensures Points(Index(secs), Rows(secs))
    ensures forall n | n in Index(secs) :: 1 + |secs| <= Index(secs)[n] < |Rows(secs)|
  {
    LastIndexFacts(RowNames(Rows(secs)), 1 + |secs|);
  }

  lemma RowIndexed(secs: seq<Section>, k: nat)
    requires 1 + |secs| <= k < |Rows(secs)|
    ensures Rows(secs)[k].name in Index(secs) && k <= Index(secs)[Rows(secs)[k].name]
  {
    LastIndexFacts(RowNames(Rows(secs)), 1 + |secs|);
    assert RowNames(Rows(secs))[k] in Index(secs);
  }

  lemma RowFound(secs: seq<Section>, r: Row)
    requires r in LocalRows(AllDefs(secs)) || r in ExportedRows(secs, AllDefs(secs))
             || r in ExternalRows(Externals(secs, false))
    ensures r.name in Index(secs)
  {
    ConcatHas(HeadRows(|secs|), LocalRows(AllDefs(secs)), ExportedRows(secs, AllDefs(secs)),
              ExternalRows(Externals(secs, false)), r);
    var k :| |HeadRows(|secs|)| <= k < |Rows(secs)| && Rows(secs)[k] == r;
    RowIndexed(secs, k);
  }

  lemma DefinedIndexed(secs: seq<Section>, d: Def)
    requires d in AllDefs(secs) && d.sym.name != []
    ensures d.sym.name in Index(secs)
  {
    LocalRowsAre(AllDefs(secs));
    ExportedRowsAre(secs, AllDefs(secs));
    RowFound(secs, if IsLocal(d) then LocalRow(d) else ExportedRow(secs, d));
  }

  /** A referenced name is resolvable exactly if it is not empty. */
  lemma TargetIndexed(secs: seq<Section>, u: Use)
    requires u in AllUses(secs)
    ensures u.rel.symbol in Index(secs) <==> u.rel.symbol != []
  {
    var n := u.rel.symbol;
    if n in Index(secs) {
      IndexPoints(secs);
      RowNamed(secs, Index(secs)[n]);
    }
    if n != [] {
      if Defined(secs, n) {
        var d :| d in AllDefs(secs) && d.sym.name == n;
        DefinedIndexed(secs, d);
      } else {
        ExternalsFacts(secs, false);
        var ns := Externals(secs, false);
        assert External(secs, n);
        var j :| 0 <= j < |ns| && ns[j] == n;
        assert ExternalRows(ns)[j] == ExternalRow(n);
        RowFound(secs, ExternalRow(n));
      }
    }
  }

  // ------------------------------------------------------------------ resolution

  /** The row a relocation against n refers to. */
  ghost function Resolved(secs: seq<Section>, n: Name): (r: Row)
    requires n in Index(secs)
    ensures r.name == n
  {
    IndexPoints(secs);
    Rows(secs)[Index(secs)[n]]
  }

  /** The last row of name n. */
  function LastRow(rows: seq<Row>, n: Name): Option<Row> {
    if rows == [] then None
    else if rows[|rows| - 1].name == n then Some(rows[|rows| - 1])
    else LastRow(rows[..|rows| - 1], n)
  }

  lemma {:induction false} LastRowAppend(a: seq<Row>, b: seq<Row>, n: Name)
    ensures LastRow(a + b, n) == if LastRow(b, n).Some? then LastRow(b, n) else LastRow(a, n)
  {
    if b == [] {
      assert a + b == a;
    } else {
      assert (a + b)[..|a + b| - 1] == a + b[..|b| - 1];
      LastRowAppend(a, b[..|b| - 1], n);
    }
  }

  /** A walk that overwrites the index at every row leaves the last row of each name. */
  lemma {:induction false} LastRowIndexed(rows: seq<Row>, start: nat, n: Name)
    requires start <= |rows|
    ensures var m := LastIndex(RowNames(rows), start);
            if n in m then m[n] < |rows| && LastRow(rows[start..], n) == Some(rows[m[n]])
            else LastRow(rows[start..], n) == None
  {
    if start < |rows| {
      var front := rows[..|rows| - 1];
      LastRowIndexed(front, start, n);
      assert RowNames(rows)[..|rows| - 1] == RowNames(front);
      assert rows[start..][..|rows[start..]| - 1] == front[start..];
    }
  }

  lemma {:induction false} LastExported(secs: seq<Section>, ds: seq<Def>, n: Name)
    requires n != []
    ensures LastRow(ExportedRows(secs, ds), n) ==
            match Last(ds, n, ExportedDef)
            case None => None
            case Some(j) => Some(ExportedRow(secs, ds[j]))
  {
    if ds != [] {
      var front, d := ds[..|ds| - 1], ds[|ds| - 1];
      LastExported(secs, front, n);
      LastRowAppend(ExportedRows(secs, front), if IsExported(d) then [ExportedRow(secs, d)] else [], n);
    }
  }

  lemma {:induction false} LastLocal(ds: seq<Def>, n: Name)
    requires n != []
    ensures LastRow(LocalRows(ds), n) ==
            match Last(ds, n, LocalDef)
            case None => None
            case Some(j) => Some(LocalRow(ds[j]))
  {
    if ds != [] {
      var front, d := ds[..|ds| - 1], ds[|ds| - 1];
      LastLocal(front, n);
      LastRowAppend(LocalRows(front), if IsLocal(d) then [LocalRow(d)] else [], n);
    }
  }

  lemma {:induction false} LastExternal(ns: seq<Name>, n: Name)
    ensures LastRow(ExternalRows(ns), n) == if n in ns then Some(ExternalRow(n)) else None
  {
    if ns != [] {
      var k := |ns| - 1;
      LastExternal(ns[..k], n);
      assert ExternalRows(ns)[..k] == ExternalRows(ns[..k]);
      SnocMember(ns);
    }
  }

  lemma LastOfTail(secs: seq<Section>, n: Name)
    requires n != []
    ensures
      var ds, tail := AllDefs(secs), Rows(secs)[1 + |secs|..];
      LastRow(tail, n) ==
      if n in Externals(secs, false) then Some(ExternalRow(n))
      else match Last(ds, n, ExportedDef)
      case Some(j) => Some(ExportedRow(secs, ds[j]))
      case None =>
        match Last(ds, n, LocalDef)
        case Some(j) => Some(LocalRow(ds[j]))
        case None => None
  {
    var ds := AllDefs(secs);
    var local, exported, externals := LocalRows(ds), ExportedRows(secs, ds), ExternalRows(Externals(secs, false));
    assert Rows(secs)[1 + |secs|..] == local + exported + externals;
    LastRowAppend(local + exported, externals, n);
    LastRowAppend(local, exported, n);
    LastExternal(Externals(secs, false), n);
    LastExported(secs, ds, n);
    LastLocal(ds, n);
  }

  lemma PickedDefined(secs: seq<Section>, n: Name, p: Pick)
    ensures Last(AllDefs(secs), n, p).Some? ==> Defined(secs, n)
  {
    var ds := AllDefs(secs);
    if Last(ds, n, p).Some? { assert ds[Last(ds, n, p).value] in ds; }
  }

  /** A target resolves to its last exported definition; failing that, to its last local one;
      and to the undefined row if it has none. */
  lemma Resolution(secs: seq<Section>, n: Name)
    requires n in Index(secs)
    ensures Resolved(secs, n) ==
            match Last(AllDefs(secs), n, ExportedDef)
            case Some(j) => ExportedRow(secs, AllDefs(secs)[j])
            case None =>
              match Last(AllDefs(secs), n, LocalDef)
              case Some(j) => LocalRow(AllDefs(secs)[j])
              case None => ExternalRow(n)
  {
    IndexPoints(secs);
    RowNamed(secs, Index(secs)[n]);
    LastRowIndexed(Rows(secs), 1 + |secs|, n);
    LastOfTail(secs, n);
    ExternalsFacts(secs, false);
    PickedDefined(secs, n, ExportedDef);
    PickedDefined(secs, n, LocalDef);
  }

  /** The binding of the resolved row is local exactly if the name has a local definition
      and no exported one. */
  lemma FinallyLocal(secs: seq<Section>, n: Name)
    requires n in Index(secs)
    ensures var ds := AllDefs(secs);
            Resolved(secs, n).binding == Local <==> Last(ds, n, ExportedDef).None? && Last(ds, n, LocalDef).Some?
  {
    Resolution(secs, n);
  }

  // -------------------------------------------------------------- when it succeeds

  lemma {:induction false} FirstUnsupportedNone(cpu: u32, us: seq<Use>)
    ensures FirstUnsupported(cpu, us).None? <==> forall u | u in us :: Describe(cpu, u.rel.kind).Some?
  {
    if us != [] {
      FirstUnsupportedNone(cpu, us[..|us| - 1]);
      SnocMember(us);
    }
  }

  lemma {:induction false} FirstUnnamedNone(secs: seq<Section>, n: nat)
    requires n <= |secs|
    ensures FirstUnnamed(secs, n).None? <==> forall i | 0 <= i < n :: Named(secs[i])
  {
    if n > 0 { FirstUnnamedNone(secs, n - 1); }
  }

  lemma {:induction false} FirstMissingNone(index: map<Name, nat>, us: seq<Use>)
    ensures FirstMissing(index, us).None? <==> forall u | u in us :: u.rel.symbol in index
  {
    if us != [] {
      FirstMissingNone(index, us[..|us| - 1]);
      SnocMember(us);
    }
  }

  lemma TargetsResolvable(x: Input)
    requires Buildable(x)
    ensures forall i | 0 <= i < |x.secs| :: AllResolvable(x.cpu, Rows(x.secs), Index(x.secs), x.secs[i].relocs)
  {
    FirstUnsupportedNone(x.cpu, AllUses(x.secs));
    FirstMissingNone(Index(x.secs), AllUses(x.secs));
    IndexPoints(x.secs);
    forall i, j | 0 <= i < |x.secs| && 0 <= j < |x.secs[i].relocs|
      ensures Resolvable(x.cpu, Rows(x.secs), Index(x.secs), x.secs[i].relocs[j])
    {
      UsesMember(x.secs, |x.secs|, 0, Use(i, x.secs[i].relocs[j]));
    }
  }

  lemma RowsStored(secs: seq<Section>)
    ensures Stored(Rows(secs), Strtab(secs).offsets)
  {
    var rows := Rows(secs);
    AllInterned(RowStrings(rows));
    forall i | 0 <= i < |rows| ensures RowString(rows[i]) in Strtab(secs).offsets {
      assert RowStrings(rows)[i] in Strtab(secs).offsets;
    }
  }

  /** Whatever passes the checks can be written. */
  lemma TablesWritable(x: Input)
    requires Buildable(x)
    ensures Writable(x, TablesOf(x.secs))
  {
    FirstUnnamedNone(x.secs, |x.secs|);
    TargetsResolvable(x);
    RowsStored(x.secs);
  }

  ghost function Outcome(x: Input): Result<seq<byte>, Error> {
    var e := FirstFailure(x, Index(x.secs));
    if e.Some? then Err(e.value)
    else
      TablesWritable(x);
      Ok(FileOf(x, TablesOf(x.secs)))
  }

  /** Writing fails exactly when some relocation kind does not exist on the CPU, some custom
      section name has no comma, or some relocation target is the empty name. */
  lemma SucceedsIff(x: Input)
    ensures Outcome(x).Ok? <==>
            && (forall u | u in AllUses(x.secs) :: Describe(x.cpu, u.rel.kind).Some? && u.rel.symbol != [])
            && (forall i | 0 <= i < |x.secs| :: Named(x.secs[i]))
  {
    FirstUnsupportedNone(x.cpu, AllUses(x.secs));
    FirstUnnamedNone(x.secs, |x.secs|);
    FirstMissingNone(Index(x.secs), AllUses(x.secs));
    forall u | u in AllUses(x.secs) ensures u.rel.symbol in Index(x.secs) <==> u.rel.symbol != [] {
      TargetIndexed(x.secs, u);
    }
  }
}
