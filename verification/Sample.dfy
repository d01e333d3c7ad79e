/** A small input: a name defined twice, globally in the first section and locally in the
    second, and one relocation against it. */
module Sample {
  import opened Bytes
  import opened Names
  import opened Objects

  const F: Name := [102]

  const GlobalF := Symbol(F, 0, 0, Global, SymData, false)
  const LocalF := Symbol(F, 16, 0, Local, SymData, false)

  /** What varies: the first section's bytes, its relocation, and whether it is link-once. */
  datatype Case = Case(code: seq<byte>, kind: RelocKind, addend: i64, once: bool)

  function Plain(code: seq<byte>): Case { Case(code, Abs64, 7, false) }

  function Patched(c: Case): Reloc { Reloc(0, F, c.kind, c.addend) }

  function Sections(c: Case): (secs: seq<Section>)
    ensures |secs| == 2
  {
    [Section(Data, [], 1, c.code, 0, [GlobalF], [Patched(c)], c.once),
     Section(Data, [], 1, [], 0, [LocalF], [], false)]
  }

  lemma Definitions(c: Case)
    ensures AllDefs(Sections(c)) == [Def(0, GlobalF), Def(1, LocalF)]
  {
    var secs := Sections(c);
    assert Defs(secs, 0, 0) == [];
    assert Defs(secs, 0, 1) == [Def(0, GlobalF)];
    assert Defs(secs, 1, 0) == [Def(0, GlobalF)];
    assert Defs(secs, 1, 1) == [Def(0, GlobalF), Def(1, LocalF)];
  }

  lemma References(c: Case)
    ensures AllUses(Sections(c)) == [Use(0, Patched(c))]
  {
    var secs := Sections(c);
    assert Uses(secs, 0, 0) == [];
    assert Uses(secs, 0, 1) == [Use(0, Patched(c))];
    assert Uses(secs, 1, 0) == [Use(0, Patched(c))];
    assert Uses(secs, 2, 0) == Uses(secs, 1, 0);
  }

  lemma IsDefined(c: Case)
    ensures Defined(Sections(c), F)
  {
    Definitions(c);
    assert Def(0, GlobalF) in AllDefs(Sections(c));
  }

  lemma NoExternals(c: Case, keepEmpty: bool)
    ensures Externals(Sections(c), keepEmpty) == []
  {
    var names := Externals(Sections(c), keepEmpty);
    References(c);
    IsDefined(c);
    ExternalsFacts(Sections(c), keepEmpty);
    forall n ensures n !in names {}
    ElementsEmpty(names);
  }

  /** The last definition of f is the local one, the last exported one the global one. */
  lemma Choices(c: Case)
    ensures var ds := AllDefs(Sections(c));
            && Last(ds, F, AnyDef) == Some(1) && Last(ds, F, ExportedDef) == Some(0) && Last(ds, F, LocalDef) == Some(1)
  {
    Definitions(c);
    var ds := AllDefs(Sections(c));
    assert ds[..1] == [Def(0, GlobalF)];
    assert ds[..1][0] == Def(0, GlobalF);
  }
}
