/** The whole symbol table of a COFF file, decoded by the numbers of the PE/COFF specification
    (sections 5.4 and 5.5.5) and compared with the input. */
module CoffSymbols {
  import opened Names
  import opened Objects
  import opened CoffSpec
  import opened CoffTables
  import opened CoffWalk
  import opened CoffReader
  import opened CoffMeaning

  /** Classes EXTERNAL and STATIC; a function's complex type is 2, and nothing else has one. */
  predicate IsDef(v: SymbolView, d: Def) {
    && v.name == d.sym.name && v.section == 1 + d.sec && v.value == d.sym.offset && v.definition.None?
    && v.typ == (if d.sym.kind == SymFunc then 0x20 else 0)
    && v.class_ == (if d.sym.binding == Local then 3 else 2)
  }

  predicate IsUndefined(v: SymbolView, n: Name) {
    v.name == n && v.section == 0 && v.value == 0 && v.typ == 0 && v.class_ == 2 && v.definition.None?
  }

  // --------------------------------------------------------------- section names

  predicate IsBaseName(n: Name, s: Section) {
    match s.kind
    case Text => n == Ascii(".text")
    case Data => n == Ascii(".data")
    case ROData => n == Ascii(".rdata")
    case BSS => n == Ascii(".bss")
    case Unwind => n == Ascii(".pdata")
    case InitArray => n == Ascii(".CRT$XCU")
    case FiniArray => n == Ascii(".CRT$XTZ")
    case TLS => n == if s.code == [] then Ascii(".tls$ZZZ") else Ascii(".tls")
    case Custom => n == s.custom
  }

  /** The first global symbol; weak ones do not count. */
  predicate FirstGlobalAt(syms: seq<Symbol>, j: nat) {
    j < |syms| && syms[j].binding == Global && forall k | 0 <= k < j :: syms[k].binding != Global
  }

  /** A link-once section is named after its first global symbol, if that has a name. */
  ghost predicate IsNamed(n: Name, s: Section) {
    if s.linkOnce && exists j: nat :: FirstGlobalAt(s.symbols, j) && s.symbols[j].name != []
    then exists j: nat :: FirstGlobalAt(s.symbols, j) && n == s.symbols[j].name
    else IsBaseName(n, s)
  }

  lemma {:induction false} FirstGlobalIs(syms: seq<Symbol>)
    ensures forall j: nat :: FirstGlobalAt(syms, j) ==> FirstGlobal(syms) == syms[j].name
    ensures FirstGlobal(syms) != [] ==> exists j: nat :: FirstGlobalAt(syms, j) && syms[j].name == FirstGlobal(syms)
  {
    if syms != [] {
      FirstGlobalIs(syms[1..]);
      forall j: nat | FirstGlobalAt(syms, j) ensures FirstGlobal(syms) == syms[j].name {
        if j > 0 { FirstGlobalTail(syms, j - 1); }
      }
      if syms[0].binding != Global && FirstGlobal(syms) != [] {
        var j: nat :| FirstGlobalAt(syms[1..], j) && syms[1..][j].name == FirstGlobal(syms);
        FirstGlobalTail(syms, j);
      } else if FirstGlobal(syms) != [] {
        assert FirstGlobalAt(syms, 0);
      }
    }
  }

  lemma FirstGlobalTail(syms: seq<Symbol>, j: nat)
    requires syms != [] && syms[0].binding != Global
    ensures FirstGlobalAt(syms[1..], j) <==> FirstGlobalAt(syms, j + 1)
  {
    if FirstGlobalAt(syms, j + 1) {
      forall k | 0 <= k < j ensures syms[1..][k].binding != Global { assert syms[k + 1].binding != Global; }
    }
  }

  lemma NameRead(s: Section)
    ensures IsNamed(CoffSpec.SectionName(s), s)
  {
    FirstGlobalIs(s.symbols);
  }

  // ---------------------------------------------------------------- the symbol table

  /** The static symbol of section number i + 1: with a definition record exactly if the
      section is link-once, for which any of several copies may stand. */
  ghost predicate IsSectionEntry(v: SymbolView, i: nat, s: Section) {
    && IsNamed(v.name, s) && v.section == i + 1 && v.value == 0 && v.typ == 0 && v.class_ == 3
    && (v.definition.Some? <==> s.linkOnce)
    && (s.linkOnce ==>
          v.definition.value == Definition(if s.kind == BSS then 0 else |s.code|, |s.relocs|, 0, 0, 0, 2))
  }

  lemma SectionEntryRead(secs: seq<Section>, i: nat)
    requires i < |secs|
    ensures IsSectionEntry(SectionSymbol(secs, i), i, secs[i])
  {
    NameRead(secs[i]);
  }

  /** One entry for each section, one for each definition, one for each undefined name that
      is referred to, in this order, and no other. */
  ghost predicate TableIs(vs: seq<SymbolView>, secs: seq<Section>, ds: seq<Def>, externals: seq<Name>) {
    && |vs| == |secs| + |ds| + |externals|
    && (forall i | 0 <= i < |secs| :: IsSectionEntry(vs[i], i, secs[i]))
    && (forall k | 0 <= k < |ds| :: IsDef(vs[|secs| + k], ds[k]))
    && forall k | 0 <= k < |externals| :: IsUndefined(vs[|secs| + |ds| + k], externals[k])
  }

  lemma SectionPart(secs: seq<Section>, vs: seq<SymbolView>)
    requires SectionSymbols(secs, 0) <= vs
    ensures forall i | 0 <= i < |secs| :: IsSectionEntry(vs[i], i, secs[i])
  {
    forall i | 0 <= i < |secs| ensures IsSectionEntry(vs[i], i, secs[i]) {
      assert vs[i] == SectionSymbols(secs, 0)[i];
      SectionEntryRead(secs, i);
    }
  }

  lemma PlainPart(secs: seq<Section>, slots: seq<Slot>, start: nat, k: nat)
    requires slots == Slots(secs) && start == |SectionSlots(secs, |secs|)|
    requires PlainFrom(slots, start) && k < |slots| - start
    ensures var v, ds := PlainViews(slots, start)[k], AllDefs(secs);
            if k < |ds| then IsDef(v, ds[k])
            else k - |ds| < |Externals(secs, true)| && IsUndefined(v, Externals(secs, true)[k - |ds|])
  {
    SlotParts(secs, start + k);
  }

  lemma Joined(secs: seq<Section>, slots: seq<Slot>, start: nat, vs: seq<SymbolView>, j: nat)
    requires start <= |slots| && PlainFrom(slots, start)
    requires vs == SectionSymbols(secs, 0) + PlainViews(slots, start) && j < |slots| - start
    ensures vs[|secs| + j] == PlainViews(slots, start)[j]
  {
  }

  /** What follows the sections' symbols. */
  lemma PlainAt(secs: seq<Section>, vs: seq<SymbolView>, k: nat)
    requires Regular(Slots(secs)) && vs == Views(Slots(secs), 0) && k < |AllDefs(secs)| + |Externals(secs, true)|
    ensures |vs| == |secs| + |AllDefs(secs)| + |Externals(secs, true)|
    ensures k < |AllDefs(secs)| ==> IsDef(vs[|secs| + k], AllDefs(secs)[k])
    ensures k >= |AllDefs(secs)| ==> IsUndefined(vs[|secs| + k], Externals(secs, true)[k - |AllDefs(secs)|])
  {
    WalkOrder(secs);
    Joined(secs, Slots(secs), |SectionSlots(secs, |secs|)|, vs, k);
    PlainPart(secs, Slots(secs), |SectionSlots(secs, |secs|)|, k);
  }

  lemma SectionsFirst(secs: seq<Section>, vs: seq<SymbolView>)
    requires Regular(Slots(secs)) && vs == Views(Slots(secs), 0)
    ensures |vs| == |secs| + |AllDefs(secs)| + |Externals(secs, true)|
    ensures forall i | 0 <= i < |secs| :: IsSectionEntry(vs[i], i, secs[i])
  {
    WalkOrder(secs);
    SectionPart(secs, vs);
  }

  lemma ViewsAre(secs: seq<Section>, vs: seq<SymbolView>)
    requires Regular(Slots(secs)) && vs == Views(Slots(secs), 0)
    ensures TableIs(vs, secs, AllDefs(secs), Externals(secs, true))
  {
    var ds, ns := AllDefs(secs), Externals(secs, true);
    SectionsFirst(secs, vs);
    forall k | 0 <= k < |ds| ensures IsDef(vs[|secs| + k], ds[k]) { PlainAt(secs, vs, k); }
    forall k | 0 <= k < |ns| ensures IsUndefined(vs[|secs| + |ds| + k], ns[k]) { PlainAt(secs, vs, |ds| + k); }
  }
}
