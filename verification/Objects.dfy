/** The format-independent input: sections with their symbols and relocations. */
module Objects {
  import opened Bytes
  import opened Names

  type u8 = x: int | 0 <= x < 0x100
  type u16 = x: int | 0 <= x < 0x1_0000
  type u32 = x: int | 0 <= x < 0x1_0000_0000
  type u64 = x: int | 0 <= x < 0x1_0000_0000_0000_0000
  type i64 = x: int | -0x8000_0000_0000_0000 <= x < 0x8000_0000_0000_0000

  datatype RelocKind =
    | Abs64 | Abs32
    | PCRel32 | PLT32 | GOTLoad
    | PCRel26 | ADRPage21 | AddOff12 | GOTPage21 | GOTOff12
    | RISCVCall | RISCVHI20 | RISCVLO12I | RISCVLO12S
    | TLSGD | TLSIE | TLSLE
    | IAT | Addr32NB
    | LDST8Off12 | LDST16Off12 | LDST32Off12 | LDST64Off12 | LDST128Off12

  datatype SectionKind = Text | Data | ROData | BSS | Unwind | InitArray | FiniArray | TLS | Custom

  datatype Binding = Local | Global | Weak

  datatype SymbolKind = SymFunc | SymData | SymSection

  datatype Symbol = Symbol(name: Name, offset: u32, size: u32, binding: Binding, kind: SymbolKind,
                           dllExport: bool)

  datatype Reloc = Reloc(offset: u32, symbol: Name, kind: RelocKind, addend: i64)

  /** Of the section flags, linkOnce is FlagLinkOnce; FlagNoDeadStrip affects no writer. */
  datatype Section = Section(kind: SectionKind, custom: Name, align: u32, code: seq<byte>, vsize: u64,
                             symbols: seq<Symbol>, relocs: seq<Reloc>, linkOnce: bool)

  /** A symbol together with the index of the section that defines it. */
  datatype Def = Def(sec: nat, sym: Symbol)

  /** A relocation together with the index of the section it patches. */
  datatype Use = Use(sec: nat, rel: Reloc)

  /** All definitions of sections before i, then the first j of section i: what a
      nested loop over sections and symbols has visited at iteration (i, j). */
  function Defs(secs: seq<Section>, i: nat, j: nat): seq<Def>
    requires i <= |secs| && (if i < |secs| then j <= |secs[i].symbols| else j == 0)
    decreases i, j
  {
    if j > 0 then Defs(secs, i, j - 1) + [Def(i, secs[i].symbols[j - 1])]
    else if i > 0 then Defs(secs, i - 1, |secs[i - 1].symbols|)
    else []
  }

  function Uses(secs: seq<Section>, i: nat, j: nat): seq<Use>
    requires i <= |secs| && (if i < |secs| then j <= |secs[i].relocs| else j == 0)
    decreases i, j
  {
    if j > 0 then Uses(secs, i, j - 1) + [Use(i, secs[i].relocs[j - 1])]
    else if i > 0 then Uses(secs, i - 1, |secs[i - 1].relocs|)
    else []
  }

  function AllDefs(secs: seq<Section>): seq<Def> { Defs(secs, |secs|, 0) }

  function AllUses(secs: seq<Section>): seq<Use> { Uses(secs, |secs|, 0) }

  lemma {:induction false} DefsMember(secs: seq<Section>, i: nat, j: nat, d: Def)
    requires i <= |secs| && (if i < |secs| then j <= |secs[i].symbols| else j == 0)
    ensures d in Defs(secs, i, j) <==>
            (d.sec < i && d.sym in secs[d.sec].symbols) || (d.sec == i && j > 0 && d.sym in secs[i].symbols[..j])
    decreases i, j
  {
    if j > 0 {
      DefsMember(secs, i, j - 1, d);
      assert secs[i].symbols[..j] == secs[i].symbols[..j - 1] + [secs[i].symbols[j - 1]];
    } else if i > 0 {
      DefsMember(secs, i - 1, |secs[i - 1].symbols|, d);
      assert secs[i - 1].symbols[..|secs[i - 1].symbols|] == secs[i - 1].symbols;
    }
  }

  lemma {:induction false} UsesMember(secs: seq<Section>, i: nat, j: nat, u: Use)
    requires i <= |secs| && (if i < |secs| then j <= |secs[i].relocs| else j == 0)
    ensures u in Uses(secs, i, j) <==>
            (u.sec < i && u.rel in secs[u.sec].relocs) || (u.sec == i && j > 0 && u.rel in secs[i].relocs[..j])
    decreases i, j
  {
    if j > 0 {
      UsesMember(secs, i, j - 1, u);
      assert secs[i].relocs[..j] == secs[i].relocs[..j - 1] + [secs[i].relocs[j - 1]];
    } else if i > 0 {
      UsesMember(secs, i - 1, |secs[i - 1].relocs|, u);
      assert secs[i - 1].relocs[..|secs[i - 1].relocs|] == secs[i - 1].relocs;
    }
  }

  lemma {:induction false} UsesPrefix(secs: seq<Section>, i: nat, j: nat)
    requires i <= |secs| && (if i < |secs| then j <= |secs[i].relocs| else j == 0)
    ensures Uses(secs, i, j) <= AllUses(secs)
    decreases |secs| - i, if i < |secs| then |secs[i].relocs| - j else 0
  {
    if i < |secs| {
      if j < |secs[i].relocs| { UsesPrefix(secs, i, j + 1); } else { UsesPrefix(secs, i + 1, 0); }
    }
  }

  /** How many definitions, and relocations, the first i sections have. */
  function DefCount(secs: seq<Section>, i: nat): nat
    requires i <= |secs|
  {
    if i == 0 then 0 else DefCount(secs, i - 1) + |secs[i - 1].symbols|
  }

  function UseCount(secs: seq<Section>, i: nat): nat
    requires i <= |secs|
  {
    if i == 0 then 0 else UseCount(secs, i - 1) + |secs[i - 1].relocs|
  }

  lemma {:induction false} DefsCounted(secs: seq<Section>, i: nat, j: nat)
    requires i <= |secs| && (if i < |secs| then j <= |secs[i].symbols| else j == 0)
    ensures |Defs(secs, i, j)| == DefCount(secs, i) + j
    decreases i, j
  {
    if j > 0 { DefsCounted(secs, i, j - 1); } else if i > 0 { DefsCounted(secs, i - 1, |secs[i - 1].symbols|); }
  }

  lemma {:induction false} UsesCounted(secs: seq<Section>, i: nat, j: nat)
    requires i <= |secs| && (if i < |secs| then j <= |secs[i].relocs| else j == 0)
    ensures |Uses(secs, i, j)| == UseCount(secs, i) + j
    decreases i, j
  {
    if j > 0 { UsesCounted(secs, i, j - 1); } else if i > 0 { UsesCounted(secs, i - 1, |secs[i - 1].relocs|); }
  }

  lemma {:induction false} DefsExtend(secs: seq<Section>, i: nat, j: nat)
    requires i <= |secs| && (if i < |secs| then j <= |secs[i].symbols| else j == 0)
    ensures Defs(secs, i, j) <= AllDefs(secs)
    decreases |secs| - i, if i < |secs| then |secs[i].symbols| - j else 0
  {
    if i < |secs| {
      if j < |secs[i].symbols| { DefsExtend(secs, i, j + 1); } else { DefsExtend(secs, i + 1, 0); }
    }
  }

  /** Definitions and relocations are listed section by section, each in its own order. */
  lemma InOrder(secs: seq<Section>, i: nat, j: nat)
    requires i < |secs|
    ensures j < |secs[i].symbols| ==>
              DefCount(secs, i) + j < |AllDefs(secs)|
              && AllDefs(secs)[DefCount(secs, i) + j] == Def(i, secs[i].symbols[j])
    ensures j < |secs[i].relocs| ==>
              UseCount(secs, i) + j < |AllUses(secs)|
              && AllUses(secs)[UseCount(secs, i) + j] == Use(i, secs[i].relocs[j])
    ensures |AllDefs(secs)| == DefCount(secs, |secs|) && |AllUses(secs)| == UseCount(secs, |secs|)
  {
    if j < |secs[i].symbols| {
      DefsCounted(secs, i, j);
      DefsExtend(secs, i, j + 1);
    }
    if j < |secs[i].relocs| {
      UsesCounted(secs, i, j);
      UsesPrefix(secs, i, j + 1);
    }
    DefsCounted(secs, |secs|, 0);
    UsesCounted(secs, |secs|, 0);
  }

  function DefNames(ds: seq<Def>): set<Name> { set d | d in ds :: d.sym.name }

  function UseNames(us: seq<Use>): set<Name> { set u | u in us :: u.rel.symbol }

  predicate Defined(secs: seq<Section>, n: Name) { n in DefNames(AllDefs(secs)) }

  /** Referenced by some relocation and defined by no section. */
  ghost predicate External(secs: seq<Section>, n: Name) {
    n in UseNames(AllUses(secs)) && !Defined(secs, n)
  }

  // ------------------------------------------------- definitions sharing a name

  /** Which definitions of a name count: every one, those visible outside their section's
      object, the local ones, or the local ones other than section labels. */
  datatype Pick = AnyDef | ExportedDef | LocalDef | PlainDef

  predicate Picked(d: Def, p: Pick) {
    match p
    case AnyDef => true
    case ExportedDef => d.sym.binding != Local
    case LocalDef => d.sym.binding == Local
    case PlainDef => d.sym.binding == Local && d.sym.kind != SymSection
  }

  /** The position of the last definition of n that counts. */
  function Last(ds: seq<Def>, n: Name, p: Pick): (r: Option<nat>)
    ensures r.Some? ==> r.value < |ds| && ds[r.value].sym.name == n && Picked(ds[r.value], p)
  {
    if ds == [] then None
    else if ds[|ds| - 1].sym.name == n && Picked(ds[|ds| - 1], p) then Some(|ds| - 1)
    else Last(ds[..|ds| - 1], n, p)
  }

  lemma {:induction false} LastIsLast(ds: seq<Def>, n: Name, p: Pick)
    ensures forall j | 0 <= j < |ds| && ds[j].sym.name == n && Picked(ds[j], p) ::
              Last(ds, n, p).Some? && j <= Last(ds, n, p).value
  {
    if ds != [] {
      var front := ds[..|ds| - 1];
      LastIsLast(front, n, p);
      forall j | 0 <= j < |ds| && ds[j].sym.name == n && Picked(ds[j], p)
        ensures Last(ds, n, p).Some? && j <= Last(ds, n, p).value
      {
        if j < |front| { assert front[j] == ds[j]; }
      }
    }
  }

  lemma LastDefined(secs: seq<Section>, n: Name)
    ensures Last(AllDefs(secs), n, AnyDef).Some? <==> Defined(secs, n)
  {
    LastIsLast(AllDefs(secs), n, AnyDef);
  }

  /** Sections added behind others leave the earlier definitions where they are. */
  lemma {:induction false} DefsPrefix(a: seq<Section>, b: seq<Section>, i: nat, j: nat)
    requires i <= |a| && if i < |a| then j <= |a[i].symbols| else j == 0
    ensures Defs(a + b, i, j) == Defs(a, i, j)
    decreases i, j
  {
    if j > 0 {
      DefsPrefix(a, b, i, j - 1);
    } else if i > 0 {
      DefsPrefix(a, b, i - 1, |a[i - 1].symbols|);
    }
  }

  /** The loop over all symbols that fills the set of defined names. */
  method CollectDefined(secs: seq<Section>) returns (defined: set<Name>)
    ensures defined == DefNames(AllDefs(secs))
  {
    defined := {};
    for i := 0 to |secs|
      invariant defined == DefNames(Defs(secs, i, 0))
    {
      for j := 0 to |secs[i].symbols|
        invariant defined == DefNames(Defs(secs, i, j))
      {
        defined := defined + {secs[i].symbols[j].name};
      }
    }
  }

  /** externalSymbols / externalRefs: the ascending list of referenced but undefined
      names.  The ELF and Mach-O writers skip the empty name, the COFF writer keeps it. */
  method ExternalSymbols(secs: seq<Section>, keepEmpty: bool) returns (names: seq<Name>)
    ensures names == Externals(secs, keepEmpty)
  {
    var defined := CollectDefined(secs);
    var seen: set<Name> := {};
    for i := 0 to |secs|
      invariant seen == set n | n in UseNames(Uses(secs, i, 0)) && n !in defined && (keepEmpty || n != [])
    {
      for j := 0 to |secs[i].relocs|
        invariant seen == set n | n in UseNames(Uses(secs, i, j)) && n !in defined && (keepEmpty || n != [])
      {
        var r := secs[i].relocs[j];
        ghost var before := Uses(secs, i, j);
        assert Uses(secs, i, j + 1) == before + [Use(i, r)];
        assert UseNames(before + [Use(i, r)]) == UseNames(before) + {r.symbol};
        if (keepEmpty || r.symbol != []) && r.symbol !in defined {
          seen := seen + {r.symbol};
        }
      }
    }
    names := SortedKeys(seen);
  }

  ghost function Externals(secs: seq<Section>, keepEmpty: bool): seq<Name> {
    SortedOf(set n | n in UseNames(AllUses(secs)) && n !in DefNames(AllDefs(secs)) && (keepEmpty || n != []))
  }

  /** The external list is ascending and lists exactly the referenced, undefined names. */
  lemma ExternalsFacts(secs: seq<Section>, keepEmpty: bool)
    ensures Ascending(Externals(secs, keepEmpty))
    ensures forall n :: n in Externals(secs, keepEmpty) <==> External(secs, n) && (keepEmpty || n != [])
  {
    SortedOfFacts(set n | n in UseNames(AllUses(secs)) && n !in DefNames(AllDefs(secs)) && (keepEmpty || n != []));
  }
}
