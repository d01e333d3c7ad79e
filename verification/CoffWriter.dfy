/** The COFF writer itself, phase by phase, each proved to compute its part of CoffSpec. */
module CoffWriter {
  import opened Bytes
  import opened Bits
  import opened Names
  import opened Objects
  import opened StringTable
  import opened Output
  import opened Patch
  import opened CoffFormat
  import opened CoffSpec
  import opened CoffTables
  import Layout

  // ------------------------------------------------------- phase 1: section list

  lemma ExportsSnoc(ds: seq<Def>, d: Def)
    ensures Exports(ds + [d]) == Exports(ds) + if d.sym.dllExport then [d.sym.name] else []
  {
    assert (ds + [d])[..|ds|] == ds;
  }

  /** buildDrectve: one linker directive per exported symbol, or nothing. */
  method BuildDrectve(secs: seq<Section>) returns (r: Option<Section>)
    ensures r == var names := Exports(AllDefs(secs)); if names == [] then None else Some(Drectve(names))
  {
    var exports: seq<Name> := [];
    for i := 0 to |secs|
      invariant exports == Exports(Defs(secs, i, 0))
    {
      for j := 0 to |secs[i].symbols|
        invariant exports == Exports(Defs(secs, i, j))
      {
        ExportsSnoc(Defs(secs, i, j), Def(i, secs[i].symbols[j]));
        if secs[i].symbols[j].dllExport { exports := exports + [secs[i].symbols[j].name]; }
      }
    }
    if |exports| == 0 { return None; }
    var text: seq<byte> := [];
    for k := 0 to |exports|
      invariant text == DirectiveText(exports[..k])
    {
      assert exports[..k + 1][..k] == exports[..k];
      text := text + Ascii(" /EXPORT:") + exports[k];
    }
    assert exports[..|exports|] == exports;
    r := Some(Section(Custom, Ascii(".drectve"), 1, text, 0, [], [], false));
  }

  lemma {:induction false} EmptyCustomSticks(secs: seq<Section>, i: nat, n: nat)
    requires i <= n <= |secs| && EmptyCustom(secs, i).Some?
    ensures EmptyCustom(secs, n) == EmptyCustom(secs, i)
  {
    if i < n { EmptyCustomSticks(secs, i, n - 1); }
  }

  method CheckCustomNames(secs: seq<Section>) returns (e: Option<Error>)
    ensures e == EmptyCustom(secs, |secs|)
  {
    for i := 0 to |secs|
      invariant EmptyCustom(secs, i).None?
    {
      if secs[i].kind == Custom && secs[i].custom == [] {
        EmptyCustomSticks(secs, i + 1, |secs|);
        return Some(EmptyCustomName(i));
      }
    }
    e := None;
  }

  // ---------------------------------------------------------- phase 2: metadata

  datatype SecMeta = SecMeta(name: Name, chars: nat, align: nat, rawSize: nat, resSize: nat, isBSS: bool)

  function MetaOf(s: Section): SecMeta {
    SecMeta(SectionName(s), Chars(s), EffectiveAlign(s), RawSize(s), if BssLike(s) then ReserveSize(s) else 0,
        BssLike(s))
  }

  function MetasOf(secs: seq<Section>): (ms: seq<SecMeta>)
    ensures |ms| == |secs| && forall i | 0 <= i < |secs| :: ms[i] == MetaOf(secs[i])
  {
    seq(|secs|, i requires 0 <= i < |secs| => MetaOf(secs[i]))
  }

  /** What the phases between metadata and headers use of it. */
  ghost predicate Describes(m: SecMeta, s: Section) {
    m.name == SectionName(s) && m.align == EffectiveAlign(s) && m.rawSize == RawSize(s) && m.isBSS == BssLike(s)
  }

  ghost predicate AllDescribed(meta: seq<SecMeta>, secs: seq<Section>) {
    |meta| == |secs| && forall i | 0 <= i < |meta| :: Describes(meta[i], secs[i])
  }

  lemma MetasDescribe(secs: seq<Section>)
    ensures AllDescribed(MetasOf(secs), secs)
  {
  }

  method FirstGlobalName(s: Section) returns (n: Name)
    ensures n == FirstGlobal(s.symbols)
  {
    for j := 0 to |s.symbols|
      invariant FirstGlobal(s.symbols[j..]) == FirstGlobal(s.symbols)
    {
      assert s.symbols[j..][1..] == s.symbols[j + 1..];
      if s.symbols[j].binding == Global { return s.symbols[j].name; }
    }
    n := [];
  }

  method SectionCoffName(s: Section) returns (n: Name)
    ensures n == SectionName(s)
  {
    if s.linkOnce {
      var key := FirstGlobalName(s);
      if key != [] { return key; }
    }
    n := BaseName(s);
  }

  method SectionChars(s: Section, align: u32) returns (chars: nat)
    ensures chars == Or(BaseChars(s), AlignFlag(align))
  {
    var flag := ComputeAlignFlag(align);
    chars := Or(BaseChars(s), flag);
  }

  method BuildMeta(s: Section) returns (m: SecMeta)
    ensures m == MetaOf(s)
  {
    var name := SectionCoffName(s);
    var align := EffectiveAlign(s);
    var isBSS := BssLike(s);
    var chars := SCN_LNK_INFO + SCN_LNK_REMOVE + 0x10_0000;
    if !IsDrectve(s) { chars := SectionChars(s, align); }
    var rawSize, resSize := 0, 0;
    if isBSS { resSize := ReserveSize(s); } else { rawSize := |s.code|; }
    m := SecMeta(name, chars, align, rawSize, resSize, isBSS);
  }

  method BuildMetas(secs: seq<Section>) returns (meta: seq<SecMeta>)
    ensures meta == MetasOf(secs)
  {
    meta := [];
    for i := 0 to |secs|
      invariant |meta| == i && forall k | 0 <= k < i :: meta[k] == MetaOf(secs[k])
    {
      var m := BuildMeta(secs[i]);
      meta := meta + [m];
    }
  }

  // ------------------------------------------------------ phase 3: string table

  lemma LongSnoc(t: StrTable, ns: seq<Name>, n: Name)
    ensures t.InternAll(Long(ns + [n])) == if IsLong(n) then t.InternAll(Long(ns)).Intern(n) else t.InternAll(Long(ns))
  {
    assert (ns + [n])[..|ns|] == ns;
    InternAllSnoc(t, Long(ns), n);
    assert Long(ns) + [] == Long(ns);
  }

  /** Interns n if it does not fit inline. */
  method InternLong(n: Name, st: StrTab, ghost base: StrTable, ghost run: seq<Name>)
    requires st.Value() == base.InternAll(Long(run))
    modifies st
    ensures st.Value() == base.InternAll(Long(run + [n]))
  {
    LongSnoc(base, run, n);
    if |n| > 8 {
      var _ := st.Intern(n);
    }
  }

  method InternSection(name: Name, symbols: seq<Symbol>, st: StrTab, ghost run: seq<Name>)
    requires st.Value() == Empty.InternAll(Long(run))
    modifies st
    ensures st.Value() == Empty.InternAll(Long(run + [name] + SymbolNames(symbols)))
  {
    InternLong(name, st, Empty, run);
    assert run + [name] + SymbolNames(symbols[..0]) == run + [name];
    for j := 0 to |symbols|
      invariant st.Value() == Empty.InternAll(Long(run + [name] + SymbolNames(symbols[..j])))
    {
      InternLong(symbols[j].name, st, Empty, run + [name] + SymbolNames(symbols[..j]));
      assert SymbolNames(symbols[..j + 1]) == SymbolNames(symbols[..j]) + [symbols[j].name];
      assert run + [name] + SymbolNames(symbols[..j + 1])
             == run + [name] + SymbolNames(symbols[..j]) + [symbols[j].name];
    }
    assert symbols[..|symbols|] == symbols;
  }

  lemma NameRunStep(secs: seq<Section>, i: nat)
    requires i < |secs|
    ensures NameRun(secs, i + 1) == NameRun(secs, i) + [SectionName(secs[i])] + SymbolNames(secs[i].symbols)
  {
  }

  method InternExternals(extRefs: seq<Name>, st: StrTab)
    modifies st
    ensures st.Value() == old(st.Value()).InternAll(Long(extRefs))
  {
    ghost var base := st.Value();
    for k := 0 to |extRefs|
      invariant st.Value() == base.InternAll(Long(extRefs[..k]))
    {
      InternLong(extRefs[k], st, base, extRefs[..k]);
      assert extRefs[..k + 1] == extRefs[..k] + [extRefs[k]];
    }
    assert extRefs[..|extRefs|] == extRefs;
  }

  method InternSections(secs: seq<Section>, meta: seq<SecMeta>, st: StrTab)
    requires AllDescribed(meta, secs) && st.Value() == Empty
    modifies st
    ensures st.Value() == Empty.InternAll(Long(NameRun(secs, |secs|)))
  {
    for i := 0 to |secs|
      invariant st.Value() == Empty.InternAll(Long(NameRun(secs, i)))
    {
      NameRunStep(secs, i);
      InternSection(meta[i].name, secs[i].symbols, st, NameRun(secs, i));
    }
  }

  method BuildStrings(secs: seq<Section>, meta: seq<SecMeta>, extRefs: seq<Name>) returns (st: StrTab)
    requires AllDescribed(meta, secs) && extRefs == Externals(secs, true)
    ensures fresh(st) && st.Value() == Strtab(secs)
  {
    st := new StrTab(Empty);
    InternSections(secs, meta, st);
    InternExternals(extRefs, st);
  }

  // ------------------------------------------------------ phase 4: symbol table

  /** encodeSymName: may intern, though after phase 3 it always hits. */
  method EncodeSymName(name: Name, st: StrTab) returns (f: seq<byte>)
    modifies st
    ensures st.Value() == if IsLong(name) then old(st.Value()).Intern(name) else old(st.Value())
    ensures IsLong(name) ==> name in st.offsets
    ensures f == SymbolNameField(name, st.offsets)
  {
    if |name| <= 8 { return Padded(name, 8); }
    var off := st.Intern(name);
    var b := new byte[8](_ => 0);
    PutLE(b, 4, 4, off + 4);
    f := b[..];
    assert f == b[..4] + b[4..4 + 4] + b[4 + 4..];
    assert b[..4] == Zeros(4);
  }

  /** The slots appended so far, encoded. */
  ghost predicate Encoded(slots: seq<Slot>, table: seq<seq<byte>>, offsets: map<Name, nat>) {
    |table| == |slots| && forall i | 0 <= i < |slots| ::
      Nameable(slots[i], offsets) && table[i] == SlotBytes(slots[i], offsets)
  }

  lemma EncodedSnoc(slots: seq<Slot>, table: seq<seq<byte>>, offsets: map<Name, nat>, slot: Slot)
    requires Encoded(slots, table, offsets) && Nameable(slot, offsets)
    ensures Encoded(slots + [slot], table + [SlotBytes(slot, offsets)], offsets)
  {
  }

  /** encodeSymbol, for a name the table already has. */
  method AppendSymbol(slot: Slot, st: StrTab, table: seq<seq<byte>>, ghost slots: seq<Slot>)
    returns (table': seq<seq<byte>>)
    requires slot.Primary? && Nameable(slot, st.offsets) && Encoded(slots, table, st.offsets)
    modifies st
    ensures st.Value() == old(st.Value())
    ensures Encoded(slots + [slot], table', st.offsets)
  {
    var name := EncodeSymName(slot.name, st);
    EncodedSnoc(slots, table, st.offsets, slot);
    var data := Join([name, LE(4, slot.value), LE(2, slot.section), LE(2, slot.typ), LE(1, slot.class_),
                      LE(1, slot.nAux)]);
    table' := table + [data];
  }

  /** encodeCOMDATAux. */
  method AppendDefinition(rawSize: nat, nRelocs: nat, ghost offsets: map<Name, nat>, table: seq<seq<byte>>,
      ghost slots: seq<Slot>)
    returns (table': seq<seq<byte>>)
    requires Encoded(slots, table, offsets)
    ensures Encoded(slots + [Aux(rawSize, nRelocs)], table', offsets)
  {
    EncodedSnoc(slots, table, offsets, Aux(rawSize, nRelocs));
    var data := Join([LE(4, rawSize), LE(2, nRelocs), LE(2, 0), LE(4, 0), LE(2, 0), LE(1, COMDAT_SELECT_ANY),
        Zeros(3)]);
    table' := table + [data];
  }

  lemma SectionSlotsStep(secs: seq<Section>, i: nat)
    requires i < |secs|
    ensures SectionSlots(secs, i + 1) ==
            SectionSlots(secs, i)
            + [Primary(SectionName(secs[i]), 0, i + 1, TYPE_NULL, CLASS_STATIC, if secs[i].linkOnce then 1 else 0)]
            + if secs[i].linkOnce then [Aux(RawSize(secs[i]), |secs[i].relocs|)] else []
  {
  }

  method AppendSection(i: nat, s: Section, m: SecMeta, st: StrTab, table0: seq<seq<byte>>, ghost slots: seq<Slot>)
    returns (table: seq<seq<byte>>)
    requires Encoded(slots, table0, st.offsets) && (IsLong(m.name) ==> m.name in st.offsets)
    modifies st
    ensures st.Value() == old(st.Value())
    ensures Encoded(slots + [Primary(m.name, 0, i + 1, TYPE_NULL, CLASS_STATIC, if s.linkOnce then 1 else 0)]
                    + (if s.linkOnce then [Aux(m.rawSize, |s.relocs|)] else []), table, st.offsets)
  {
    var slot := Primary(m.name, 0, i + 1, TYPE_NULL, CLASS_STATIC, if s.linkOnce then 1 else 0);
    table := AppendSymbol(slot, st, table0, slots);
    if s.linkOnce {
      table := AppendDefinition(m.rawSize, |s.relocs|, st.offsets, table, slots + [slot]);
    } else {
      assert slots + [slot] + [] == slots + [slot];
    }
  }

  /** One symbol per section and, for link-once sections, its definition record. */
  method SectionSymbols(secs: seq<Section>, meta: seq<SecMeta>, st: StrTab) returns (table: seq<seq<byte>>)
    requires AllDescribed(meta, secs) && SectionsNamed(secs, st.offsets)
    modifies st
    ensures st.Value() == old(st.Value())
    ensures Encoded(SectionSlots(secs, |secs|), table, st.offsets)
  {
    table := [];
    for i := 0 to |secs|
      invariant st.Value() == old(st.Value())
      invariant Encoded(SectionSlots(secs, i), table, st.offsets)
    {
      SectionSlotsStep(secs, i);
      table := AppendSection(i, secs[i], meta[i], st, table, SectionSlots(secs, i));
    }
  }

  /** What the symbol loops keep about the index. */
  ghost predicate Indexed(slots: seq<Slot>, index: map<Name, nat>, start: nat) {
    start <= |slots| && index == LastIndex(SlotNames(slots), start)
  }

  lemma IndexedSnoc(slots: seq<Slot>, index: map<Name, nat>, start: nat, slot: Slot)
    requires Indexed(slots, index, start) && slot.Primary?
    ensures Indexed(slots + [slot], index[slot.name := |slots|], start)
  {
    LastIndexSnoc(SlotNames(slots), start, slot.name);
    assert SlotNames(slots + [slot]) == SlotNames(slots) + [slot.name];
  }

  lemma DefSlotsSnoc(base: seq<Slot>, ds: seq<Def>, d: Def)
    ensures base + DefSlots(ds + [d]) == base + DefSlots(ds) + [DefSlot(d)]
  {
    assert DefSlots(ds + [d]) == DefSlots(ds) + [DefSlot(d)];
  }

  predicate DefsNameable(secs: seq<Section>, offsets: map<Name, nat>) {
    forall i, j | 0 <= i < |secs| && 0 <= j < |secs[i].symbols| ::
      IsLong(secs[i].symbols[j].name) ==> secs[i].symbols[j].name in offsets
  }

  method DefinedSymbols(secs: seq<Section>, st: StrTab, table0: seq<seq<byte>>, ghost base: seq<Slot>)
    returns (table: seq<seq<byte>>, index: map<Name, nat>)
    requires Encoded(base, table0, st.offsets) && DefsNameable(secs, st.offsets)
    modifies st
    ensures st.Value() == old(st.Value())
    ensures Encoded(base + DefSlots(AllDefs(secs)), table, st.offsets)
    ensures Indexed(base + DefSlots(AllDefs(secs)), index, |base|)
  {
    table, index := table0, map[];
    LastIndexEmpty(SlotNames(base), |base|);
    assert base + DefSlots([]) == base;
    for i := 0 to |secs|
      invariant st.Value() == old(st.Value())
      invariant Encoded(base + DefSlots(Defs(secs, i, 0)), table, st.offsets)
      invariant Indexed(base + DefSlots(Defs(secs, i, 0)), index, |base|)
    {
      for j := 0 to |secs[i].symbols|
        invariant st.Value() == old(st.Value())
        invariant Encoded(base + DefSlots(Defs(secs, i, j)), table, st.offsets)
        invariant Indexed(base + DefSlots(Defs(secs, i, j)), index, |base|)
      {
        var d := Def(i, secs[i].symbols[j]);
        ghost var slots := base + DefSlots(Defs(secs, i, j));
        IndexedSnoc(slots, index, |base|, DefSlot(d));
        DefSlotsSnoc(base, Defs(secs, i, j), d);
        index := index[d.sym.name := |table|];
        table := AppendSymbol(DefSlot(d), st, table, slots);
      }
    }
  }

  lemma ExternalSlotsSnoc(base: seq<Slot>, ns: seq<Name>, k: nat)
    requires k < |ns|
    ensures base + ExternalSlots(ns[..k + 1]) == base + ExternalSlots(ns[..k]) + [ExternalSlot(ns[k])]
  {
    assert ExternalSlots(ns[..k + 1]) == ExternalSlots(ns[..k]) + [ExternalSlot(ns[k])];
  }

  lemma NotIndexed(names: seq<Name>, start: nat, n: Name)
    requires forall i | start <= i < |names| :: names[i] != n
    ensures n !in LastIndex(names, start)
  {
    LastIndexFacts(names, start);
  }

  lemma OtherNames(base: seq<Slot>, ds: seq<Def>, ns: seq<Name>, k: nat, i: nat)
    requires k < |ns| && Ascending(ns) && forall j | 0 <= j < |ds| :: ds[j].sym.name != ns[k]
    requires |base| <= i < |base| + |ds| + k
    ensures SlotNames(base + DefSlots(ds) + ExternalSlots(ns[..k]))[i] != ns[k]
  {
    if i >= |base| + |ds| {
      var e := i - |base| - |ds|;
      assert Less(ns[e], ns[k]);
      LessTotal(ns[e], ns[k]);
    }
  }

  /** No external name has a slot yet when its turn comes. */
  lemma ExternalFresh(secs: seq<Section>, k: nat)
    requires k < |Externals(secs, true)|
    ensures Externals(secs, true)[k] !in
            LastIndex(SlotNames(SectionSlots(secs, |secs|) + DefSlots(AllDefs(secs))
                                + ExternalSlots(Externals(secs, true)[..k])),
                      |SectionSlots(secs, |secs|)|)
  {
    var base, ds, ns := SectionSlots(secs, |secs|), AllDefs(secs), Externals(secs, true);
    ExternalsFacts(secs, true);
    assert ns[k] in ns;
    forall j | 0 <= j < |ds| ensures ds[j].sym.name != ns[k] { assert ds[j] in ds; }
    var names := SlotNames(base + DefSlots(ds) + ExternalSlots(ns[..k]));
    forall i | |base| <= i < |names| ensures names[i] != ns[k] { OtherNames(base, ds, ns, k, i); }
    NotIndexed(names, |base|, ns[k]);
  }

  /** Undefined externals, skipping names that already have a slot. */
  method ExternalSymbolSlots(secs: seq<Section>, extRefs: seq<Name>, st: StrTab, table0: seq<seq<byte>>,
                             index0: map<Name, nat>)
    returns (table: seq<seq<byte>>, index: map<Name, nat>)
    requires extRefs == Externals(secs, true)
    requires forall n | n in extRefs :: IsLong(n) ==> n in st.offsets
    requires var base := SectionSlots(secs, |secs|) + DefSlots(AllDefs(secs));
             Encoded(base, table0, st.offsets) && Indexed(base, index0, |SectionSlots(secs, |secs|)|)
    modifies st
    ensures st.Value() == old(st.Value())
    ensures Encoded(Slots(secs), table, st.offsets) && index == Index(secs)
  {
    ghost var start, base := |SectionSlots(secs, |secs|)|, SectionSlots(secs, |secs|) + DefSlots(AllDefs(secs));
    table, index := table0, index0;
    assert base + ExternalSlots(extRefs[..0]) == base;
    for k := 0 to |extRefs|
      invariant st.Value() == old(st.Value())
      invariant Encoded(base + ExternalSlots(extRefs[..k]), table, st.offsets)
      invariant Indexed(base + ExternalSlots(extRefs[..k]), index, start)
    {
      ghost var slots := base + ExternalSlots(extRefs[..k]);
      ExternalFresh(secs, k);
      if extRefs[k] in index { continue; }
      IndexedSnoc(slots, index, start, ExternalSlot(extRefs[k]));
      ExternalSlotsSnoc(base, extRefs, k);
      index := index[extRefs[k] := |table|];
      assert extRefs[k] in extRefs;
      table := AppendSymbol(ExternalSlot(extRefs[k]), st, table, slots);
    }
    assert extRefs[..|extRefs|] == extRefs;
  }

  lemma NamesReady(secs: seq<Section>)
    ensures SectionsNamed(secs, Strtab(secs).offsets) && DefsNameable(secs, Strtab(secs).offsets)
    ensures forall n | n in Externals(secs, true) :: IsLong(n) ==> n in Strtab(secs).offsets
  {
    NamesStored(secs);
    forall i, j | 0 <= i < |secs| && 0 <= j < |secs[i].symbols|
      ensures IsLong(secs[i].symbols[j].name) ==> secs[i].symbols[j].name in Strtab(secs).offsets
    {
      NameRunHas(secs, |secs|, i);
      SourcedStored(secs, secs[i].symbols[j].name);
    }
    forall n | n in Externals(secs, true) ensures IsLong(n) ==> n in Strtab(secs).offsets { SourcedStored(secs, n); }
  }

  /** Phase 4. */
  method BuildSymbols(secs: seq<Section>, meta: seq<SecMeta>, extRefs: seq<Name>, st: StrTab)
    returns (table: seq<seq<byte>>, index: map<Name, nat>)
    requires AllDescribed(meta, secs) && extRefs == Externals(secs, true) && st.Value() == Strtab(secs)
    modifies st
    ensures st.Value() == Strtab(secs)
    ensures Encoded(Slots(secs), table, Strtab(secs).offsets) && index == Index(secs)
  {
    NamesReady(secs);
    table := SectionSymbols(secs, meta, st);
    table, index := DefinedSymbols(secs, st, table, SectionSlots(secs, |secs|));
    table, index := ExternalSymbolSlots(secs, extRefs, st, table, index);
  }

  // -------------------------------------------------------- phase 5: relocations

  datatype SecRelocs = SecRelocs(records: seq<Record>, rtypes: seq<nat>)

  /** The native types of rs. */
  function NativeTypes(machine: u16, rs: seq<Reloc>): (ts: seq<nat>)
    requires Supported(machine, rs)
    ensures |ts| == |rs| && forall i | 0 <= i < |rs| :: ts[i] == RelocType(machine, rs[i].kind).value
  {
    seq(|rs|, i requires 0 <= i < |rs| => RelocType(machine, rs[i].kind).value)
  }

  /** The encoded relocations of rs and their native types. */
  ghost predicate RelocsDone(machine: u16, index: map<Name, nat>, rs: seq<Reloc>, done: SecRelocs) {
    && Resolvable(machine, index, rs)
    && done.records == RelocRecords(machine, index, rs) && done.rtypes == NativeTypes(machine, rs)
  }

  lemma RelocsDoneSnoc(machine: u16, index: map<Name, nat>, rs: seq<Reloc>, done: SecRelocs, r: Reloc)
    requires RelocsDone(machine, index, rs, done)
    requires r.symbol in index && RelocType(machine, r.kind).Some?
    ensures RelocsDone(machine, index, rs + [r],
                       SecRelocs(done.records + [RelocRecord(machine, index, r)],
                                 done.rtypes + [RelocType(machine, r.kind).value]))
  {
    assert Resolvable(machine, index, rs + [r]);
    assert RelocRecords(machine, index, rs + [r])
           == RelocRecords(machine, index, rs) + [RelocRecord(machine, index, r)];
    assert NativeTypes(machine, rs + [r]) == NativeTypes(machine, rs) + [RelocType(machine, r.kind).value];
  }

  lemma {:induction false} FirstErrorSticks(machine: u16, index: map<Name, nat>, a: seq<Use>, b: seq<Use>)
    requires a <= b && FirstError(machine, index, a).Some?
    ensures FirstError(machine, index, b) == FirstError(machine, index, a)
    decreases |b|
  {
    if |a| < |b| { FirstErrorSticks(machine, index, a, b[..|b| - 1]); } else { assert a == b; }
  }

  /** The error at (i, j), if nothing failed before it, is the error of the whole phase. */
  lemma ErrorHere(machine: u16, index: map<Name, nat>, secs: seq<Section>, i: nat, j: nat)
    requires i < |secs| && j < |secs[i].relocs|
    requires FirstError(machine, index, Uses(secs, i, j)).None?
    ensures FirstError(machine, index, Uses(secs, i, j + 1)) == CheckUse(machine, index, Use(i, secs[i].relocs[j]))
    ensures CheckUse(machine, index, Use(i, secs[i].relocs[j])).Some? ==>
              FirstError(machine, index, AllUses(secs)) == CheckUse(machine, index, Use(i, secs[i].relocs[j]))
  {
    assert Uses(secs, i, j + 1)[..|Uses(secs, i, j)|] == Uses(secs, i, j);
    if CheckUse(machine, index, Use(i, secs[i].relocs[j])).Some? {
      UsesPrefix(secs, i, j + 1);
      FirstErrorSticks(machine, index, Uses(secs, i, j + 1), AllUses(secs));
    }
  }

  method EncodeReloc(machine: u16, index: map<Name, nat>, i: nat, rel: Reloc) returns (r: Result<(Record, nat), Error>)
    ensures r.Err? ==> CheckUse(machine, index, Use(i, rel)) == Some(r.error)
    ensures r.Ok? ==> CheckUse(machine, index, Use(i, rel)).None?
                      && r.value == (RelocRecord(machine, index, rel), RelocType(machine, rel.kind).value)
  {
    if rel.symbol !in index { return Err(MissingSymbol(i, rel.symbol)); }
    var rtype := RelocType(machine, rel.kind);
    if rtype.None? { return Err(UnsupportedReloc(i, rel.kind)); }
    r := Ok(([LE(4, rel.offset), LE(4, index[rel.symbol]), LE(2, rtype.value)], rtype.value));
  }

  method EncodeRelocs(machine: u16, secs: seq<Section>, index: map<Name, nat>, i: nat)
    returns (r: Result<SecRelocs, Error>)
    requires i < |secs| && FirstError(machine, index, Uses(secs, i, 0)).None?
    ensures r.Err? ==> FirstError(machine, index, AllUses(secs)) == Some(r.error)
    ensures r.Ok? ==> FirstError(machine, index, Uses(secs, i + 1, 0)).None?
    ensures r.Ok? ==> RelocsDone(machine, index, secs[i].relocs, r.value)
  {
    var rs := secs[i].relocs;
    var done := SecRelocs([], []);
    for j := 0 to |rs|
      invariant RelocsDone(machine, index, rs[..j], done)
      invariant FirstError(machine, index, Uses(secs, i, j)).None?
    {
      ErrorHere(machine, index, secs, i, j);
      var rec := EncodeReloc(machine, index, i, rs[j]);
      if rec.Err? { return Err(rec.error); }
      RelocsDoneSnoc(machine, index, rs[..j], done, rs[j]);
      assert rs[..j + 1] == rs[..j] + [rs[j]];
      done := SecRelocs(done.records + [rec.value.0], done.rtypes + [rec.value.1]);
    }
    assert rs[..|rs|] == rs;
    r := Ok(done);
  }

  ghost predicate AllRelocsDone(machine: u16, index: map<Name, nat>, secs: seq<Section>, n: nat, secRel: seq<SecRelocs>)
    requires n <= |secs|
  {
    |secRel| == n && forall i | 0 <= i < n :: RelocsDone(machine, index, secs[i].relocs, secRel[i])
  }

  /** Phase 5: the records of every section, or the first error. */
  method BuildRelocs(machine: u16, secs: seq<Section>, index: map<Name, nat>) returns (r: Result<seq<SecRelocs>, Error>)
    ensures r.Err? ==> FirstError(machine, index, AllUses(secs)) == Some(r.error)
    ensures r.Ok? ==> FirstError(machine, index, AllUses(secs)).None?
                      && AllRelocsDone(machine, index, secs, |secs|, r.value)
  {
    var secRel: seq<SecRelocs> := [];
    for i := 0 to |secs|
      invariant AllRelocsDone(machine, index, secs, i, secRel)
      invariant FirstError(machine, index, Uses(secs, i, 0)).None?
    {
      var done := EncodeRelocs(machine, secs, index, i);
      if done.Err? { return Err(done.error); }
      secRel := secRel + [done.value];
    }
    r := Ok(secRel);
  }

  // ------------------------------------------------------------- phase 6: layout

  datatype SecLayout = SecLayout(rawOff: nat, relocOff: nat, nRelocs: nat)

  function LayoutOf(secs: seq<Section>, k: nat): SecLayout
    requires k < |secs|
  {
    SecLayout(RawOff(secs, k), RelocOff(secs, k), RelocCount(secs[k]))
  }

  ghost predicate LaidOut(secs: seq<Section>, n: nat, layout: seq<SecLayout>)
    requires n <= |secs|
  {
    |layout| == n && forall k | 0 <= k < n :: layout[k] == LayoutOf(secs, k)
  }

  lemma {:induction false} OverfullSticks(secs: seq<Section>, i: nat, n: nat)
    requires i <= n <= |secs| && Overfull(secs, i).Some?
    ensures Overfull(secs, n) == Overfull(secs, i)
  {
    if i < n { OverfullSticks(secs, i, n - 1); }
  }

  lemma OverfullHere(secs: seq<Section>, i: nat)
    requires i < |secs| && Overfull(secs, i).None?
    ensures var full := !BssLike(secs[i]) && |secs[i].relocs| > 0xFFFF;
            && (full ==> Overfull(secs, |secs|) == Some(TooManyRelocs(i, |secs[i].relocs|)))
            && (!full ==> Overfull(secs, i + 1).None?)
  {
    if Overfull(secs, i + 1).Some? { OverfullSticks(secs, i + 1, |secs|); }
  }

  /** One section's place and the position behind it. */
  method PlaceSection(secs: seq<Section>, m: SecMeta, nr: nat, k: nat, pos0: nat) returns (l: SecLayout, pos: nat)
    requires k < |secs| && Describes(m, secs[k]) && nr == |secs[k].relocs| && pos0 == Pos(secs, k)
    ensures l == LayoutOf(secs, k) && pos == Pos(secs, k + 1)
  {
    l, pos := SecLayout(0, 0, 0), pos0;
    if m.isBSS { return; }
    pos := AlignUp(pos, m.align);
    l := l.(rawOff := pos);
    pos := pos + m.rawSize;
    if nr > 0 {
      l := l.(relocOff := pos, nRelocs := nr);
      pos := pos + nr * RELOC_SIZE;
    }
  }

  /** Phase 6: predicted offsets, or the first section with too many relocations. */
  method BuildLayout(secs: seq<Section>, meta: seq<SecMeta>, secRel: seq<SecRelocs>)
    returns (r: Result<seq<SecLayout>, Error>, symTabOff: nat)
    requires AllDescribed(meta, secs) && |secRel| == |secs|
    requires forall i | 0 <= i < |secs| :: |secRel[i].records| == |secs[i].relocs|
    ensures r.Err? ==> Overfull(secs, |secs|) == Some(r.error)
    ensures r.Ok? ==> Overfull(secs, |secs|).None? && LaidOut(secs, |secs|, r.value) && symTabOff == Pos(secs, |secs|)
  {
    var layout: seq<SecLayout> := [];
    var pos := HeaderEnd(|secs|);
    symTabOff := 0;
    for i := 0 to |secs|
      invariant LaidOut(secs, i, layout) && pos == Pos(secs, i) && Overfull(secs, i).None?
    {
      var nr := |secRel[i].records|;
      OverfullHere(secs, i);
      if !meta[i].isBSS && nr > 0xFFFF { return Err(TooManyRelocs(i, nr)), 0; }
      var l;
      l, pos := PlaceSection(secs, meta[i], nr, i, pos);
      layout := layout + [l];
    }
    r, symTabOff := Ok(layout), pos;
  }

  // ---------------------------------------------------------- phase 7: serialise

  /** applyImplicitAddends: addends are baked into a fresh copy; the caller's code is not touched. */
  method ApplyImplicitAddends(code: seq<byte>, relocs: seq<Reloc>, rtypes: seq<nat>, machine: u16)
    returns (patched: seq<byte>)
    requires Supported(machine, relocs) && rtypes == NativeTypes(machine, relocs)
    ensures patched == Apply(code, AddendWrites(machine, relocs))
  {
    if |relocs| == 0 { return code; }
    ghost var ws := AddendWrites(machine, relocs);
    var a := new byte[|code|](i requires 0 <= i < |code| => code[i]);
    assert a[..] == code;
    for i := 0 to |relocs|
      invariant a[..] == Apply(code, ws[..i])
    {
      assert ws[..i + 1] == ws[..i] + [ws[i]];
      PatchLE(a, relocs[i].offset, AddendSize(rtypes[i]), BakedAddend(machine, rtypes[i], relocs[i].addend), code,
          ws[..i]);
    }
    assert ws[..|relocs|] == ws;
    patched := a[..];
  }

  /** setSectionName: may intern, though after phase 3 it always hits. */
  method SetSectionName(name: Name, st: StrTab) returns (f: seq<byte>)
    modifies st
    ensures st.Value() == if IsLong(name) then old(st.Value()).Intern(name) else old(st.Value())
    ensures IsLong(name) ==> name in st.offsets
    ensures f == SectionNameField(name, st.offsets)
  {
    if |name| <= 8 { return Padded(name, 8); }
    var off := st.Intern(name);
    f := Padded([SLASH] + Digits(off + 4), 8);
  }

  method WriteHeader(m: SecMeta, l: SecLayout, ghost secs: seq<Section>, ghost k: nat, st: StrTab, out: Buffer)
    requires k < |secs| && m == MetaOf(secs[k]) && l == LayoutOf(secs, k)
    requires IsLong(m.name) ==> m.name in st.offsets
    modifies st, out
    ensures st.Value() == old(st.Value())
    ensures out.data == old(out.data) + Join(HeaderRecord(secs, k, st.offsets))
  {
    var name := SetSectionName(m.name, st);
    var size, raw := m.rawSize, l.rawOff;
    if m.isBSS { size, raw := m.resSize, 0; }
    out.Write(Join([name, LE(4, 0), LE(4, 0), LE(4, size), LE(4, raw), LE(4, l.relocOff), LE(4, 0), LE(2, l.nRelocs),
                    LE(2, 0), LE(4, m.chars)]));
  }

  method WriteHeaders(meta: seq<SecMeta>, layout: seq<SecLayout>, ghost secs: seq<Section>, st: StrTab, out: Buffer)
    requires meta == MetasOf(secs) && LaidOut(secs, |secs|, layout) && SectionsNamed(secs, st.offsets)
    modifies st, out
    ensures st.Value() == old(st.Value())
    ensures out.data == old(out.data) + Table(HeaderRecords(secs, st.offsets))
  {
    ghost var start, recs := out.data, HeaderRecords(secs, st.offsets);
    assert start + [] == start;
    for i := 0 to |meta|
      invariant st.Value() == old(st.Value()) && out.data == start + Table(recs[..i])
    {
      TableGrows(start, recs, i);
      WriteHeader(meta[i], layout[i], secs, i, st, out);
    }
    assert recs[..|meta|] == recs;
  }

  /** One section's baked bytes and its relocation records, at the predicted offset. */
  method WriteSection(machine: u16, ghost index: map<Name, nat>, s: Section, done: SecRelocs, rawOff: nat, out: Buffer)
    requires RelocsDone(machine, index, s.relocs, done)
    modifies out
    ensures out.data == PadTo(old(out.data), rawOff) + ChunkData(machine, index, s)
  {
    out.PadTo(rawOff);
    ghost var start := out.data;
    var code := ApplyImplicitAddends(s.code, s.relocs, done.rtypes, machine);
    out.Write(code);
    out.WriteTable(done.records);
    assert out.data == start + code + Table(done.records);
    assert start + code + Table(done.records) == start + (code + Table(done.records));
  }

  /** What the earlier phases hand to the output loop. */
  ghost predicate Ready(machine: u16, index: map<Name, nat>, secs: seq<Section>, meta: seq<SecMeta>,
                        secRel: seq<SecRelocs>, layout: seq<SecLayout>) {
    && Sound(machine, secs, index) && AllDescribed(meta, secs) && LaidOut(secs, |secs|, layout)
    && AllRelocsDone(machine, index, secs, |secs|, secRel)
  }

  /** The output behind the first i sections. */
  ghost function Through(b: seq<byte>, machine: u16, index: map<Name, nat>, secs: seq<Section>, i: nat): seq<byte>
    requires Sound(machine, secs, index) && i <= |secs|
  {
    Emit(b, Chunks(machine, index, secs, i))
  }

  /** What the output loop needs at section i. */
  lemma ReadyAt(machine: u16, index: map<Name, nat>, secs: seq<Section>, meta: seq<SecMeta>, secRel: seq<SecRelocs>,
                layout: seq<SecLayout>, i: nat)
    requires i < |secs| && Ready(machine, index, secs, meta, secRel, layout)
    ensures |meta| == |secRel| == |layout| == |secs| && meta[i].isBSS == Extents(secs)[i].skip
    ensures layout[i].rawOff == RawOff(secs, i) && RelocsDone(machine, index, secs[i].relocs, secRel[i])
  {
    assert Describes(meta[i], secs[i]);
  }

  /** What section i adds to the output so far. */
  lemma TurnAt(b: seq<byte>, machine: u16, index: map<Name, nat>, secs: seq<Section>, m: SecMeta, l: SecLayout, i: nat)
    requires i < |secs| && Sound(machine, secs, index)
    requires m.isBSS == Extents(secs)[i].skip && l.rawOff == RawOff(secs, i)
    ensures Through(b, machine, index, secs, i + 1)
         == if m.isBSS then Through(b, machine, index, secs, i)
            else PadTo(Through(b, machine, index, secs, i), l.rawOff) + ChunkData(machine, index, secs[i])
  {
    Layout.EmitStep(b, HeaderEnd(|secs|), Extents(secs), ChunkDatas(machine, index, secs), i);
  }

  /** One turn of the output loop: section i, if it has file bytes. */
  method WriteSectionAt(machine: u16, secs: seq<Section>, meta: seq<SecMeta>, ghost index: map<Name, nat>,
                        secRel: seq<SecRelocs>, layout: seq<SecLayout>, i: nat, ghost b: seq<byte>, out: Buffer)
    requires i < |secs| && Ready(machine, index, secs, meta, secRel, layout)
    requires out.data == Through(b, machine, index, secs, i)
    modifies out
    ensures out.data == Through(b, machine, index, secs, i + 1)
  {
    ReadyAt(machine, index, secs, meta, secRel, layout, i);
    TurnAt(b, machine, index, secs, meta[i], layout[i], i);
    if meta[i].isBSS { return; }
    WriteSection(machine, index, secs[i], secRel[i], layout[i].rawOff, out);
  }

  method WriteSections(machine: u16, secs: seq<Section>, meta: seq<SecMeta>, ghost index: map<Name, nat>,
                       secRel: seq<SecRelocs>, layout: seq<SecLayout>, out: Buffer)
    requires Ready(machine, index, secs, meta, secRel, layout)
    modifies out
    ensures out.data == Emit(old(out.data), Chunks(machine, index, secs, |secs|))
  {
    ghost var b := out.data;
    for i := 0 to |secs|
      invariant out.data == Through(b, machine, index, secs, i)
    {
      WriteSectionAt(machine, secs, meta, index, secRel, layout, i, b, out);
    }
  }

  method WriteSymbols(table: seq<seq<byte>>, ghost slots: seq<Slot>, ghost offsets: map<Name, nat>, out: Buffer)
    requires Encoded(slots, table, offsets)
    modifies out
    ensures out.data == old(out.data) + Table(SlotRecords(slots, offsets))
  {
    ghost var start, recs := out.data, SlotRecords(slots, offsets);
    assert start + [] == start;
    for k := 0 to |table|
      invariant out.data == start + Table(recs[..k])
    {
      TableGrows(start, recs, k);
      JoinOne(table[k]);
      out.Write(table[k]);
    }
    assert recs[..|table|] == recs;
  }

  lemma JoinOne(x: seq<byte>)
    ensures Join([x]) == x
  {
    assert [x][1..] == [];
  }

  method WriteFileHeader(machine: u16, nSec: nat, symTabOff: nat, nSlots: nat) returns (out: Buffer)
    ensures fresh(out) && out.data == Join(FileHeader(machine, nSec, symTabOff, nSlots))
  {
    out := new Buffer();
    out.Write(Join([LE(2, machine), LE(2, nSec), LE(4, 0), LE(4, symTabOff), LE(4, nSlots), LE(2, 0), LE(2, 0)]));
  }

  /** bytes: the size, itself included, then the strings. */
  method StringBytes(st: StrTab) returns (b: seq<byte>)
    ensures b == StrtabBytes(st.Value())
  {
    var size := new byte[4](_ => 0);
    PutLE(size, 0, 4, 4 + |st.data|);
    assert size[..] == size[..0] + size[0..0 + 4] + size[0 + 4..];
    b := size[..] + st.data;
  }

  /** The symbol table and the string table behind it. */
  method WriteSymbolBlock(machine: u16, secs: seq<Section>, ghost t: Tables, table: seq<seq<byte>>, st: StrTab,
                          symTabOff: nat, out: Buffer)
    requires Writable(machine, secs, t) && Encoded(t.slots, table, t.strtab.offsets) && st.Value() == t.strtab
    modifies out
    ensures out.data == PadTo(old(out.data), symTabOff) + SymbolBlock(machine, secs, t)
  {
    out.PadTo(symTabOff);
    ghost var start := out.data;
    WriteSymbols(table, t.slots, t.strtab.offsets, out);
    var strs := StringBytes(st);
    out.Write(strs);
    ghost var syms := Table(SlotRecords(t.slots, t.strtab.offsets));
    assert start + syms + strs == start + (syms + strs);
  }

  /** What phases 1 to 6 hand to serialisation. */
  ghost predicate Prepared(machine: u16, secs: seq<Section>, t: Tables, meta: seq<SecMeta>, table: seq<seq<byte>>,
                           secRel: seq<SecRelocs>, layout: seq<SecLayout>) {
    && Writable(machine, secs, t) && meta == MetasOf(secs) && Encoded(t.slots, table, t.strtab.offsets)
    && AllRelocsDone(machine, t.index, secs, |secs|, secRel) && LaidOut(secs, |secs|, layout)
  }

  method WritePreamble(machine: u16, secs: seq<Section>, ghost t: Tables, meta: seq<SecMeta>, layout: seq<SecLayout>,
                       nSlots: nat, symTabOff: nat, st: StrTab)
    returns (out: Buffer)
    requires Writable(machine, secs, t) && meta == MetasOf(secs) && LaidOut(secs, |secs|, layout)
    requires nSlots == |t.slots| && symTabOff == Pos(secs, |secs|) && st.Value() == t.strtab
    modifies st
    ensures fresh(out) && st.Value() == t.strtab
    ensures out.data == Preamble(machine, secs, t)
  {
    out := WriteFileHeader(machine, |secs|, symTabOff, nSlots);
    WriteHeaders(meta, layout, secs, st, out);
  }

  /** Phase 7. */
  method Serialise(machine: u16, secs: seq<Section>, ghost t: Tables, meta: seq<SecMeta>, table: seq<seq<byte>>,
                   secRel: seq<SecRelocs>, layout: seq<SecLayout>, symTabOff: nat, st: StrTab)
    returns (b: seq<byte>)
    requires Prepared(machine, secs, t, meta, table, secRel, layout)
    requires symTabOff == Pos(secs, |secs|) && st.Value() == t.strtab
    modifies st
    ensures b == FileOf(machine, secs, t)
  {
    var out := WritePreamble(machine, secs, t, meta, layout, |table|, symTabOff, st);
    ghost var preamble := out.data;
    MetasDescribe(secs);
    WriteSections(machine, secs, meta, t.index, secRel, layout, out);
    WriteSymbolBlock(machine, secs, t, table, st, symTabOff, out);
    EmitSnoc(preamble, Chunks(machine, t.index, secs, |secs|), Placement(symTabOff, SymbolBlock(machine, secs, t)));
    b := out.data;
  }

  // ------------------------------------------------------------------- the writer

  method BuildTables(secs: seq<Section>, meta: seq<SecMeta>)
    returns (st: StrTab, table: seq<seq<byte>>, index: map<Name, nat>)
    requires AllDescribed(meta, secs)
    ensures fresh(st) && st.Value() == Strtab(secs)
    ensures Encoded(Slots(secs), table, Strtab(secs).offsets) && index == Index(secs)
  {
    var extRefs := ExternalSymbols(secs, true);
    st := BuildStrings(secs, meta, extRefs);
    table, index := BuildSymbols(secs, meta, extRefs, st);
  }

  lemma RecordCounts(machine: u16, index: map<Name, nat>, secs: seq<Section>, secRel: seq<SecRelocs>)
    requires AllRelocsDone(machine, index, secs, |secs|, secRel)
    ensures forall i | 0 <= i < |secs| :: |secRel[i].records| == |secs[i].relocs|
  {
    forall i | 0 <= i < |secs| ensures |secRel[i].records| == |secs[i].relocs| {
      assert RelocsDone(machine, index, secs[i].relocs, secRel[i]);
    }
  }

  /** Phases 5 to 7, for the tables of phases 3 and 4. */
  method BuildFile(machine: u16, secs: seq<Section>, meta: seq<SecMeta>, st: StrTab, table: seq<seq<byte>>,
                   index: map<Name, nat>)
    returns (r: Result<seq<byte>, Error>)
    requires meta == MetasOf(secs) && st.Value() == Strtab(secs)
    requires Encoded(Slots(secs), table, Strtab(secs).offsets) && index == Index(secs)
    requires |secs| <= 0xFFFF && EmptyCustom(secs, |secs|).None?
    modifies st
    ensures r.Err? ==> FirstFailure(machine, secs, index) == Some(r.error)
    ensures r.Ok? ==> Buildable(machine, secs) && Writable(machine, secs, TablesOf(secs))
    ensures r.Ok? ==> r.value == FileOf(machine, secs, TablesOf(secs))
  {
    var secRel := BuildRelocs(machine, secs, index);
    if secRel.Err? { return Err(secRel.error); }
    RecordCounts(machine, index, secs, secRel.value);
    MetasDescribe(secs);
    var layout, symTabOff := BuildLayout(secs, meta, secRel.value);
    if layout.Err? { return Err(layout.error); }
    TablesWritable(machine, secs);
    var b := Serialise(machine, secs, TablesOf(secs), meta, table, secRel.value, layout.value, symTabOff, st);
    r := Ok(b);
  }

  /** build, up to the section list. */
  method BuildSections(machine: u16, secs: seq<Section>) returns (r: Result<seq<byte>, Error>)
    ensures r.Err? ==> FirstFailure(machine, secs, Index(secs)) == Some(r.error)
    ensures r.Ok? ==> Buildable(machine, secs) && Writable(machine, secs, TablesOf(secs))
    ensures r.Ok? ==> r.value == FileOf(machine, secs, TablesOf(secs))
  {
    if |secs| > 0xFFFF { return Err(TooManySections(|secs|)); }
    var e := CheckCustomNames(secs);
    if e.Some? { return Err(e.value); }
    var meta := BuildMetas(secs);
    MetasDescribe(secs);
    var st, table, index := BuildTables(secs, meta);
    r := BuildFile(machine, secs, meta, st, table, index);
  }

  method Build(machine: u16, sections: seq<Section>) returns (r: Result<seq<byte>, Error>)
    ensures r == Outcome(machine, sections)
  {
    var secs := sections;
    var drec := BuildDrectve(sections);
    if drec.Some? { secs := secs + [drec.value]; }
    assert secs == AllSections(sections);
    r := BuildSections(machine, secs);
  }

  /** coff.File: accumulates sections and serialises them. */
  class File {
    var machine: u16
    var sections: seq<Section>

    constructor (arm64: bool)
      ensures sections == [] && machine == if arm64 then MACHINE_ARM64 else MACHINE_AMD64
    {
      sections := [];
      if arm64 { machine := MACHINE_ARM64; } else { machine := MACHINE_AMD64; }
    }

    method AddSection(s: Section)
      modifies this`sections
      ensures sections == old(sections) + [s]
    {
      sections := sections + [s];
    }

    /** Changes nothing, so that serialising again gives the same bytes. */
    method Serialize() returns (r: Result<seq<byte>, Error>)
      ensures r == Outcome(machine, sections)
    {
      r := Build(machine, sections);
    }
  }
}
