/** Walking a COFF symbol table, and following relocations into it. */
module CoffWalk {
  import opened Bytes
  import opened Names
  import opened Objects
  import opened StringTable
  import opened CoffFormat
  import opened CoffSpec
  import opened CoffTables
  import opened CoffRoundTrip
  import R = CoffReader

  // ------------------------------------------------------------ the symbol walk

  /** A section-definition slot follows exactly the symbols that announce one. */
  predicate RegularAt(slots: seq<Slot>, k: nat)
    requires k < |slots|
  {
    if slots[k].Primary? then
      slots[k].nAux <= 1 && if slots[k].nAux == 1 then k + 1 < |slots| && slots[k + 1].Aux?
                            else k + 1 < |slots| ==> slots[k + 1].Primary?
    else k + 1 < |slots| ==> slots[k + 1].Primary?
  }

  predicate Regular(slots: seq<Slot>) {
    (slots != [] ==> slots[0].Primary?) && forall k: nat | k < |slots| :: RegularAt(slots, k)
  }

  lemma RegularAppend(a: seq<Slot>, c: seq<Slot>)
    requires Regular(a) && Regular(c)
    ensures Regular(a + c)
  {
    forall k: nat | k < |a + c| ensures RegularAt(a + c, k) {
      if k < |a| { assert RegularAt(a, k); } else { assert RegularAt(c, k - |a|); }
    }
  }

  lemma {:induction false} SectionSlotsRegular(secs: seq<Section>, n: nat)
    requires n <= |secs|
    ensures Regular(SectionSlots(secs, n))
  {
    if n > 0 {
      SectionSlotsRegular(secs, n - 1);
      var s := secs[n - 1];
      var here := [Primary(SectionName(s), 0, n, TYPE_NULL, CLASS_STATIC, if s.linkOnce then 1 else 0)]
                  + if s.linkOnce then [Aux(RawSize(s), |s.relocs|)] else [];
      RegularAppend(SectionSlots(secs, n - 1), here);
      assert SectionSlots(secs, n) == SectionSlots(secs, n - 1) + here;
    }
  }

  lemma PlainRegular(slots: seq<Slot>)
    requires forall k | 0 <= k < |slots| :: slots[k].Primary? && slots[k].nAux == 0
    ensures Regular(slots)
  {
  }

  lemma SlotsRegular(secs: seq<Section>)
    ensures Regular(Slots(secs))
  {
    var a, d, e := SectionSlots(secs, |secs|), DefSlots(AllDefs(secs)), ExternalSlots(Externals(secs, true));
    SectionSlotsRegular(secs, |secs|);
    PlainRegular(d);
    PlainRegular(e);
    RegularAppend(a, d);
    RegularAppend(a + d, e);
  }

  /** A definition record for sections of which any copy will do. */
  function DefinitionOf(length: nat, nRelocs: nat): R.Definition {
    R.Definition(length, nRelocs, 0, 0, 0, COMDAT_SELECT_ANY)
  }

  /** What a reader sees of the symbol in slot k. */
  function ViewAt(slots: seq<Slot>, k: nat): R.SymbolView
    requires k < |slots| && slots[k].Primary? && RegularAt(slots, k)
  {
    var s := slots[k];
    R.SymbolView(k, s.name, s.value, s.section, s.typ, s.class_,
                 if s.nAux == 0 then None
                 else Some(DefinitionOf(slots[k + 1].length, slots[k + 1].nRelocs)))
  }

  /** The symbols at or after slot k, one for every primary slot. */
  function Views(slots: seq<Slot>, k: nat): seq<R.SymbolView>
    requires Regular(slots) && k <= |slots|
    decreases |slots| - k
  {
    if k == |slots| then []
    else if slots[k].Primary? then [ViewAt(slots, k)] + Views(slots, k + 1)
    else Views(slots, k + 1)
  }

  /** A slot whose fields can hold it and whose name survives encoding. */
  predicate SlotFits(slot: Slot) {
    match slot
    case Primary(name, value, section, typ, class_, nAux) =>
      name != [] && NulFree(name) && value < 0x1_0000_0000 && section < 0x8000 && typ < 0x1_0000
      && class_ < 0x100 && nAux < 0x100
    case Aux(length, nRelocs) => length < 0x1_0000_0000 && nRelocs < 0x1_0000
  }

  /** The slots lie in the file as the header h says, and t is the table strs was made from. */
  ghost predicate SlotsSeen(b: seq<byte>, h: R.Header, slots: seq<Slot>, t: StrTable) {
    && h.nSlots == |slots| && Regular(slots) && t.Sound() && |t.data| < 0xFFFF_FFFC
    && forall k: nat | k < |slots| :: SlotSeen(b, h, slots[k], k, t)
  }

  ghost predicate SlotSeen(b: seq<byte>, h: R.Header, slot: Slot, k: nat, t: StrTable) {
    Nameable(slot, t.offsets) && SlotFits(slot)
    && At(b, Bytes.Slot(h.symOff, k, SYM_SIZE), SlotBytes(slot, t.offsets))
  }

  lemma AuxReads(b: seq<byte>, h: R.Header, slot: Slot, k: nat, t: StrTable)
    requires SlotSeen(b, h, slot, k, t) && slot.Aux?
    ensures R.ReadDefinition(b, h, k) == Some(DefinitionOf(slot.length, slot.nRelocs))
  {
    ReadJoined(AUX, b, Bytes.Slot(h.symOff, k, SYM_SIZE), SlotRecord(slot, t.offsets));
    Pow256Values();
    LEFits(4, slot.length);
    LEFits(2, slot.nRelocs);
    LEFits(1, COMDAT_SELECT_ANY);
    LEFits(2, 0);
    LEFits(4, 0);
  }

  lemma PrimaryFieldsRead(slot: Slot, offsets: map<Name, nat>)
    requires Nameable(slot, offsets) && SlotFits(slot) && slot.Primary?
    ensures var f := SlotRecord(slot, offsets);
            && FromLE(f[1]) == slot.value && Signed(2, FromLE(f[2])) == slot.section && FromLE(f[3]) == slot.typ
            && FromLE(f[4]) == slot.class_ && FromLE(f[5]) == slot.nAux
  {
    Pow256Values();
    LEFits(4, slot.value);
    LEFits(2, slot.section);
    LEFits(2, slot.typ);
    LEFits(1, slot.class_);
    LEFits(1, slot.nAux);
  }

  lemma SymbolFrom(b: seq<byte>, h: R.Header, strs: seq<byte>, slots: seq<Slot>, k: nat, f: Record)
    requires k < |slots| && slots[k].Primary? && RegularAt(slots, k)
    requires ReadRecord(SYM, b, Bytes.Slot(h.symOff, k, SYM_SIZE)) == Some(f)
    requires |f[0]| == 8 && R.SymbolName(strs, f[0]) == Some(slots[k].name)
    requires FromLE(f[1]) == slots[k].value && Signed(2, FromLE(f[2])) == slots[k].section
    requires FromLE(f[3]) == slots[k].typ && FromLE(f[4]) == slots[k].class_ && FromLE(f[5]) == slots[k].nAux
    requires slots[k].nAux == 1 ==>
               R.ReadDefinition(b, h, k + 1)
               == Some(DefinitionOf(slots[k + 1].length, slots[k + 1].nRelocs))
    ensures R.ReadSymbol(b, h, strs, k) == Some((ViewAt(slots, k), slots[k].nAux))
  {
  }

  lemma SymbolReads(b: seq<byte>, h: R.Header, slots: seq<Slot>, t: StrTable, k: nat)
    requires SlotsSeen(b, h, slots, t) && k < |slots| && slots[k].Primary?
    ensures RegularAt(slots, k)
    ensures R.ReadSymbol(b, h, StrtabBytes(t), k) == Some((ViewAt(slots, k), slots[k].nAux))
  {
    assert RegularAt(slots, k) && SlotSeen(b, h, slots[k], k, t);
    var f := SlotRecord(slots[k], t.offsets);
    ReadJoined(SYM, b, Bytes.Slot(h.symOff, k, SYM_SIZE), f);
    PrimaryFieldsRead(slots[k], t.offsets);
    SymbolNameReads(t, slots[k].name);
    if slots[k].nAux == 1 {
      assert SlotSeen(b, h, slots[k + 1], k + 1, t);
      AuxReads(b, h, slots[k + 1], k + 1, t);
    }
    SymbolFrom(b, h, StrtabBytes(t), slots, k, f);
  }

  lemma ViewsStep(slots: seq<Slot>, k: nat)
    requires Regular(slots) && k < |slots| && slots[k].Primary?
    ensures RegularAt(slots, k) && k + 1 + slots[k].nAux <= |slots|
    ensures k + 1 + slots[k].nAux < |slots| ==> slots[k + 1 + slots[k].nAux].Primary?
    ensures Views(slots, k) == [ViewAt(slots, k)] + Views(slots, k + 1 + slots[k].nAux)
  {
    assert RegularAt(slots, k);
    if slots[k].nAux == 1 { assert RegularAt(slots, k + 1); }
  }

  /** One step of the walk. */
  lemma WalkStep(b: seq<byte>, h: R.Header, slots: seq<Slot>, t: StrTable, k: nat, rest: seq<R.SymbolView>)
    requires SlotsSeen(b, h, slots, t) && k < |slots| && slots[k].Primary?
    requires R.Walk(b, h, StrtabBytes(t), k + 1 + slots[k].nAux) == Some(rest)
    ensures R.Walk(b, h, StrtabBytes(t), k) == Some([ViewAt(slots, k)] + rest)
  {
    SymbolReads(b, h, slots, t, k);
    FollowStep(h.nSlots, k, (i: nat) => R.ReadSymbol(b, h, StrtabBytes(t), i), ViewAt(slots, k), slots[k].nAux, rest);
  }

  /** Stepping by one plus the number of auxiliary slots visits every primary slot once,
      in order, never an auxiliary one, and ends exactly at the number of slots. */
  lemma {:induction false} WalkReads(b: seq<byte>, h: R.Header, slots: seq<Slot>, t: StrTable, k: nat)
    requires SlotsSeen(b, h, slots, t) && k <= |slots| && (k < |slots| ==> slots[k].Primary?)
    ensures R.Walk(b, h, StrtabBytes(t), k) == Some(Views(slots, k))
    decreases |slots| - k
  {
    if k < |slots| {
      ViewsStep(slots, k);
      var next := k + 1 + slots[k].nAux;
      WalkReads(b, h, slots, t, next);
      WalkStep(b, h, slots, t, k, Views(slots, next));
    }
  }

  /** Looking up a slot among the walked symbols finds the primary record in it. */
  lemma {:induction false} ViewFound(slots: seq<Slot>, k: nat, i: nat)
    requires Regular(slots) && k <= i < |slots| && slots[i].Primary?
    ensures RegularAt(slots, i)
    ensures R.SymbolAt(Views(slots, k), i) == Some(ViewAt(slots, i))
    decreases |slots| - k
  {
    if k < i {
      ViewFound(slots, k + 1, i);
      if slots[k].Primary? { assert Views(slots, k)[1..] == Views(slots, k + 1); }
    }
  }

  /** An auxiliary slot is never the slot of a walked symbol. */
  lemma {:induction false} AuxNotFound(slots: seq<Slot>, k: nat, i: nat)
    requires Regular(slots) && k <= |slots| && i < |slots| && slots[i].Aux?
    ensures R.SymbolAt(Views(slots, k), i) == None
    decreases |slots| - k
  {
    if k < |slots| {
      AuxNotFound(slots, k + 1, i);
      if slots[k].Primary? { assert Views(slots, k)[1..] == Views(slots, k + 1); }
    }
  }

  // ---------------------------------------------------------------- relocations

  /** The relocation has a native type, and its target a primary slot of the table. */
  predicate Targeted(machine: u16, t: Tables, r: Reloc) {
    && r.symbol in t.index && RelocType(machine, r.kind).Some?
    && t.index[r.symbol] < |t.slots| && t.slots[t.index[r.symbol]].Primary? && RegularAt(t.slots, t.index[r.symbol])
  }

  predicate AllTargeted(machine: u16, t: Tables, rs: seq<Reloc>) {
    forall i | 0 <= i < |rs| :: Targeted(machine, t, rs[i])
  }

  lemma TargetsOf(machine: u16, t: Tables, rs: seq<Reloc>)
    requires Regular(t.slots) && Points(t.index, t.slots) && Resolvable(machine, t.index, rs)
    ensures AllTargeted(machine, t, rs)
  {
    forall i | 0 <= i < |rs| ensures Targeted(machine, t, rs[i]) { assert RegularAt(t.slots, t.index[rs[i].symbol]); }
  }

  function RelocViewOf(machine: u16, t: Tables, r: Reloc): R.RelocView
    requires Targeted(machine, t, r)
  {
    R.RelocView(r.offset, ViewAt(t.slots, t.index[r.symbol]), RelocType(machine, r.kind).value)
  }

  function RelocViewsOf(machine: u16, t: Tables, rs: seq<Reloc>): (vs: seq<R.RelocView>)
    requires AllTargeted(machine, t, rs)
    ensures |vs| == |rs| && forall i | 0 <= i < |rs| :: vs[i] == RelocViewOf(machine, t, rs[i])
  {
    seq(|rs|, i requires 0 <= i < |rs| => RelocViewOf(machine, t, rs[i]))
  }

  lemma RelocFieldsRead(machine: u16, index: map<Name, nat>, r: Reloc)
    requires r.symbol in index && RelocType(machine, r.kind).Some? && index[r.symbol] < 0x1_0000_0000
    ensures var f := RelocRecord(machine, index, r);
            && FromLE(f[0]) == r.offset && FromLE(f[1]) == index[r.symbol]
            && FromLE(f[2]) == RelocType(machine, r.kind).value
  {
    Pow256Values();
    LEFits(4, r.offset);
    LEFits(4, index[r.symbol]);
    LEFits(2, RelocType(machine, r.kind).value);
  }

  lemma RelocFrom(b: seq<byte>, off: nat, syms: seq<R.SymbolView>, k: nat, f: Record, v: R.RelocView)
    requires ReadRecord(RELOC, b, Bytes.Slot(off, k, RELOC_SIZE)) == Some(f)
    requires R.SymbolAt(syms, FromLE(f[1])) == Some(v.sym)
    requires FromLE(f[0]) == v.offset && FromLE(f[2]) == v.rtype
    ensures R.ReadReloc(b, off, syms, k) == Some(v)
  {
  }

  /** SymbolTableIndex lands on the primary record that the relocation's target is indexed at. */
  lemma RelocReads(b: seq<byte>, off: nat, machine: u16, t: Tables, rs: seq<Reloc>, k: nat)
    requires Regular(t.slots) && |t.slots| <= 0x1_0000_0000
    requires Resolvable(machine, t.index, rs) && AllTargeted(machine, t, rs) && k < |rs|
    requires At(b, off, Table(RelocRecords(machine, t.index, rs)))
    ensures R.ReadReloc(b, off, Views(t.slots, 0), k) == Some(RelocViewOf(machine, t, rs[k]))
  {
    RelocWidth();
    assert Targeted(machine, t, rs[k]);
    ReadTable(RELOC, b, off, RelocRecords(machine, t.index, rs), k);
    RelocFieldsRead(machine, t.index, rs[k]);
    ViewFound(t.slots, 0, t.index[rs[k].symbol]);
    RelocFrom(b, off, Views(t.slots, 0), k, RelocRecord(machine, t.index, rs[k]), RelocViewOf(machine, t, rs[k]));
  }

  lemma RelocsRead(b: seq<byte>, off: nat, machine: u16, t: Tables, rs: seq<Reloc>)
    requires Regular(t.slots) && |t.slots| <= 0x1_0000_0000
    requires Resolvable(machine, t.index, rs) && AllTargeted(machine, t, rs)
    requires At(b, off, Table(RelocRecords(machine, t.index, rs)))
    ensures R.ReadRelocs(b, off, |rs|, Views(t.slots, 0)) == Some(RelocViewsOf(machine, t, rs))
  {
    var f := (k: nat) => R.ReadReloc(b, off, Views(t.slots, 0), k);
    forall k: nat | k < |rs| ensures f(k) == Some(RelocViewsOf(machine, t, rs)[k]) {
      RelocReads(b, off, machine, t, rs, k);
    }
    CollectAll(|rs|, f, RelocViewsOf(machine, t, rs));
  }
}
