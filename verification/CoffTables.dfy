/** Facts about the tables of a COFF file that make it writable: every long name is in the
    string table, and every relocation target has a symbol slot. */
module CoffTables {
  import opened Bytes
  import opened Names
  import opened Objects
  import opened StringTable
  import opened CoffFormat
  import opened CoffSpec

  // ------------------------------------------------------------- string table

  lemma {:induction false} LongMember(ns: seq<Name>, n: Name)
    ensures n in Long(ns) <==> n in ns && IsLong(n)
  {
    if ns != [] {
      LongMember(ns[..|ns| - 1], n);
      assert ns == ns[..|ns| - 1] + [ns[|ns| - 1]];
    }
  }

  lemma {:induction false} NameRunHas(secs: seq<Section>, n: nat, i: nat)
    requires i < n <= |secs|
    ensures SectionName(secs[i]) in NameRun(secs, n)
    ensures forall s | s in secs[i].symbols :: s.name in NameRun(secs, n)
  {
    var here := SymbolNames(secs[n - 1].symbols);
    if i < n - 1 {
      NameRunHas(secs, n - 1, i);
    } else {
      forall s | s in secs[i].symbols ensures s.name in here {
        var j :| 0 <= j < |secs[i].symbols| && secs[i].symbols[j] == s;
        assert here[j] == s.name;
      }
    }
  }

  /** Phase 3 interns every long name of a section, a definition or an external. */
  lemma StrtabHas(secs: seq<Section>, n: Name)
    requires IsLong(n)
    requires n in NameRun(secs, |secs|) || n in Externals(secs, true)
    ensures n in Strtab(secs).offsets
  {
    var run, ext := Long(NameRun(secs, |secs|)), Long(Externals(secs, true));
    LongMember(NameRun(secs, |secs|), n);
    LongMember(Externals(secs, true), n);
    InternAllKeys(Empty, run);
    InternAllKeys(Empty.InternAll(run), ext);
    assert n in Elements(run) || n in Elements(ext);
  }

  lemma StrtabWellFormed(secs: seq<Section>)
    ensures WellFormed(Strtab(secs))
  {
    var run, ext := Long(NameRun(secs, |secs|)), Long(Externals(secs, true));
    BaseTablesWellFormed();
    InternAllWellFormed(Empty, run);
    InternAllWellFormed(Empty.InternAll(run), ext);
  }

  // -------------------------------------------------------------------- slots

  /** Where a slot's name comes from. */
  ghost predicate Sourced(secs: seq<Section>, n: Name) {
    n in NameRun(secs, |secs|) || n in Externals(secs, true)
  }

  /** The string table holds exactly the names of sections, symbols and externals that are
      longer than the eight bytes of a name field. */
  lemma StrtabExact(secs: seq<Section>, n: Name)
    ensures n in Strtab(secs).offsets <==> |n| > 8 && Sourced(secs, n)
  {
    var run, ext := Long(NameRun(secs, |secs|)), Long(Externals(secs, true));
    LongMember(NameRun(secs, |secs|), n);
    LongMember(Externals(secs, true), n);
    InternAllKeys(Empty, run);
    InternAllKeys(Empty.InternAll(run), ext);
    assert n in Strtab(secs).offsets.Keys <==> n in Elements(run) || n in Elements(ext);
  }

  lemma {:induction false} SectionSlotsAre(secs: seq<Section>, n: nat, k: nat)
    requires n <= |secs| && k < |SectionSlots(secs, n)| && SectionSlots(secs, n)[k].Primary?
    ensures exists i :: 0 <= i < n && SectionSlots(secs, n)[k].name == SectionName(secs[i])
  {
    if k < |SectionSlots(secs, n - 1)| {
      SectionSlotsAre(secs, n - 1, k);
    } else {
      assert SectionSlots(secs, n)[k].name == SectionName(secs[n - 1]);
    }
  }

  lemma DefSourced(secs: seq<Section>, d: Def)
    requires d in AllDefs(secs)
    ensures d.sec < |secs| && d.sym in secs[d.sec].symbols
    ensures Sourced(secs, d.sym.name)
  {
    DefsMember(secs, |secs|, 0, d);
    NameRunHas(secs, |secs|, d.sec);
  }

  lemma SlotParts(secs: seq<Section>, k: nat)
    requires k < |Slots(secs)|
    ensures
      var a, b := |SectionSlots(secs, |secs|)|, |AllDefs(secs)|;
      || (k < a && Slots(secs)[k] == SectionSlots(secs, |secs|)[k])
      || (a <= k < a + b && Slots(secs)[k] == DefSlot(AllDefs(secs)[k - a]))
      || (a + b <= k && k - a - b < |Externals(secs, true)|
          && Slots(secs)[k] == ExternalSlot(Externals(secs, true)[k - a - b]))
  {
  }

  lemma SlotSourced(secs: seq<Section>, k: nat)
    requires k < |Slots(secs)| && Slots(secs)[k].Primary?
    ensures Sourced(secs, Slots(secs)[k].name)
  {
    SlotParts(secs, k);
    var a, b := |SectionSlots(secs, |secs|)|, |AllDefs(secs)|;
    if k < a {
      SectionSlotsAre(secs, |secs|, k);
      var i :| 0 <= i < |secs| && SectionSlots(secs, |secs|)[k].name == SectionName(secs[i]);
      NameRunHas(secs, |secs|, i);
    } else if k < a + b {
      DefSourced(secs, AllDefs(secs)[k - a]);
    } else {
      assert Externals(secs, true)[k - a - b] in Externals(secs, true);
    }
  }

  // -------------------------------------------------------------------- index

  /** symIdx sends every name to the slot of a definition or an external of that name. */
  ghost predicate Points(index: map<Name, nat>, slots: seq<Slot>) {
    forall n | n in index :: index[n] < |slots| && slots[index[n]].Primary? && slots[index[n]].name == n
  }

  lemma IndexPoints(secs: seq<Section>)
    ensures Points(Index(secs), Slots(secs))
  {
    var slots, start := Slots(secs), |SectionSlots(secs, |secs|)|;
    LastIndexFacts(SlotNames(slots), start);
    forall n | n in Index(secs)
      ensures Index(secs)[n] < |slots| && slots[Index(secs)[n]].Primary? && slots[Index(secs)[n]].name == n
    {
      SlotParts(secs, Index(secs)[n]);
    }
  }

  lemma SlotIndexed(secs: seq<Section>, k: nat)
    requires |SectionSlots(secs, |secs|)| <= k < |Slots(secs)|
    ensures Slots(secs)[k].Primary? && Slots(secs)[k].name in Index(secs)
  {
    SlotParts(secs, k);
    LastIndexFacts(SlotNames(Slots(secs)), |SectionSlots(secs, |secs|)|);
    assert SlotNames(Slots(secs))[k] in Index(secs);
  }

  lemma DefIndexed(secs: seq<Section>, d: Def)
    requires d in AllDefs(secs)
    ensures d.sym.name in Index(secs)
  {
    var j :| 0 <= j < |AllDefs(secs)| && AllDefs(secs)[j] == d;
    var k := |SectionSlots(secs, |secs|)| + j;
    assert Slots(secs)[k] == DefSlot(d);
    SlotIndexed(secs, k);
  }

  lemma ExternalIndexed(secs: seq<Section>, n: Name)
    requires n in Externals(secs, true)
    ensures n in Index(secs)
  {
    var j :| 0 <= j < |Externals(secs, true)| && Externals(secs, true)[j] == n;
    var k := |SectionSlots(secs, |secs|)| + |AllDefs(secs)| + j;
    assert Slots(secs)[k] == ExternalSlot(n);
    SlotIndexed(secs, k);
  }

  /** Every relocation target has a slot: it is defined or external. */
  lemma UsesIndexed(secs: seq<Section>)
    ensures forall u | u in AllUses(secs) :: u.rel.symbol in Index(secs)
  {
    forall u | u in AllUses(secs) ensures u.rel.symbol in Index(secs) {
      UsesMember(secs, |secs|, 0, u);
      TargetIndexed(secs, u);
    }
  }

  lemma TargetIndexed(secs: seq<Section>, u: Use)
    requires u.sec < |secs| && u.rel in secs[u.sec].relocs
    ensures u.rel.symbol in Index(secs)
  {
    var n := u.rel.symbol;
    UsesMember(secs, |secs|, 0, u);
    ExternalsFacts(secs, true);
    if Defined(secs, n) {
      var d :| d in AllDefs(secs) && d.sym.name == n;
      DefIndexed(secs, d);
    } else {
      assert External(secs, n);
      ExternalIndexed(secs, n);
    }
  }

  // -------------------------------------------------------------- when it succeeds

  lemma {:induction false} EmptyCustomNone(secs: seq<Section>, n: nat)
    requires n <= |secs|
    ensures EmptyCustom(secs, n).None? <==> forall i | 0 <= i < n :: !(secs[i].kind == Custom && secs[i].custom == [])
  {
    if n > 0 { EmptyCustomNone(secs, n - 1); }
  }

  lemma {:induction false} FirstErrorNone(machine: u16, index: map<Name, nat>, us: seq<Use>)
    ensures FirstError(machine, index, us).None? <==>
            forall u | u in us :: u.rel.symbol in index && RelocType(machine, u.rel.kind).Some?
  {
    if us != [] {
      FirstErrorNone(machine, index, us[..|us| - 1]);
      SnocMember(us);
    }
  }

  lemma {:induction false} OverfullNone(secs: seq<Section>, n: nat)
    requires n <= |secs|
    ensures Overfull(secs, n).None? <==> forall i | 0 <= i < n :: RelocCount(secs[i]) <= 0xFFFF
  {
    if n > 0 { OverfullNone(secs, n - 1); }
  }

  ghost predicate Buildable(machine: u16, secs: seq<Section>) { FirstFailure(machine, secs, Index(secs)).None? }

  lemma AllSound(machine: u16, secs: seq<Section>, index: map<Name, nat>)
    requires FirstError(machine, index, AllUses(secs)).None?
    ensures Sound(machine, secs, index)
  {
    FirstErrorNone(machine, index, AllUses(secs));
    forall i, j | 0 <= i < |secs| && 0 <= j < |secs[i].relocs|
      ensures secs[i].relocs[j].symbol in index && RelocType(machine, secs[i].relocs[j].kind).Some?
    {
      UsesMember(secs, |secs|, 0, Use(i, secs[i].relocs[j]));
    }
  }

  /** The "no symbol table entry" failure cannot happen, for any input. */
  lemma {:induction false} NeverMissing(machine: u16, index: map<Name, nat>, us: seq<Use>)
    requires forall u | u in us :: u.rel.symbol in index
    ensures FirstError(machine, index, us).Some? ==> FirstError(machine, index, us).value.UnsupportedReloc?
  {
    if us != [] {
      assert us == us[..|us| - 1] + [us[|us| - 1]];
      NeverMissing(machine, index, us[..|us| - 1]);
    }
  }

  /** A name whose source is known is in the string table if it is long. */
  lemma SourcedStored(secs: seq<Section>, n: Name)
    requires Sourced(secs, n)
    ensures IsLong(n) ==> n in Strtab(secs).offsets
  {
    if IsLong(n) { StrtabHas(secs, n); }
  }

  lemma NamesStored(secs: seq<Section>)
    ensures SectionsNamed(secs, Strtab(secs).offsets)
    ensures forall k | 0 <= k < |Slots(secs)| :: Nameable(Slots(secs)[k], Strtab(secs).offsets)
  {
    forall i | 0 <= i < |secs| ensures IsLong(SectionName(secs[i])) ==> SectionName(secs[i]) in Strtab(secs).offsets {
      NameRunHas(secs, |secs|, i);
      SourcedStored(secs, SectionName(secs[i]));
    }
    forall k | 0 <= k < |Slots(secs)| ensures Nameable(Slots(secs)[k], Strtab(secs).offsets) {
      if Slots(secs)[k].Primary? {
        SlotSourced(secs, k);
        SourcedStored(secs, Slots(secs)[k].name);
      }
    }
  }

  /** Whatever passes the checks can be written. */
  lemma TablesWritable(machine: u16, secs: seq<Section>)
    requires Buildable(machine, secs)
    ensures Writable(machine, secs, TablesOf(secs))
  {
    NamesStored(secs);
    AllSound(machine, secs, Index(secs));
  }

  /** What serialising the given sections yields. */
  ghost function Outcome(machine: u16, input: seq<Section>): Result<seq<byte>, Error> {
    var secs := AllSections(input);
    var e := FirstFailure(machine, secs, Index(secs));
    if e.Some? then Err(e.value)
    else
      TablesWritable(machine, secs);
      Ok(FileOf(machine, secs, TablesOf(secs)))
  }

  /** No input makes the writer report a relocation target without a symbol table entry. */
  lemma MissingSymbolUnreachable(machine: u16, input: seq<Section>)
    ensures Outcome(machine, input).Err? ==> !Outcome(machine, input).error.MissingSymbol?
  {
    var secs := AllSections(input);
    UsesIndexed(secs);
    NeverMissing(machine, Index(secs), AllUses(secs));
    EmptyCustomKind(secs, |secs|);
    OverfullKind(secs, |secs|);
  }

  lemma {:induction false} EmptyCustomKind(secs: seq<Section>, n: nat)
    requires n <= |secs|
    ensures EmptyCustom(secs, n).Some? ==> EmptyCustom(secs, n).value.EmptyCustomName?
  {
    if n > 0 { EmptyCustomKind(secs, n - 1); }
  }

  lemma {:induction false} OverfullKind(secs: seq<Section>, n: nat)
    requires n <= |secs|
    ensures Overfull(secs, n).Some? ==> Overfull(secs, n).value.TooManyRelocs?
  {
    if n > 0 { OverfullKind(secs, n - 1); }
  }

  /** Writing succeeds exactly when there are at most 65535 sections, no custom section is
      nameless, every relocation kind exists on the machine and no section with file bytes
      has more than 65535 relocations. */
  lemma SucceedsIff(machine: u16, input: seq<Section>)
    ensures var secs := AllSections(input);
            Outcome(machine, input).Ok? <==>
              && |secs| <= 0xFFFF
              && (forall i | 0 <= i < |secs| :: !(secs[i].kind == Custom && secs[i].custom == []))
              && (forall u | u in AllUses(secs) :: RelocType(machine, u.rel.kind).Some?)
              && (forall i | 0 <= i < |secs| :: RelocCount(secs[i]) <= 0xFFFF)
  {
    var secs := AllSections(input);
    EmptyCustomNone(secs, |secs|);
    UsesIndexed(secs);
    FirstErrorNone(machine, Index(secs), AllUses(secs));
    OverfullNone(secs, |secs|);
  }

  /** The string table is frozen after the names are collected: whatever symbol and header
      encoding interns later is a hit, so no offset captured early goes stale. */
  lemma TableFrozen(secs: seq<Section>, later: seq<Name>)
    requires forall n | n in later :: IsLong(n) && Sourced(secs, n)
    ensures Strtab(secs).InternAll(later) == Strtab(secs)
  {
    forall n | n in later ensures n in Strtab(secs).offsets { StrtabHas(secs, n); }
    InternAllHits(Strtab(secs), later);
  }
}
