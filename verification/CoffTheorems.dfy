/** The round trip of COFF files, for every machine and every input that can be written. */
module CoffTheorems {
  import opened Bytes
  import opened Names
  import opened Objects
  import opened StringTable
  import opened CoffFormat
  import opened CoffSpec
  import opened CoffTables
  import opened CoffRoundTrip
  import opened CoffWalk
  import opened CoffSections
  import Layout
  import R = CoffReader

  // ------------------------------------------------------------------- the bounds

  /** The input stays within the width of the format's fields, and its names are
      non-empty, NUL-free and, for sections, not mistakable for an offset. */
  predicate SectionFits(s: Section, offsets: map<Name, nat>) {
    && SectionNameOk(SectionName(s), offsets)
    && HeaderSize(s) < 0x1_0000_0000
    && (s.linkOnce ==> |s.relocs| <= 0xFFFF)
    && (forall j | 0 <= j < |s.symbols| :: s.symbols[j].name != [] && NulFree(s.symbols[j].name))
    && (forall j | 0 <= j < |s.relocs| :: s.relocs[j].symbol != [] && NulFree(s.relocs[j].symbol))
  }

  ghost predicate InBounds(machine: u16, secs: seq<Section>)
    requires Buildable(machine, secs)
  {
    TablesWritable(machine, secs);
    && |secs| < 0x8000
    && (forall i | 0 <= i < |secs| :: SectionFits(secs[i], Strtab(secs).offsets))
    && |FileOf(machine, secs, TablesOf(secs))| < 0x1_0000_0000
  }

  lemma {:induction false} SectionSlotsFit(secs: seq<Section>, n: nat, offsets: map<Name, nat>)
    requires n <= |secs| < 0x8000
    requires forall i | 0 <= i < n :: SectionFits(secs[i], offsets)
    ensures forall k | 0 <= k < |SectionSlots(secs, n)| :: SlotFits(SectionSlots(secs, n)[k])
  {
    if n > 0 {
      SectionSlotsFit(secs, n - 1, offsets);
      var s := secs[n - 1];
      assert SectionFits(s, offsets) && RawSize(s) <= HeaderSize(s);
    }
  }

  lemma DefSlotFits(secs: seq<Section>, d: Def, offsets: map<Name, nat>)
    requires |secs| < 0x8000 && forall i | 0 <= i < |secs| :: SectionFits(secs[i], offsets)
    requires d in AllDefs(secs)
    ensures SlotFits(DefSlot(d))
  {
    DefSourced(secs, d);
    assert SectionFits(secs[d.sec], offsets);
  }

  lemma ExternalSlotFits(secs: seq<Section>, n: Name, offsets: map<Name, nat>)
    requires forall i | 0 <= i < |secs| :: SectionFits(secs[i], offsets)
    requires n in Externals(secs, true)
    ensures SlotFits(ExternalSlot(n))
  {
    ExternalsFacts(secs, true);
    var u :| u in AllUses(secs) && u.rel.symbol == n;
    UsesMember(secs, |secs|, 0, u);
    assert SectionFits(secs[u.sec], offsets);
  }

  lemma SlotsFit(secs: seq<Section>, offsets: map<Name, nat>)
    requires |secs| < 0x8000 && forall i | 0 <= i < |secs| :: SectionFits(secs[i], offsets)
    ensures forall k | 0 <= k < |Slots(secs)| :: SlotFits(Slots(secs)[k])
  {
    SectionSlotsFit(secs, |secs|, offsets);
    var a, c := |SectionSlots(secs, |secs|)|, |AllDefs(secs)|;
    forall k | 0 <= k < |Slots(secs)| ensures SlotFits(Slots(secs)[k]) {
      SlotParts(secs, k);
      if a <= k < a + c {
        DefSlotFits(secs, AllDefs(secs)[k - a], offsets);
      } else if a + c <= k {
        ExternalSlotFits(secs, Externals(secs, true)[k - a - c], offsets);
      }
    }
  }

  // --------------------------------------------------------------- the round trip

  function HeaderOf(machine: u16, secs: seq<Section>, t: Tables): R.Header {
    R.Header(machine, |secs|, Pos(secs, |secs|), |t.slots|, 0)
  }

  lemma HeaderReads(b: seq<byte>, machine: u16, n: nat, symOff: nat, nSlots: nat)
    requires At(b, 0, Join(FileHeader(machine, n, symOff, nSlots)))
    requires n < 0x1_0000 && symOff < 0x1_0000_0000 && nSlots < 0x1_0000_0000
    ensures R.ReadHeader(b) == Some(R.Header(machine, n, symOff, nSlots, 0))
  {
    ReadJoined(FILE_HDR, b, 0, FileHeader(machine, n, symOff, nSlots));
    Pow256Values();
    LEFits(2, machine);
    LEFits(2, n);
    LEFits(4, symOff);
    LEFits(4, nSlots);
    LEFits(2, 0);
  }

  lemma StringsRead(b: seq<byte>, h: R.Header, t: StrTable)
    requires At(b, Bytes.Slot(h.symOff, h.nSlots, SYM_SIZE), StrtabBytes(t)) && |t.data| < 0xFFFF_FFFC
    ensures R.ReadStrings(b, h) == Some(StrtabBytes(t))
  {
    var start := Bytes.Slot(h.symOff, h.nSlots, SYM_SIZE);
    AtSplit(b, start, LE(4, 4 + |t.data|), t.data);
    Pow256Values();
    LEFits(4, 4 + |t.data|);
    assert |StrtabBytes(t)| == 4 + |t.data|;
    assert Sub(b, start, 4) == Some(LE(4, 4 + |t.data|));
    assert Sub(b, start, 4 + |t.data|) == Some(StrtabBytes(t));
  }

  lemma BlockSplit(b: seq<byte>, machine: u16, secs: seq<Section>, t: Tables)
    requires Writable(machine, secs, t) && At(b, Pos(secs, |secs|), SymbolBlock(machine, secs, t))
    ensures At(b, Pos(secs, |secs|), Table(SlotRecords(t.slots, t.strtab.offsets)))
    ensures At(b, Bytes.Slot(Pos(secs, |secs|), |t.slots|, SYM_SIZE), StrtabBytes(t.strtab))
  {
    var table, strs := Table(SlotRecords(t.slots, t.strtab.offsets)), StrtabBytes(t.strtab);
    SlotTableSize(t.slots, t.strtab.offsets);
    AtSplit(b, Pos(secs, |secs|), table, strs);
  }

  lemma BlockSeen(b: seq<byte>, machine: u16, secs: seq<Section>, t: Tables)
    requires Writable(machine, secs, t) && At(b, Pos(secs, |secs|), SymbolBlock(machine, secs, t))
    requires Regular(t.slots) && t.strtab.Sound() && |t.strtab.data| < 0xFFFF_FFFC
    requires forall k | 0 <= k < |t.slots| :: SlotFits(t.slots[k])
    ensures SlotsSeen(b, HeaderOf(machine, secs, t), t.slots, t.strtab)
    ensures R.ReadStrings(b, HeaderOf(machine, secs, t)) == Some(StrtabBytes(t.strtab))
  {
    var h := HeaderOf(machine, secs, t);
    BlockSplit(b, machine, secs, t);
    StringsRead(b, h, t.strtab);
    forall k: nat | k < |t.slots| ensures SlotSeen(b, h, t.slots[k], k, t.strtab) {
      SlotAt(b, h.symOff, t.slots, t.strtab.offsets, k);
    }
  }

  function SectionViewsOf(machine: u16, t: Tables, secs: seq<Section>): (vs: seq<R.SectionView>)
    requires forall i | 0 <= i < |secs| :: AllTargeted(machine, t, secs[i].relocs)
    ensures |vs| == |secs| && forall i | 0 <= i < |secs| :: vs[i] == SectionViewOf(machine, t, secs[i])
  {
    seq(|secs|, i requires 0 <= i < |secs| => SectionViewOf(machine, t, secs[i]))
  }

  /** Everything a section's reader needs. */
  ghost predicate SectionSeen(b: seq<byte>, machine: u16, secs: seq<Section>, t: Tables, k: nat)
    requires k < |secs|
  {
    && ChunkSeen(b, machine, secs, t.index, k) && HeaderFits(secs, k)
    && SectionNameOk(SectionName(secs[k]), t.strtab.offsets)
    && ReadRecord(SEC_HDR, b, Bytes.Slot(FILE_HDR_SIZE, k, SEC_HDR_SIZE))
       == Some(HeaderRecord(secs, k, t.strtab.offsets))
  }

  lemma SectionsRead(b: seq<byte>, h: R.Header, machine: u16, secs: seq<Section>, t: Tables)
    requires forall k: nat | k < |secs| :: SectionSeen(b, machine, secs, t, k)
    requires t.strtab.Sound() && h.optSize == 0 && h.nSections == |secs|
    requires Regular(t.slots) && |t.slots| <= 0x1_0000_0000
    requires forall k | 0 <= k < |secs| :: AllTargeted(machine, t, secs[k].relocs)
    ensures Collect(h.nSections, (i: nat) => R.ReadSection(b, h, StrtabBytes(t.strtab), Views(t.slots, 0), i))
            == Some(SectionViewsOf(machine, t, secs))
  {
    var strs, syms := StrtabBytes(t.strtab), Views(t.slots, 0);
    forall k: nat | k < |secs|
      ensures R.ReadSection(b, h, strs, syms, k) == Some(SectionViewOf(machine, t, secs[k]))
    {
      assert SectionSeen(b, machine, secs, t, k);
      SectionReads(b, h, machine, secs, t, k);
    }
    SectionsCollected(b, h, strs, syms, SectionViewsOf(machine, t, secs));
  }

  lemma SectionsCollected(b: seq<byte>, h: R.Header, strs: seq<byte>, syms: seq<R.SymbolView>, vs: seq<R.SectionView>)
    requires forall k: nat | k < |vs| :: R.ReadSection(b, h, strs, syms, k) == Some(vs[k])
    ensures Collect(|vs|, (i: nat) => R.ReadSection(b, h, strs, syms, i)) == Some(vs)
  {
    CollectAll(|vs|, (i: nat) => R.ReadSection(b, h, strs, syms, i), vs);
  }

  lemma ChunkIn(b: seq<byte>, machine: u16, secs: seq<Section>, t: Tables, k: nat)
    requires Writable(machine, secs, t) && Laid(b, machine, secs, t) && k < |secs|
    requires |b| < 0x1_0000_0000
    ensures ChunkSeen(b, machine, secs, t.index, k)
    ensures RawOff(secs, k) < 0x1_0000_0000 && RelocOff(secs, k) < 0x1_0000_0000
  {
    if !BssLike(secs[k]) {
      Layout.PosMonotone(HeaderEnd(|secs|), Extents(secs), 0, k);
      Layout.PosStep(HeaderEnd(|secs|), Extents(secs), k);
      ChunkSize(machine, t.index, secs[k]);
    }
  }

  lemma SectionIn(b: seq<byte>, machine: u16, secs: seq<Section>, t: Tables, k: nat)
    requires Writable(machine, secs, t) && Laid(b, machine, secs, t) && k < |secs|
    requires |b| < 0x1_0000_0000 && SectionFits(secs[k], t.strtab.offsets) && RelocCount(secs[k]) <= 0xFFFF
    ensures SectionSeen(b, machine, secs, t, k)
  {
    SecHdrWidth();
    ChunkIn(b, machine, secs, t, k);
    ReadTable(SEC_HDR, b, FILE_HDR_SIZE, HeaderRecords(secs, t.strtab.offsets), k);
  }

  lemma ReadFrom(b: seq<byte>, machine: u16, secs: seq<Section>, t: Tables)
    requires Writable(machine, secs, t) && Laid(b, machine, secs, t) && |secs| < 0x8000
    requires forall k: nat | k < |secs| :: SectionSeen(b, machine, secs, t, k)
    requires Regular(t.slots) && |t.slots| < 0x1_0000_0000
    requires forall k | 0 <= k < |secs| :: AllTargeted(machine, t, secs[k].relocs)
    requires forall k | 0 <= k < |t.slots| :: SlotFits(t.slots[k])
    requires t.strtab.Sound() && |t.strtab.data| < 0xFFFF_FFFC && Pos(secs, |secs|) < 0x1_0000_0000
    ensures R.ReadObject(b) == Some(R.ObjectView(machine, SectionViewsOf(machine, t, secs), Views(t.slots, 0)))
  {
    var h := HeaderOf(machine, secs, t);
    HeaderReads(b, machine, |secs|, Pos(secs, |secs|), |t.slots|);
    BlockSeen(b, machine, secs, t);
    WalkReads(b, h, t.slots, t.strtab, 0);
    SectionsRead(b, h, machine, secs, t);
  }

  /** Tables that the reader can follow. */
  ghost predicate TablesSound(machine: u16, secs: seq<Section>, t: Tables) {
    && Regular(t.slots) && t.strtab.Sound()
    && (forall k | 0 <= k < |t.slots| :: SlotFits(t.slots[k]))
    && (forall k | 0 <= k < |secs| :: AllTargeted(machine, t, secs[k].relocs))
  }

  lemma FileReads(b: seq<byte>, machine: u16, secs: seq<Section>, t: Tables)
    requires Writable(machine, secs, t) && Laid(b, machine, secs, t) && TablesSound(machine, secs, t)
    requires |b| == Pos(secs, |secs|) + |t.slots| * SYM_SIZE + 4 + |t.strtab.data| < 0x1_0000_0000
    requires |secs| < 0x8000
    requires forall k | 0 <= k < |secs| :: SectionFits(secs[k], t.strtab.offsets) && RelocCount(secs[k]) <= 0xFFFF
    ensures R.ReadObject(b) == Some(R.ObjectView(machine, SectionViewsOf(machine, t, secs), Views(t.slots, 0)))
  {
    forall k: nat | k < |secs| ensures SectionSeen(b, machine, secs, t, k) {
      SectionIn(b, machine, secs, t, k);
    }
    ReadFrom(b, machine, secs, t);
  }

  lemma TargetsGiven(machine: u16, secs: seq<Section>)
    requires Buildable(machine, secs)
    ensures Writable(machine, secs, TablesOf(secs))
    ensures forall k | 0 <= k < |secs| :: AllTargeted(machine, TablesOf(secs), secs[k].relocs)
  {
    TablesWritable(machine, secs);
    SlotsRegular(secs);
    IndexPoints(secs);
    forall k | 0 <= k < |secs| ensures AllTargeted(machine, TablesOf(secs), secs[k].relocs) {
      TargetsOf(machine, TablesOf(secs), secs[k].relocs);
    }
  }

  lemma TablesOfSound(machine: u16, secs: seq<Section>)
    requires Buildable(machine, secs) && InBounds(machine, secs)
    ensures Writable(machine, secs, TablesOf(secs)) && TablesSound(machine, secs, TablesOf(secs))
  {
    TargetsGiven(machine, secs);
    SlotsRegular(secs);
    StrtabWellFormed(secs);
    SlotsFit(secs, Strtab(secs).offsets);
  }

  /** Every file that is written reads back: all sections with their names, characteristics,
      sizes, baked bytes and relocations, each with the symbol record it refers to, and all
      symbols in order. */
  lemma RoundTrip(machine: u16, secs: seq<Section>)
    requires Buildable(machine, secs) && InBounds(machine, secs)
    ensures Writable(machine, secs, TablesOf(secs)) && TablesSound(machine, secs, TablesOf(secs))
    ensures R.ReadObject(FileOf(machine, secs, TablesOf(secs)))
            == Some(R.ObjectView(machine, SectionViewsOf(machine, TablesOf(secs), secs), Views(Slots(secs), 0)))
  {
    var t := TablesOf(secs);
    TablesOfSound(machine, secs);
    FileLaid(machine, secs, t);
    OverfullNone(secs, |secs|);
    FileReads(FileOf(machine, secs, t), machine, secs, t);
  }

  /** The object read from the file made from secs. */
  ghost function ObjectOfFile(machine: u16, secs: seq<Section>): (v: R.ObjectView)
    requires Buildable(machine, secs) && InBounds(machine, secs)
    ensures Writable(machine, secs, TablesOf(secs)) && R.ReadObject(FileOf(machine, secs, TablesOf(secs))) == Some(v)
  {
    RoundTrip(machine, secs);
    R.ReadObject(FileOf(machine, secs, TablesOf(secs))).value
  }
}
