/** The COFF reader meets the COFF writer: what is read at each place of a laid-out file. */
module CoffRoundTrip {
  import opened Bytes
  import opened Names
  import opened Objects
  import opened StringTable
  import opened CoffFormat
  import opened CoffSpec
  import Layout
  import R = CoffReader

  // ------------------------------------------------------------------- names

  lemma StringReads(t: StrTable, n: Name)
    requires t.Sound() && n in t.offsets && NulFree(n)
    ensures CStr(StrtabBytes(t), t.offsets[n] + 4) == Some(n)
  {
    assert At(StrtabBytes(t), 4, t.data);
    AtWithin(StrtabBytes(t), 4, t.data, t.offsets[n], n + [0]);
    CStrReads(StrtabBytes(t), t.offsets[n] + 4, n);
  }

  lemma PaddedHead(n: Name)
    requires n != [] && NulFree(n) && |n| <= 8
    ensures Padded(n, 8)[..4] != Zeros(4)
  {
    assert Padded(n, 8)[..4][0] == n[0];
  }

  /** A symbol name survives encoding and decoding, in either form, exactly if it is
      non-empty and has no NUL. */
  lemma SymbolNameReads(t: StrTable, n: Name)
    requires t.Sound() && |t.data| < 0xFFFF_FFFC && (IsLong(n) ==> n in t.offsets)
    ensures R.SymbolName(StrtabBytes(t), SymbolNameField(n, t.offsets)) == Some(n) <==> n != [] && NulFree(n)
  {
    if n != [] && NulFree(n) {
      if IsLong(n) {
        LongNameField(t, n);
        StringReads(t, n);
      } else {
        PaddedHead(n);
        TrimPadded(n, 8);
      }
    } else if n == [] {
      EmptyNameField();
    }
  }

  lemma LongNameField(t: StrTable, n: Name)
    requires t.Sound() && |t.data| < 0xFFFF_FFFC && IsLong(n) && n in t.offsets
    ensures var f := SymbolNameField(n, t.offsets);
            f[..4] == Zeros(4) && FromLE(f[4..]) == t.offsets[n] + 4
  {
    var f := SymbolNameField(n, t.offsets);
    assert Terminated(t.data, t.offsets[n], n);
    Pow256Values();
    LEFits(4, t.offsets[n] + 4);
    assert f[4..] == LE(4, t.offsets[n] + 4);
  }

  lemma EmptyNameField()
    ensures Padded([], 8)[..4] == Zeros(4) && FromLE(Padded([], 8)[4..]) == 0
  {
    var f := Padded([], 8);
    assert f == Zeros(8);
    assert f[4..] == [0, 0, 0, 0];
    assert FromLE([0]) == 0 && FromLE([0, 0]) == 0 && FromLE([0, 0, 0]) == 0 && FromLE([0, 0, 0, 0]) == 0 by {
      assert [0, 0, 0, 0][1..] == [0, 0, 0] && [0, 0, 0][1..] == [0, 0] && [0, 0][1..] == [0] && [0][1..] == [];
    }
  }

  predicate StartsWithSlash(n: Name) { n != [] && n[0] == SLASH }

  /** Below this offset "/" and the decimal offset fit the eight-byte field. */
  const MAX_DECIMAL := 10_000_000

  lemma DecimalField(off: nat)
    requires off < MAX_DECIMAL
    ensures var t := Trimmed(Padded([SLASH] + Digits(off), 8));
            t != [] && t[0] == SLASH && ParseDigits(t[1..]) == Some(off)
  {
    var s := [SLASH] + Digits(off);
    Pow10Of7();
    PrintedLength(off, 7);
    ParsePrinted(off);
    TrimPadded(s, 8);
    assert s[1..] == Digits(off);
  }

  lemma Pow10Of7()
    ensures Pow10(7) == MAX_DECIMAL
  {
    assert Pow10(3) == 1000;
    assert Pow10(4) == 10000;
  }

  /** The decimal form of a long section name: printed, cut to the field, parsed, looked up. */
  lemma LongSectionNameReads(t: StrTable, n: Name)
    requires t.Sound() && IsLong(n) && n in t.offsets && NulFree(n) && t.offsets[n] + 4 < MAX_DECIMAL
    ensures R.SectionName(StrtabBytes(t), SectionNameField(n, t.offsets)) == Some(n)
  {
    DecimalField(t.offsets[n] + 4);
    StringReads(t, n);
  }

  lemma ShortSectionNameReads(strs: seq<byte>, n: Name, offsets: map<Name, nat>)
    requires !IsLong(n) && NulFree(n) && !StartsWithSlash(n)
    ensures R.SectionName(strs, SectionNameField(n, offsets)) == Some(n)
  {
    TrimPadded(n, 8);
  }

  /** An inline section name decodes against every string table exactly if it has no NUL
      and does not start with a slash. */
  lemma ShortSectionNameIff(n: Name, offsets: map<Name, nat>)
    requires !IsLong(n)
    ensures (forall t: StrTable :: R.SectionName(StrtabBytes(t), SectionNameField(n, offsets)) == Some(n))
            <==> NulFree(n) && !StartsWithSlash(n)
  {
    if NulFree(n) && !StartsWithSlash(n) {
      forall t: StrTable ensures R.SectionName(StrtabBytes(t), SectionNameField(n, offsets)) == Some(n) {
        ShortSectionNameReads(StrtabBytes(t), n, offsets);
      }
    } else if NulFree(n) {
      TrimPadded(n, 8);
      assert |StrtabBytes(Empty)| == 4;
      assert R.SectionName(StrtabBytes(Empty), SectionNameField(n, offsets)) == None;
    } else {
      assert R.SectionName(StrtabBytes(Empty), SectionNameField(n, offsets)) != Some(n);
    }
  }

  // ------------------------------------------------------------------- layout

  lemma ChunkSize(machine: u16, index: map<Name, nat>, s: Section)
    requires Resolvable(machine, index, s.relocs)
    ensures |ChunkData(machine, index, s)| == |s.code| + |s.relocs| * RELOC_SIZE
  {
    RelocWidth();
    TableSize(RELOC, RelocRecords(machine, index, s.relocs));
  }

  lemma ChunksSized(machine: u16, index: map<Name, nat>, secs: seq<Section>)
    requires Sound(machine, secs, index)
    ensures Layout.Sized(Extents(secs), ChunkDatas(machine, index, secs))
  {
    forall k | 0 <= k < |secs| ensures |ChunkDatas(machine, index, secs)[k]| == Extents(secs)[k].size {
      ChunkSize(machine, index, secs[k]);
    }
  }

  /** What a file must hold where for the reader. */
  ghost predicate Laid(b: seq<byte>, machine: u16, secs: seq<Section>, t: Tables)
    requires Writable(machine, secs, t)
  {
    && At(b, 0, Join(FileHeader(machine, |secs|, Pos(secs, |secs|), |t.slots|)))
    && At(b, FILE_HDR_SIZE, Table(HeaderRecords(secs, t.strtab.offsets)))
    && (forall k | 0 <= k < |secs| && !BssLike(secs[k]) ::
          At(b, RawOff(secs, k), ChunkData(machine, t.index, secs[k])))
    && At(b, Pos(secs, |secs|), SymbolBlock(machine, secs, t))
  }

  lemma TwoParts(a: seq<byte>, b: seq<byte>)
    ensures At(a + b, 0, a) && At(a + b, |a|, b)
  {
    assert (a + b)[..|a|] == a;
    AtEnd(a, b);
  }

  lemma PartSizes(machine: u16, secs: seq<Section>, t: Tables)
    requires Writable(machine, secs, t)
    ensures |Join(FileHeader(machine, |secs|, Pos(secs, |secs|), |t.slots|))| == FILE_HDR_SIZE
    ensures |Table(HeaderRecords(secs, t.strtab.offsets))| == |secs| * SEC_HDR_SIZE
  {
    FileHdrWidth();
    SecHdrWidth();
    SplitJoin(FILE_HDR, FileHeader(machine, |secs|, Pos(secs, |secs|), |t.slots|));
    TableSize(SEC_HDR, HeaderRecords(secs, t.strtab.offsets));
  }

  lemma PreambleParts(machine: u16, secs: seq<Section>, t: Tables)
    requires Writable(machine, secs, t)
    ensures |Preamble(machine, secs, t)| == HeaderEnd(|secs|)
    ensures At(Preamble(machine, secs, t), 0, Join(FileHeader(machine, |secs|, Pos(secs, |secs|), |t.slots|)))
    ensures At(Preamble(machine, secs, t), FILE_HDR_SIZE, Table(HeaderRecords(secs, t.strtab.offsets)))
  {
    PartSizes(machine, secs, t);
    TwoParts(Join(FileHeader(machine, |secs|, Pos(secs, |secs|), |t.slots|)),
             Table(HeaderRecords(secs, t.strtab.offsets)));
  }

  ghost function Placements(machine: u16, secs: seq<Section>, t: Tables): seq<Placement>
    requires Writable(machine, secs, t)
  {
    Chunks(machine, t.index, secs, |secs|) + [Placement(Pos(secs, |secs|), SymbolBlock(machine, secs, t))]
  }

  lemma PlacementsOrdered(machine: u16, secs: seq<Section>, t: Tables)
    requires Writable(machine, secs, t)
    ensures Ordered(|Preamble(machine, secs, t)|, Placements(machine, secs, t))
    ensures End(|Preamble(machine, secs, t)|, Placements(machine, secs, t))
            == Pos(secs, |secs|) + |SymbolBlock(machine, secs, t)|
  {
    PreambleParts(machine, secs, t);
    ChunksSized(machine, t.index, secs);
    Layout.ChunksLaid(HeaderEnd(|secs|), Extents(secs), ChunkDatas(machine, t.index, secs), |secs|);
    Layout.AppendOrdered(HeaderEnd(|secs|), Chunks(machine, t.index, secs, |secs|),
                  Placement(Pos(secs, |secs|), SymbolBlock(machine, secs, t)));
  }

  lemma ChunkPlaced(machine: u16, secs: seq<Section>, t: Tables, k: nat)
    requires Writable(machine, secs, t) && k < |secs| && !BssLike(secs[k])
    ensures Placement(RawOff(secs, k), ChunkData(machine, t.index, secs[k])) in Placements(machine, secs, t)
  {
    Layout.ChunkAmong(HeaderEnd(|secs|), Extents(secs), ChunkDatas(machine, t.index, secs), |secs|, k);
  }

  /** Emission meets the predicted layout: every part lies where the headers say, in order
      and without overlap, and what lies between is zero. */
  lemma FileLaid(machine: u16, secs: seq<Section>, t: Tables)
    requires Writable(machine, secs, t)
    ensures Laid(FileOf(machine, secs, t), machine, secs, t)
    ensures |FileOf(machine, secs, t)| == Pos(secs, |secs|) + |t.slots| * SYM_SIZE + 4 + |t.strtab.data|
    ensures var b := FileOf(machine, secs, t);
            forall x | HeaderEnd(|secs|) <= x < |b| && !Covered(Placements(machine, secs, t), x) :: b[x] == 0
  {
    var pre, ps, b := Preamble(machine, secs, t), Placements(machine, secs, t), FileOf(machine, secs, t);
    PlacementsOrdered(machine, secs, t);
    PreambleParts(machine, secs, t);
    EmitPlaces(pre, ps);
    AtPrefix(pre, 0, Join(FileHeader(machine, |secs|, Pos(secs, |secs|), |t.slots|)), b);
    AtPrefix(pre, FILE_HDR_SIZE, Table(HeaderRecords(secs, t.strtab.offsets)), b);
    forall k | 0 <= k < |secs| && !BssLike(secs[k])
      ensures At(b, RawOff(secs, k), ChunkData(machine, t.index, secs[k]))
    {
      ChunkPlaced(machine, secs, t, k);
      Layout.EmittedAt(pre, ps, Placement(RawOff(secs, k), ChunkData(machine, t.index, secs[k])));
    }
    Layout.EmittedAt(pre, ps, Placement(Pos(secs, |secs|), SymbolBlock(machine, secs, t)));
    SlotTableSize(t.slots, t.strtab.offsets);
  }

  // ------------------------------------------------------------------- slots

  lemma SlotSize(slot: Slot, offsets: map<Name, nat>)
    requires Nameable(slot, offsets)
    ensures |SlotBytes(slot, offsets)| == SYM_SIZE
  {
    SymWidth();
    AuxWidth();
    SplitJoin(if slot.Primary? then SYM else AUX, SlotRecord(slot, offsets));
  }

  lemma SlotTableShaped(slots: seq<Slot>, offsets: map<Name, nat>)
    requires forall i | 0 <= i < |slots| :: Nameable(slots[i], offsets)
    ensures AllShaped([SYM_SIZE], SlotRecords(slots, offsets))
  {
    forall i | 0 <= i < |slots| ensures Shaped([SYM_SIZE], SlotRecords(slots, offsets)[i]) {
      SlotSize(slots[i], offsets);
    }
  }

  lemma SlotTableSize(slots: seq<Slot>, offsets: map<Name, nat>)
    requires forall i | 0 <= i < |slots| :: Nameable(slots[i], offsets)
    ensures |Table(SlotRecords(slots, offsets))| == |slots| * SYM_SIZE
  {
    SlotTableShaped(slots, offsets);
    TableSize([SYM_SIZE], SlotRecords(slots, offsets));
    assert [SYM_SIZE][1..] == [];
    assert Width([SYM_SIZE]) == SYM_SIZE;
  }

  /** Slot k of the table lies k slots after its start. */
  lemma SlotAt(b: seq<byte>, off: nat, slots: seq<Slot>, offsets: map<Name, nat>, k: nat)
    requires forall i | 0 <= i < |slots| :: Nameable(slots[i], offsets)
    requires At(b, off, Table(SlotRecords(slots, offsets))) && k < |slots|
    ensures At(b, Bytes.Slot(off, k, SYM_SIZE), SlotBytes(slots[k], offsets))
  {
    var recs := SlotRecords(slots, offsets);
    SlotTableShaped(slots, offsets);
    TableEntry(recs, k);
    TablePrefix([SYM_SIZE], recs, k);
    assert [SYM_SIZE][1..] == [];
    assert Width([SYM_SIZE]) == SYM_SIZE;
    assert Join(recs[k]) == SlotBytes(slots[k], offsets) by {
      assert recs[k][1..] == [];
    }
    AtWithin(b, off, Table(recs), |Table(recs[..k])|, Join(recs[k]));
  }
}
