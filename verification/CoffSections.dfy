/** Reading a COFF section: characteristics and alignment, name, bytes and relocations. */
module CoffSections {
  import opened Bytes
  import opened Bits
  import opened Names
  import opened Objects
  import opened StringTable
  import opened CoffFormat
  import opened CoffSpec
  import opened CoffRoundTrip
  import opened CoffWalk
  import R = CoffReader

  // ------------------------------------------------------------ characteristics

  lemma BaseCharsOutside(s: Section)
    ensures OutsideNibble(BaseChars(s)) && BaseChars(s) < 0xD000_0000
  {
  }

  lemma NibbleOf(base: nat, n: nat)
    requires OutsideNibble(base) && n < 16
    ensures ((base + n * 0x10_0000) / 0x10_0000) % 16 == n
  {
  }

  /** The characteristics word is the kind's flags plus the alignment in bits 20 to 23,
      neither disturbing the other. */
  lemma CharsBits(s: Section)
    requires !IsDrectve(s)
    ensures var n := Log2Of(Clamped(EffectiveAlign(s))) + 1;
            && n <= 14 && Chars(s) == BaseChars(s) + n * 0x10_0000
            && (Chars(s) / 0x10_0000) % 16 == n
  {
    var align := EffectiveAlign(s);
    var n := Log2Of(Clamped(align)) + 1;
    AlignFlagRange(align);
    BaseCharsOutside(s);
    OrNibble(BaseChars(s), n);
    NibbleOf(BaseChars(s), n);
  }

  lemma CharsFit(s: Section)
    ensures Chars(s) < 0x1_0000_0000
  {
    if !IsDrectve(s) {
      CharsBits(s);
      BaseCharsOutside(s);
    }
  }

  /** The alignment field of a characteristics word: one plus the exponent, zero for none. */
  function Nibble(s: Section): nat { (Chars(s) / 0x10_0000) % 16 }

  lemma ClampedRecovers(a: nat)
    requires a >= 1
    ensures Pow2(Log2Of(Clamped(a))) == a <==> IsPow2(a) && a <= 8192
  {
    AlignFlagRange(a);
    PowersArePow2(Log2Of(Clamped(a)));
    Pow2AtMost(Log2Of(Clamped(a)), 13);
    assert Pow2(13) == 8192;
    if IsPow2(a) && a <= 8192 {
      var k := Pow2Exponent(a);
      Log2OfPow2(k);
    }
  }

  /** The header's alignment is the section's own exactly for powers of two up to 8192. */
  lemma AlignmentRecovered(s: Section)
    requires !IsDrectve(s)
    ensures Nibble(s) >= 1 && Pow2(Nibble(s) - 1) == EffectiveAlign(s)
            <==> IsPow2(EffectiveAlign(s)) && EffectiveAlign(s) <= 8192
  {
    CharsBits(s);
    ClampedRecovers(EffectiveAlign(s));
  }

  // ------------------------------------------------------------------- sections

  function SectionViewOf(machine: u16, t: Tables, s: Section): R.SectionView
    requires AllTargeted(machine, t, s.relocs)
  {
    R.SectionView(SectionName(s), Chars(s), HeaderSize(s), if BssLike(s) then [] else BakedCode(machine, s),
                  if BssLike(s) then [] else RelocViewsOf(machine, t, s.relocs))
  }

  /** The header fields hold the section's values. */
  predicate HeaderFits(secs: seq<Section>, k: nat)
    requires k < |secs|
  {
    HeaderSize(secs[k]) < 0x1_0000_0000 && RawOff(secs, k) < 0x1_0000_0000 && RelocOff(secs, k) < 0x1_0000_0000
    && RelocCount(secs[k]) <= 0xFFFF
  }

  /** Section names that come back from their field, given where long ones are stored. */
  predicate SectionNameOk(n: Name, offsets: map<Name, nat>) {
    n != [] && NulFree(n) && !StartsWithSlash(n) && (IsLong(n) ==> n in offsets && offsets[n] + 4 < MAX_DECIMAL)
  }

  lemma HeaderFieldsRead(secs: seq<Section>, k: nat, offsets: map<Name, nat>)
    requires k < |secs| && (IsLong(SectionName(secs[k])) ==> SectionName(secs[k]) in offsets)
    requires HeaderFits(secs, k)
    ensures var f := HeaderRecord(secs, k, offsets);
            && FromLE(f[3]) == HeaderSize(secs[k]) && FromLE(f[4]) == RawOff(secs, k)
                && FromLE(f[5]) == RelocOff(secs, k)
            && FromLE(f[7]) == RelocCount(secs[k]) && FromLE(f[9]) == Chars(secs[k])
  {
    Pow256Values();
    CharsFit(secs[k]);
    LEFits(4, HeaderSize(secs[k]));
    LEFits(4, RawOff(secs, k));
    LEFits(4, RelocOff(secs, k));
    LEFits(2, RelocCount(secs[k]));
    LEFits(4, Chars(secs[k]));
  }

  lemma SectionNameReads(t: StrTable, n: Name)
    requires t.Sound() && SectionNameOk(n, t.offsets)
    ensures R.SectionName(StrtabBytes(t), SectionNameField(n, t.offsets)) == Some(n)
  {
    if IsLong(n) { LongSectionNameReads(t, n); } else { ShortSectionNameReads(StrtabBytes(t), n, t.offsets); }
  }

  lemma SectionFrom(b: seq<byte>, h: R.Header, strs: seq<byte>, syms: seq<R.SymbolView>, i: nat, f: Record,
                    v: R.SectionView, start: nat)
    requires |f| == 10 && start == FILE_HDR_SIZE + h.optSize
    requires ReadRecord(SEC_HDR, b, Bytes.Slot(start, i, SEC_HDR_SIZE)) == Some(f)
    requires R.SectionName(strs, f[0]) == Some(v.name) && FromLE(f[9]) == v.chars && FromLE(f[3]) == v.size
    requires R.ReadData(b, FromLE(f[4]), v.size) == Some(v.data)
    requires R.ReadRelocs(b, FromLE(f[5]), FromLE(f[7]), syms) == Some(v.relocs)
    ensures R.ReadSection(b, h, strs, syms, i) == Some(v)
  {
  }

  lemma ChunkSplit(b: seq<byte>, off: nat, machine: u16, index: map<Name, nat>, s: Section)
    requires Resolvable(machine, index, s.relocs) && At(b, off, ChunkData(machine, index, s))
    ensures Sub(b, off, |s.code|) == Some(BakedCode(machine, s))
    ensures At(b, off + |s.code|, Table(RelocRecords(machine, index, s.relocs)))
  {
    var code, table := BakedCode(machine, s), Table(RelocRecords(machine, index, s.relocs));
    AtSplit(b, off, code, table);
  }

  /** Section k's bytes and relocations lie where its header says. */
  ghost predicate ChunkSeen(b: seq<byte>, machine: u16, secs: seq<Section>, index: map<Name, nat>, k: nat)
    requires k < |secs|
  {
    && Resolvable(machine, index, secs[k].relocs)
    && (!BssLike(secs[k]) ==> RawOff(secs, k) > 0 && At(b, RawOff(secs, k), ChunkData(machine, index, secs[k])))
  }

  lemma DataReads(b: seq<byte>, machine: u16, secs: seq<Section>, index: map<Name, nat>, k: nat)
    requires k < |secs| && ChunkSeen(b, machine, secs, index, k)
    ensures R.ReadData(b, RawOff(secs, k), HeaderSize(secs[k]))
            == Some(if BssLike(secs[k]) then [] else BakedCode(machine, secs[k]))
  {
    if !BssLike(secs[k]) { ChunkSplit(b, RawOff(secs, k), machine, index, secs[k]); }
  }

  lemma SectionRelocsRead(b: seq<byte>, machine: u16, secs: seq<Section>, t: Tables, k: nat)
    requires k < |secs| && ChunkSeen(b, machine, secs, t.index, k)
    requires Regular(t.slots) && AllTargeted(machine, t, secs[k].relocs) && |t.slots| <= 0x1_0000_0000
    ensures R.ReadRelocs(b, RelocOff(secs, k), RelocCount(secs[k]), Views(t.slots, 0))
            == Some(if BssLike(secs[k]) then [] else RelocViewsOf(machine, t, secs[k].relocs))
  {
    var rs := secs[k].relocs;
    if !BssLike(secs[k]) && rs != [] {
      ChunkSplit(b, RawOff(secs, k), machine, t.index, secs[k]);
      RelocsRead(b, RelocOff(secs, k), machine, t, rs);
    }
  }

  lemma SectionReads(b: seq<byte>, h: R.Header, machine: u16, secs: seq<Section>, t: Tables, k: nat)
    requires k < |secs| && ChunkSeen(b, machine, secs, t.index, k) && HeaderFits(secs, k) && h.optSize == 0
    requires t.strtab.Sound() && SectionNameOk(SectionName(secs[k]), t.strtab.offsets)
    requires Regular(t.slots) && AllTargeted(machine, t, secs[k].relocs) && |t.slots| <= 0x1_0000_0000
    requires ReadRecord(SEC_HDR, b, Bytes.Slot(FILE_HDR_SIZE, k, SEC_HDR_SIZE))
             == Some(HeaderRecord(secs, k, t.strtab.offsets))
    ensures R.ReadSection(b, h, StrtabBytes(t.strtab), Views(t.slots, 0), k) == Some(SectionViewOf(machine, t, secs[k]))
  {
    DataReads(b, machine, secs, t.index, k);
    SectionRelocsRead(b, machine, secs, t, k);
    HeaderFieldsRead(secs, k, t.strtab.offsets);
    SectionNameReads(t.strtab, SectionName(secs[k]));
    SectionFrom(b, h, StrtabBytes(t.strtab), Views(t.slots, 0), k, HeaderRecord(secs, k, t.strtab.offsets),
                SectionViewOf(machine, t, secs[k]), FILE_HDR_SIZE);
  }
}
