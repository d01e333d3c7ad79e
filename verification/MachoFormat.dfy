/** Layouts, constants and packed fields of 64-bit Mach-O object files. */
module MachoFormat {
  import opened Arith
  import opened Bytes
  import opened Bits
  import opened Objects

  const HDR: seq<nat> := [4, 4, 4, 4, 4, 4, 4, 4]
  const SEG_CMD: seq<nat> := [4, 4, 16, 8, 8, 8, 8, 4, 4, 4, 4]
  const SECTION: seq<nat> := [16, 16, 8, 8, 4, 4, 4, 4, 4, 4, 4, 4]
  const SIX_WORDS: seq<nat> := [4, 4, 4, 4, 4, 4]
  const CMD: seq<nat> := [4, 4]
  const NLIST: seq<nat> := [4, 1, 1, 2, 8]
  const RELOC: seq<nat> := [4, 4]

  const HDR_SIZE := 32
  const SEG_CMD_SIZE := 72
  const SECTION_SIZE := 80
  const SYMTAB_CMD_SIZE := 24
  const BUILD_CMD_SIZE := 24
  const NLIST_SIZE := 16
  const RELOC_SIZE := 8

  lemma HdrWidth()
    ensures Width(HDR) == HDR_SIZE
  {
    WidthOf4(4, 4, 4, 4, []);
    WidthOf4(4, 4, 4, 4, [4, 4, 4, 4]);
    assert HDR == [4, 4, 4, 4] + [4, 4, 4, 4];
    assert [4, 4, 4, 4] + [] == [4, 4, 4, 4];
  }

  lemma SegCmdWidth()
    ensures Width(SEG_CMD) == SEG_CMD_SIZE
  {
    WidthOf4(4, 4, 4, 4, []);
    assert [4, 4, 4, 4] + [] == [4, 4, 4, 4];
    var tail := [4, 4, 4, 4];
    var rest := [8, 8, 8] + tail;
    assert rest[1..] == [8, 8] + tail && ([8, 8] + tail)[1..] == [8] + tail && ([8] + tail)[1..] == tail;
    assert Width([8] + tail) == 24 && Width([8, 8] + tail) == 32 && Width(rest) == 40;
    WidthOf4(4, 4, 16, 8, rest);
    assert SEG_CMD == [4, 4, 16, 8] + rest;
  }

  lemma SectionWidth()
    ensures Width(SECTION) == SECTION_SIZE
  {
    HdrWidth();
    WidthOf4(16, 16, 8, 8, HDR);
    assert SECTION == [16, 16, 8, 8] + HDR;
  }

  lemma SixWordsWidth()
    ensures Width(SIX_WORDS) == SYMTAB_CMD_SIZE == BUILD_CMD_SIZE
  {
    WidthOf4(4, 4, 4, 4, [4, 4]);
    assert SIX_WORDS == [4, 4, 4, 4] + [4, 4];
  }

  lemma NlistWidth()
    ensures Width(NLIST) == NLIST_SIZE
  {
    WidthOf4(4, 1, 1, 2, [8]);
    assert NLIST == [4, 1, 1, 2] + [8];
  }

  lemma PairWidth()
    ensures Width(RELOC) == RELOC_SIZE && Width(CMD) == 8
  {
  }

  const MH_MAGIC_64 := 0xFEED_FACF
  const MH_OBJECT := 1
  const MH_SUBSECTIONS_VIA_SYMBOLS := 0x2000
  const CPU_X86_64: u32 := 0x0100_0007
  const CPU_ARM64: u32 := 0x0100_000C

  const LC_SEGMENT_64 := 0x19
  const LC_SYMTAB := 2
  const LC_BUILD_VERSION := 0x32
  const VM_PROT_ALL := 7

  const S_ATTR_PURE_INSTRUCTIONS := 0x8000_0000
  const S_ATTR_SOME_INSTRUCTIONS := 0x400
  const S_REGULAR := 0
  const S_ZEROFILL := 1

  const N_UNDF := 0
  const N_EXT := 1
  const N_SECT := 0xE
  const N_WEAK_DEF := 0x80

  const ARM64_PAGE21 := 3
  const ARM64_PAGEOFF12 := 4

  // ----------------------------------------------------- relocation descriptors

  /** Native type, log2 of the field width, and whether the field is relative to its place. */
  datatype RelocDesc = RelocDesc(rtype: nat, length: nat, pcrel: bool)

  function Describe(cpu: u32, k: RelocKind): (r: Option<RelocDesc>)
    ensures r.Some? ==> r.value.rtype < 16 && r.value.length < 4
  {
    if cpu == CPU_X86_64 then
      match k
      case Abs64 => Some(RelocDesc(0, 3, false))
      case PCRel32 => Some(RelocDesc(2, 2, true))
      case GOTLoad => Some(RelocDesc(3, 2, true))
      case TLSGD => Some(RelocDesc(9, 2, true))
      case _ => None
    else if cpu == CPU_ARM64 then
      match k
      case Abs64 => Some(RelocDesc(0, 3, false))
      case PCRel26 => Some(RelocDesc(2, 2, true))
      case ADRPage21 => Some(RelocDesc(ARM64_PAGE21, 2, true))
      case AddOff12 => Some(RelocDesc(ARM64_PAGEOFF12, 2, false))
      case GOTPage21 => Some(RelocDesc(5, 2, true))
      case GOTOff12 => Some(RelocDesc(6, 2, false))
      case TLSGD => Some(RelocDesc(7, 2, true))
      case _ => None
    else None
  }

  function AddendSize(d: RelocDesc): nat { if d.length == 3 then 8 else 4 }

  // -------------------------------------------------------------- packed r_info

  function OrField(v: nat, x: nat, k: nat): nat { Or(v, Shl(x, k)) }

  function OrFlag(v: nat, b: bool, k: nat): nat { if b then Or(v, Shl(1, k)) else v }

  /** packRelocInfo, bit by bit as the code does it. */
  function PackRelocInfo(symbolNum: nat, pcrel: bool, length: nat, extern: bool, rtype: nat): nat {
    Assembled(And(symbolNum, 0xFF_FFFF), pcrel, And(length, 3), extern, And(rtype, 15))
  }

  function Assembled(symbolNum: nat, pcrel: bool, length: nat, extern: bool, rtype: nat): nat {
    OrField(OrFlag(OrField(OrFlag(symbolNum, pcrel, 24), length, 25), extern, 27), rtype, 28)
  }

  function Bit(b: bool): nat { if b then 1 else 0 }

  lemma FieldAdds(v: nat, x: nat, k: nat, p: nat)
    requires p == Pow2(k) && v < p
    ensures OrField(v, x, k) == x * p + v
  {
    OrComm(v, Shl(x, k));
    Packed(x, k, v, p);
  }

  lemma FlagAdds(v: nat, b: bool, k: nat, p: nat)
    requires p == Pow2(k) && v < p
    ensures OrFlag(v, b, k) == Bit(b) * p + v
  {
    if b { FieldAdds(v, 1, k, p); }
  }

  lemma Pow2Of25And27()
    ensures Pow2(25) == 0x200_0000 && Pow2(27) == 0x800_0000
  {
    Pow2Of24();
    assert Pow2(26) == 2 * Pow2(25);
  }

  lemma LowHalf(symbolNum: nat, pcrel: bool, length: nat)
    requires symbolNum < 0x100_0000 && length < 4
    ensures OrField(OrFlag(symbolNum, pcrel, 24), length, 25)
            == symbolNum + Bit(pcrel) * 0x100_0000 + length * 0x200_0000
  {
    Pow2Of24();
    Pow2Of25And27();
    FlagAdds(symbolNum, pcrel, 24, 0x100_0000);
    FieldAdds(OrFlag(symbolNum, pcrel, 24), length, 25, 0x200_0000);
  }

  lemma HighHalf(v: nat, extern: bool, rtype: nat)
    requires v < 0x800_0000
    ensures OrField(OrFlag(v, extern, 27), rtype, 28) == v + Bit(extern) * 0x800_0000 + rtype * 0x1000_0000
  {
    Pow2Of25And27();
    Pow2Of28();
    FlagAdds(v, extern, 27, 0x800_0000);
    FieldAdds(OrFlag(v, extern, 27), rtype, 28, 0x1000_0000);
  }

  /** The packed word as a sum of disjoint fields. */
  lemma PackedSum(symbolNum: nat, pcrel: bool, length: nat, extern: bool, rtype: nat)
    requires symbolNum < 0x100_0000 && length < 4 && rtype < 16
    ensures Assembled(symbolNum, pcrel, length, extern, rtype)
            == symbolNum + (Bit(pcrel) + 2 * length + 8 * Bit(extern) + 16 * rtype) * 0x100_0000
  {
    LowHalf(symbolNum, pcrel, length);
    HighHalf(OrField(OrFlag(symbolNum, pcrel, 24), length, 25), extern, rtype);
  }

  /** The bit-fields of relocation_info, from the low end: 24 bits of symbol number, then one
      bit, two bits, one bit and four bits. */
  function SymbolNum(info: nat): nat { info % 0x100_0000 }
  function PcRel(info: nat): bool { (info / 0x100_0000) % 2 == 1 }
  function Length(info: nat): nat { (info / 0x100_0000 / 2) % 4 }
  function Extern(info: nat): bool { (info / 0x100_0000 / 8) % 2 == 1 }
  function RType(info: nat): nat { info / 0x100_0000 / 16 }

  lemma HighFields(high: nat, pcrel: bool, length: nat, extern: bool, rtype: nat)
    requires high == Bit(pcrel) + 2 * length + 8 * Bit(extern) + 16 * rtype && length < 4 && rtype < 16
    ensures high < 256 && (high % 2 == 1) == pcrel && (high / 2) % 4 == length
    ensures ((high / 8) % 2 == 1) == extern && high / 16 == rtype
  {
  }

  /** info decodes to the given fields. */
  predicate Decodes(info: nat, symbolNum: nat, pcrel: bool, length: nat, extern: bool, rtype: nat) {
    && SymbolNum(info) == symbolNum && PcRel(info) == pcrel && Length(info) == length
    && Extern(info) == extern && RType(info) == rtype
  }

  lemma SumDecodes(info: nat, symbolNum: nat, pcrel: bool, length: nat, extern: bool, rtype: nat)
    requires symbolNum < 0x100_0000 && length < 4 && rtype < 16
    requires info == symbolNum + (Bit(pcrel) + 2 * length + 8 * Bit(extern) + 16 * rtype) * 0x100_0000
    ensures info < 0x1_0000_0000 && Decodes(info, symbolNum, pcrel, length, extern, rtype)
  {
    var high := Bit(pcrel) + 2 * length + 8 * Bit(extern) + 16 * rtype;
    HighFields(high, pcrel, length, extern, rtype);
    DivModUnique(info, 0x100_0000, high, symbolNum);
  }

  lemma NothingMasked(symbolNum: nat, pcrel: bool, length: nat, extern: bool, rtype: nat)
    requires symbolNum < 0x100_0000 && length < 4 && rtype < 16
    ensures PackRelocInfo(symbolNum, pcrel, length, extern, rtype) == Assembled(symbolNum, pcrel, length, extern, rtype)
  {
    Pow2Of24();
    MaskedSmall(symbolNum, 24, 0x100_0000);
    assert Pow2(2) == 4;
    MaskedSmall(length, 2, 4);
    Pow2Of4();
    MaskedSmall(rtype, 4, 16);
  }

  /** Decoding r_info gives back the packed fields. */
  lemma PackedFields(symbolNum: nat, pcrel: bool, length: nat, extern: bool, rtype: nat)
    requires symbolNum < 0x100_0000 && length < 4 && rtype < 16
    ensures PackRelocInfo(symbolNum, pcrel, length, extern, rtype) < 0x1_0000_0000
    ensures Decodes(PackRelocInfo(symbolNum, pcrel, length, extern, rtype), symbolNum, pcrel, length, extern, rtype)
  {
    NothingMasked(symbolNum, pcrel, length, extern, rtype);
    PackedSum(symbolNum, pcrel, length, extern, rtype);
    SumDecodes(Assembled(symbolNum, pcrel, length, extern, rtype), symbolNum, pcrel, length, extern, rtype);
  }
}
