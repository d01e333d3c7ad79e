/** Layouts and constants of COFF object files (Microsoft PE/COFF specification, version 8). */
module CoffFormat {
  import opened Bytes
  import opened Bits
  import opened Names
  import opened Objects

  const FILE_HDR: seq<nat> := [2, 2, 4, 4, 4, 2, 2]
  const SEC_HDR: seq<nat> := [8, 4, 4, 4, 4, 4, 4, 2, 2, 4]
  const SYM: seq<nat> := [8, 4, 2, 2, 1, 1]
  const AUX: seq<nat> := [4, 2, 2, 4, 2, 1, 3]
  const RELOC: seq<nat> := [4, 4, 2]

  const FILE_HDR_SIZE := 20
  const SEC_HDR_SIZE := 40
  const SYM_SIZE := 18
  const RELOC_SIZE := 10

  lemma FileHdrWidth()
    ensures Width(FILE_HDR) == FILE_HDR_SIZE
  {
    WidthOf4(2, 2, 4, 4, [4, 2, 2]);
    assert FILE_HDR == [2, 2, 4, 4] + [4, 2, 2];
  }

  lemma SecHdrWidth()
    ensures Width(SEC_HDR) == SEC_HDR_SIZE
  {
    WidthOf4(4, 4, 2, 2, [4]);
    var tail := [4, 4, 2, 2] + [4];
    WidthOf4(8, 4, 4, 4, [4] + tail);
    assert SEC_HDR == [8, 4, 4, 4] + ([4] + tail);
    assert ([4] + tail)[1..] == tail;
  }

  lemma SymWidth()
    ensures Width(SYM) == SYM_SIZE
  {
    WidthOf4(8, 4, 2, 2, [1, 1]);
    assert SYM == [8, 4, 2, 2] + [1, 1];
  }

  lemma AuxWidth()
    ensures Width(AUX) == SYM_SIZE
  {
    WidthOf4(4, 2, 2, 4, [2, 1, 3]);
    assert AUX == [4, 2, 2, 4] + [2, 1, 3];
  }

  lemma RelocWidth()
    ensures Width(RELOC) == RELOC_SIZE
  {
  }

  const MACHINE_AMD64: u16 := 0x8664
  const MACHINE_ARM64: u16 := 0xAA64

  const SCN_CNT_CODE := 0x20
  const SCN_CNT_INITIALIZED_DATA := 0x40
  const SCN_CNT_UNINITIALIZED_DATA := 0x80
  const SCN_LNK_INFO := 0x200
  const SCN_LNK_REMOVE := 0x800
  const SCN_LNK_COMDAT := 0x1000
  const SCN_MEM_EXECUTE := 0x2000_0000
  const SCN_MEM_READ := 0x4000_0000
  const SCN_MEM_WRITE := 0x8000_0000

  const CLASS_EXTERNAL := 2
  const CLASS_STATIC := 3
  const TYPE_NULL := 0
  const TYPE_FUNC := 0x20
  const COMDAT_SELECT_ANY := 2

  const REL_AMD64_ADDR64 := 1
  const REL_AMD64_ADDR32 := 2
  const REL_AMD64_ADDR32NB := 3
  const REL_AMD64_REL32 := 4
  const REL_AMD64_SECREL := 0xB
  const REL_ARM64_ADDR32 := 1
  const REL_ARM64_ADDR32NB := 2
  const REL_ARM64_BRANCH26 := 3
  const REL_ARM64_SECREL := 8
  const REL_ARM64_ADDR64 := 0xE

  function RelocType(machine: u16, k: RelocKind): (r: Option<nat>)
    ensures r.Some? ==> r.value < 0x10
  {
    if machine == MACHINE_AMD64 then
      match k
      case Abs64 => Some(REL_AMD64_ADDR64)
      case Abs32 => Some(REL_AMD64_ADDR32)
      case PCRel32 => Some(REL_AMD64_REL32)
      case PLT32 => Some(REL_AMD64_REL32)
      case IAT => Some(REL_AMD64_ADDR32NB)
      case Addr32NB => Some(REL_AMD64_ADDR32NB)
      case TLSIE => Some(REL_AMD64_SECREL)
      case _ => None
    else if machine == MACHINE_ARM64 then
      match k
      case Abs64 => Some(REL_ARM64_ADDR64)
      case Abs32 => Some(REL_ARM64_ADDR32)
      case PCRel26 => Some(REL_ARM64_BRANCH26)
      case PLT32 => Some(REL_ARM64_BRANCH26)
      case IAT => Some(REL_ARM64_ADDR32NB)
      case Addr32NB => Some(REL_ARM64_ADDR32NB)
      case TLSIE => Some(REL_ARM64_SECREL)
      case _ => None
    else None
  }

  /** relocAddendSize: chosen by the number alone, whatever the machine. */
  function AddendSize(t: nat): nat {
    if t == REL_AMD64_ADDR64 || t == REL_ARM64_ADDR64 then 8 else 4
  }

  // ------------------------------------------------------------ decimal numbers

  const ZERO: byte := 48
  const SLASH: byte := 47

  function Digits(n: nat): (d: seq<byte>)
    ensures |d| > 0
  {
    if n < 10 then [ZERO + n] else Digits(n / 10) + [ZERO + n % 10]
  }

  predicate IsDigit(c: byte) { ZERO <= c < ZERO + 10 }

  /** The number spelled by a non-empty run of digits. */
  function ParseDigits(d: seq<byte>): Option<nat> {
    if d == [] then None
    else if !IsDigit(d[|d| - 1]) then None
    else if |d| == 1 then Some(d[0] - ZERO)
    else
      var front :- ParseDigits(d[..|d| - 1]);
      Some(10 * front + (d[|d| - 1] - ZERO))
  }

  lemma {:induction false} ParsePrinted(n: nat)
    ensures ParseDigits(Digits(n)) == Some(n)
    ensures NulFree(Digits(n))
  {
    if n >= 10 {
      ParsePrinted(n / 10);
      var d := Digits(n);
      assert d[..|d| - 1] == Digits(n / 10) && d[|d| - 1] == ZERO + n % 10;
    }
  }

  /** A number below 10^k prints in at most k digits. */
  lemma {:induction false} PrintedLength(n: nat, k: nat)
    requires 0 < k && n < Pow10(k)
    ensures |Digits(n)| <= k
  {
    if n >= 10 {
      assert Pow10(1) == 10 * Pow10(0);
      PrintedLength(n / 10, k - 1);
    }
  }

  function Pow10(k: nat): nat { if k == 0 then 1 else 10 * Pow10(k - 1) }

  // ------------------------------------------------------------- name fields

  /** setSectionName: inline, or "/" and the decimal string-table offset, cut to 8 bytes. */
  function SectionNameField(name: Name, offsets: map<Name, nat>): (f: seq<byte>)
    requires |name| > 8 ==> name in offsets
    ensures |f| == 8
  {
    if |name| <= 8 then Padded(name, 8) else Padded([SLASH] + Digits(offsets[name] + 4), 8)
  }

  /** encodeSymName: inline, or four zero bytes and the string-table offset. */
  function SymbolNameField(name: Name, offsets: map<Name, nat>): (f: seq<byte>)
    requires |name| > 8 ==> name in offsets
    ensures |f| == 8
  {
    if |name| <= 8 then Padded(name, 8) else Zeros(4) + LE(4, offsets[name] + 4)
  }

  // ---------------------------------------------------------------- alignment

  function Clamped(align: nat): nat {
    if align == 0 then 1 else if align > 8192 then 8192 else align
  }

  /** IMAGE_SCN_ALIGN_* bits for an alignment. */
  function AlignFlag(align: nat): nat { Shl(Log2Of(Clamped(align)) + 1, 20) }

  /** alignFlag, with its shift loop. */
  method ComputeAlignFlag(align0: u32) returns (flag: nat)
    ensures flag == AlignFlag(align0)
  {
    var align: nat := align0;
    if align == 0 { align := 1; }
    if align > 8192 { align := 8192; }
    var shift := Log2(align);
    flag := Shl(shift + 1, 20);
  }

  lemma {:induction false} Log2OfMonotone(v: nat, k: nat)
    requires v < 2 * Pow2(k)
    ensures Log2Of(v) <= k
  {
    if v > 1 {
      if k > 0 { Log2OfMonotone(v / 2, k - 1); }
    }
  }

  lemma AlignFlagRange(align: nat)
    ensures Log2Of(Clamped(align)) <= 13
    ensures AlignFlag(align) == (Log2Of(Clamped(align)) + 1) * 0x10_0000
  {
    assert Pow2(13) == 8192;
    Log2OfMonotone(Clamped(align), 13);
    Pow2Of20();
    ShlPow2(Log2Of(Clamped(align)) + 1, 20);
  }

  /** A characteristics word made of flag bits outside 20..23. */
  predicate OutsideNibble(base: nat) {
    (base / 0x10_0000) % 16 == 0
  }

  /** ORing a j-bit field into a gap at bit k is addition. */
  lemma OrGap(hi: nat, lo: nat, n: nat, j: nat, k: nat)
    requires n < Pow2(j) && lo < Pow2(k)
    ensures Or(Shl(Shl(hi, j), k) + lo, Shl(n, k)) == Shl(Shl(hi, j) + n, k) + lo
  {
    OrSplit(Shl(hi, j), lo, n, 0, k);
    OrBelow(hi, j, n);
    OrZero(lo);
  }

  lemma Shl20(x: nat)
    ensures Shl(x, 20) == x * 0x10_0000
  {
    Pow2Of20();
    ShlPow2(x, 20);
  }

  lemma Ungapped(base: nat)
    requires OutsideNibble(base)
    ensures base == (base / 0x100_0000 * 16) * 0x10_0000 + base % 0x10_0000
  {
    var q := base / 0x10_0000;
    assert q == 16 * (q / 16);
    assert q / 16 == base / 0x100_0000;
  }

  /** OrGap with the powers of two written out. */
  lemma OrGapAt(hi: nat, lo: nat, n: nat, j: nat, k: nat, pj: nat, pk: nat)
    requires pj == Pow2(j) && pk == Pow2(k) && n < pj && lo < pk
    ensures Or((hi * pj) * pk + lo, n * pk) == (hi * pj + n) * pk + lo
  {
    OrGap(hi, lo, n, j, k);
    ShlPow2(hi, j);
    ShlPow2(hi * pj, k);
    ShlPow2(n, k);
    ShlPow2(hi * pj + n, k);
  }

  /** The alignment nibble leaves every other characteristic bit alone. */
  lemma OrNibble(base: nat, n: nat)
    requires OutsideNibble(base) && n < 16
    ensures Or(base, Shl(n, 20)) == base + n * 0x10_0000
  {
    Shl20(n);
    Ungapped(base);
    Pow2Of4();
    Pow2Of20();
    OrGapAt(base / 0x100_0000, base % 0x10_0000, n, 4, 20, 16, 0x10_0000);
  }

  /** OR works separately on the bits below and above k. */
  lemma {:induction false} OrSplit(a: nat, b: nat, c: nat, d: nat, k: nat)
    requires b < Pow2(k) && d < Pow2(k)
    ensures Or(Shl(a, k) + b, Shl(c, k) + d) == Shl(Or(a, c), k) + Or(b, d)
    decreases k
  {
    if k > 0 {
      OrSplit(a, b / 2, c, d / 2, k - 1);
      OrHalves(Shl(a, k) + b, Shl(c, k) + d);
      OrHalves(b, d);
    } else {
      OrZero(0);
    }
  }

  lemma OrHalves(x: nat, y: nat)
    ensures Or(x, y) == (if x % 2 == 1 || y % 2 == 1 then 1 else 0) + 2 * Or(x / 2, y / 2)
  {
    OrZero(x);
    OrZero(y);
    OrZero(x / 2);
    OrZero(y / 2);
  }

  lemma OrZero(x: nat)
    ensures Or(x, 0) == x && Or(0, x) == x
  {
  }
}
