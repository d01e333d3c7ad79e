/** Layouts and constants of ELF relocatable objects, for both classes (System V gABI,
    chapter 4), and the record encoders the writer uses. */
module ElfFormat {
  import opened Arith
  import opened Bytes
  import opened Bits
  import opened Names
  import opened Objects

  datatype Class = Elf32 | Elf64

  /** Width of the Addr, Off, Xword-or-Word fields. */
  function Word(c: Class): nat { if c.Elf64? then 8 else 4 }

  function EhdrShape(c: Class): seq<nat> {
    [16, 2, 2, 4, Word(c), Word(c), Word(c), 4, 2, 2, 2, 2, 2, 2]
  }

  function ShdrShape(c: Class): seq<nat> {
    [4, 4, Word(c), Word(c), Word(c), Word(c), 4, 4, Word(c), Word(c)]
  }

  function SymShape(c: Class): seq<nat> {
    if c.Elf64? then [4, 1, 1, 2, 8, 8] else [4, 4, 4, 1, 1, 2]
  }

  function RelaShape(c: Class): seq<nat> { [Word(c), Word(c), Word(c)] }

  function EhdrSize(c: Class): nat { if c.Elf64? then 64 else 52 }
  function ShdrSize(c: Class): nat { if c.Elf64? then 64 else 40 }
  function SymSize(c: Class): nat { if c.Elf64? then 24 else 16 }
  function RelaSize(c: Class): nat { if c.Elf64? then 24 else 12 }

  lemma EhdrWidth(c: Class)
    ensures Width(EhdrShape(c)) == EhdrSize(c)
  {
    var w := Word(c);
    var front, tail := [w, w, w, 4], [2, 2, 2, 2] + [2, 2];
    WidthOf4(2, 2, 2, 2, [2, 2]);
    WidthOf4(w, w, w, 4, tail);
    WidthOf4(16, 2, 2, 4, front + tail);
    assert EhdrShape(c) == [16, 2, 2, 4] + (front + tail);
  }

  lemma ShdrWidth(c: Class)
    ensures Width(ShdrShape(c)) == ShdrSize(c)
  {
    var w := Word(c);
    var tail := [w, w, 4, 4] + [w, w];
    WidthOf4(w, w, 4, 4, [w, w]);
    WidthOf4(4, 4, w, w, tail);
    assert ShdrShape(c) == [4, 4, w, w] + tail;
  }

  lemma SymWidth(c: Class)
    ensures Width(SymShape(c)) == SymSize(c)
  {
    if c.Elf64? {
      WidthOf4(4, 1, 1, 2, [8, 8]);
      assert SymShape(c) == [4, 1, 1, 2] + [8, 8];
    } else {
      WidthOf4(4, 4, 4, 1, [1, 2]);
      assert SymShape(c) == [4, 4, 4, 1] + [1, 2];
    }
  }

  lemma RelaWidth(c: Class)
    ensures Width(RelaShape(c)) == RelaSize(c)
  {
  }

  const ELFCLASS32 := 1
  const ELFCLASS64 := 2
  const ELFDATA2LSB := 1
  const EV_CURRENT := 1
  const ET_REL := 1

  const EM_386: u16 := 3
  const EM_X86_64: u16 := 62
  const EM_AARCH64: u16 := 183
  const EM_RISCV: u16 := 243

  const SHT_NULL := 0
  const SHT_PROGBITS := 1
  const SHT_SYMTAB := 2
  const SHT_STRTAB := 3
  const SHT_RELA := 4
  const SHT_NOBITS := 8
  const SHT_INIT_ARRAY := 14
  const SHT_FINI_ARRAY := 15
  const SHT_GROUP := 17

  const SHF_WRITE := 0x1
  const SHF_ALLOC := 0x2
  const SHF_EXECINSTR := 0x4
  const SHF_INFO_LINK := 0x40
  const SHF_TLS := 0x400

  const STB_LOCAL := 0
  const STB_GLOBAL := 1
  const STB_WEAK := 2

  const STT_NOTYPE := 0
  const STT_OBJECT := 1
  const STT_FUNC := 2
  const STT_SECTION := 3

  function StInfo(bind: nat, typ: nat): nat { Or(Shl(bind, 4) % 0x100, And(typ, 0xF)) }

  function RInfo(c: Class, sym: nat, typ: nat): nat {
    if c.Elf64? then Or(Shl(sym, 32), typ)
    else Or(Shl(sym, 8) % 0x1_0000_0000, And(typ, 0xFF))
  }

  lemma ShlSmall(x: nat, k: nat, p: nat, limit: nat)
    requires p == Pow2(k) && x * p < limit
    ensures Shl(x, k) % limit == Shl(x, k)
  {
    ShlPow2(x, k);
    DivModUnique(x * p, limit, 0, x * p);
  }

  lemma StInfoFields(bind: nat, typ: nat)
    requires bind < 16 && typ < 16
    ensures StInfo(bind, typ) < 256
    ensures StInfo(bind, typ) / 16 == bind && StInfo(bind, typ) % 16 == typ
  {
    Pow2Of4();
    MaskedSmall(typ, 4, 0x10);
    ShlSmall(bind, 4, 0x10, 0x100);
    Packed(bind, 4, typ, 0x10);
  }

  /** How many symbols r_info can number, and which types it can hold. */
  function SymLimit(c: Class): nat { if c.Elf64? then 0x1_0000_0000 else 0x100_0000 }
  function TypeLimit(c: Class): nat { if c.Elf64? then 0x1_0000_0000 else 0x100 }

  /** ELF32_R_SYM / ELF64_R_SYM and ELF32_R_TYPE / ELF64_R_TYPE. */
  function InfoSym(c: Class, info: nat): nat { if c.Elf64? then info / 0x1_0000_0000 else info / 0x100 }
  function InfoType(c: Class, info: nat): nat { if c.Elf64? then info % 0x1_0000_0000 else info % 0x100 }

  lemma RInfoFields64(sym: nat, typ: nat)
    requires sym < 0x1_0000_0000 && typ < 0x1_0000_0000
    ensures RInfo(Elf64, sym, typ) == sym * 0x1_0000_0000 + typ
    ensures RInfo(Elf64, sym, typ) / 0x1_0000_0000 == sym && RInfo(Elf64, sym, typ) % 0x1_0000_0000 == typ
  {
    Pow2Of32();
    Packed(sym, 32, typ, 0x1_0000_0000);
  }

  lemma RInfoFields32(sym: nat, typ: nat)
    requires sym < 0x100_0000 && typ < 0x100
    ensures RInfo(Elf32, sym, typ) == sym * 0x100 + typ
    ensures RInfo(Elf32, sym, typ) / 0x100 == sym && RInfo(Elf32, sym, typ) % 0x100 == typ
  {
    Pow2Of8();
    MaskedSmall(typ, 8, 0x100);
    ShlSmall(sym, 8, 0x100, 0x1_0000_0000);
    Packed(sym, 8, typ, 0x100);
  }

  /** The packed relocation info fits its field and comes apart into symbol and type. */
  lemma RInfoFields(c: Class, sym: nat, typ: nat)
    requires sym < SymLimit(c) && typ < TypeLimit(c)
    ensures RInfo(c, sym, typ) < Pow256(Word(c))
    ensures InfoSym(c, RInfo(c, sym, typ)) == sym && InfoType(c, RInfo(c, sym, typ)) == typ
  {
    Pow256Word(c);
    if c.Elf64? { RInfoFields64(sym, typ); } else { RInfoFields32(sym, typ); }
  }

  lemma Pow256Word(c: Class)
    ensures Pow256(Word(c)) == if c.Elf64? then 0x1_0000_0000_0000_0000 else 0x1_0000_0000
  {
    Pow256Values();
  }

  /** relocType: the native number for a relocation kind, if the machine has one. */
  function RelocType(machine: u16, k: RelocKind): Option<nat> {
    if machine == EM_X86_64 then
      match k
      case Abs64 => Some(1)
      case Abs32 => Some(10)
      case PCRel32 => Some(2)
      case PLT32 => Some(4)
      case GOTLoad => Some(9)
      case TLSGD => Some(19)
      case TLSIE => Some(22)
      case TLSLE => Some(23)
      case _ => None
    else if machine == EM_AARCH64 then
      match k
      case Abs64 => Some(257)
      case Abs32 => Some(258)
      case PCRel26 => Some(283)
      case ADRPage21 => Some(275)
      case AddOff12 => Some(277)
      case GOTPage21 => Some(311)
      case GOTOff12 => Some(312)
      case TLSGD => Some(513)
      case TLSIE => Some(541)
      case TLSLE => Some(554)
      case _ => None
    else if machine == EM_386 then
      match k
      case Abs32 => Some(1)
      case PCRel32 => Some(2)
      case GOTLoad => Some(3)
      case _ => None
    else if machine == EM_RISCV then
      match k
      case Abs64 => Some(2)
      case Abs32 => Some(1)
      case RISCVCall => Some(19)
      case RISCVHI20 => Some(26)
      case RISCVLO12I => Some(27)
      case RISCVLO12S => Some(28)
      case TLSGD => Some(22)
      case TLSIE => Some(21)
      case TLSLE => Some(29)
      case _ => None
    else None
  }

  // ---------------------------------------------------------- written records

  datatype Sym = Sym(name: nat, info: nat, shndx: nat, value: nat, size: nat)

  function SymRecord(c: Class, s: Sym): (r: Record)
    ensures Shaped(SymShape(c), r)
  {
    if c.Elf64? then
      [LE(4, s.name), LE(1, s.info), LE(1, 0), LE(2, s.shndx), LE(8, s.value), LE(8, s.size)]
    else
      [LE(4, s.name), LE(4, s.value), LE(4, s.size), LE(1, s.info), LE(1, 0), LE(2, s.shndx)]
  }

  function RelaRecord(c: Class, offset: nat, info: nat, addend: int): (r: Record)
    ensures Shaped(RelaShape(c), r)
  {
    [LE(Word(c), offset), LE(Word(c), info), LE(Word(c), addend)]
  }

  /** Internal section descriptor; noSize is the size of a section without file bytes. */
  datatype SecDesc = SecDesc(name: Name, shType: nat, flags: nat, link: nat, info: nat, align: nat,
                             entSize: nat, data: seq<byte>, noSize: nat, fileOff: nat)

  function DescSize(d: SecDesc): nat {
    if d.shType == SHT_NOBITS then d.noSize else |d.data|
  }

  function ShdrRecord(c: Class, d: SecDesc, name: nat): (r: Record)
    ensures Shaped(ShdrShape(c), r)
  {
    var w := Word(c);
    [LE(4, name), LE(4, d.shType), LE(w, d.flags), LE(w, 0), LE(w, d.fileOff), LE(w, DescSize(d)),
     LE(4, d.link), LE(4, d.info), LE(w, d.align), LE(w, d.entSize)]
  }

  function Ident(c: Class, osabi: u8): (s: seq<byte>)
    ensures |s| == 16
  {
    [0x7F, 0x45, 0x4C, 0x46, if c.Elf64? then ELFCLASS64 else ELFCLASS32, ELFDATA2LSB, EV_CURRENT, osabi] + Zeros(8)
  }

  function EhdrRecord(c: Class, osabi: u8, machine: u16, shoff: nat, shnum: nat, shstrndx: nat): (r: Record)
    ensures Shaped(EhdrShape(c), r)
  {
    var w := Word(c);
    [Ident(c, osabi), LE(2, ET_REL), LE(2, machine), LE(4, EV_CURRENT), LE(w, 0), LE(w, 0), LE(w, shoff), LE(4, 0),
     LE(2, EhdrSize(c)), LE(2, 0), LE(2, 0), LE(2, ShdrSize(c)), LE(2, shnum), LE(2, shstrndx)]
  }
}
