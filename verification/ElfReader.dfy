/** A reader for ELF relocatable files, written from the System V gABI (chapter 4) alone.
    It starts from the ELF header and follows sh_link and sh_info; it shares nothing with
    the writer but the record shapes. */
module ElfReader {
  import opened Bytes
  import opened Names
  import opened ElfFormat

  datatype Header = Header(class_: Class, osabi: nat, machine: nat, shoff: nat, shentsize: nat, shnum: nat,
                           shstrndx: nat)

  datatype Shdr = Shdr(name: nat, shType: nat, flags: nat, offset: nat, size: nat, link: nat, info: nat,
                       align: nat, entsize: nat)

  function ReadClass(ident: seq<byte>): Option<Class>
    requires |ident| == 16
  {
    if ident[..4] != [0x7F, 0x45, 0x4C, 0x46] || ident[5] != ELFDATA2LSB then None
    else if ident[4] == ELFCLASS64 then Some(Elf64)
    else if ident[4] == ELFCLASS32 then Some(Elf32)
    else None
  }

  function ReadHeader(b: seq<byte>): Option<Header> {
    var ident :- Sub(b, 0, 16);
    var c :- ReadClass(ident);
    var f :- ReadRecord(EhdrShape(c), b, 0);
    if FromLE(f[1]) != ET_REL then None
    else Some(Header(c, ident[7], FromLE(f[2]), FromLE(f[6]), FromLE(f[11]), FromLE(f[12]), FromLE(f[13])))
  }

  function ReadShdr(b: seq<byte>, h: Header, i: nat): Option<Shdr> {
    if i >= h.shnum then None else
    var f :- ReadRecord(ShdrShape(h.class_), b, Slot(h.shoff, i, h.shentsize));
    Some(Shdr(FromLE(f[0]), FromLE(f[1]), FromLE(f[2]), FromLE(f[4]), FromLE(f[5]), FromLE(f[6]), FromLE(f[7]),
              FromLE(f[8]), FromLE(f[9])))
  }

  /** A section's bytes in the file; SHT_NOBITS sections have none. */
  function Contents(b: seq<byte>, sh: Shdr): Option<seq<byte>> {
    if sh.shType == SHT_NOBITS then Some([]) else Sub(b, sh.offset, sh.size)
  }

  function StringAt(b: seq<byte>, h: Header, strtab: nat, off: nat): Option<Name> {
    var sh :- ReadShdr(b, h, strtab);
    var data :- Contents(b, sh);
    CStr(data, off)
  }

  // ----------------------------------------------------------------- sections

  datatype SectionView = SectionView(name: Name, shType: nat, flags: nat, align: nat, link: nat, info: nat,
                                     entsize: nat, size: nat, bytes: seq<byte>)

  function ReadSection(b: seq<byte>, h: Header, i: nat): Option<SectionView> {
    var sh :- ReadShdr(b, h, i);
    var name :- StringAt(b, h, h.shstrndx, sh.name);
    var data :- Contents(b, sh);
    Some(SectionView(name, sh.shType, sh.flags, sh.align, sh.link, sh.info, sh.entsize, sh.size, data))
  }

  function ReadSections(b: seq<byte>, h: Header): Option<seq<SectionView>> {
    Collect(h.shnum, (i: nat) => ReadSection(b, h, i))
  }

  // ------------------------------------------------------------------ symbols

  datatype SymbolView = SymbolView(name: Name, bind: nat, kind: nat, shndx: nat, value: nat, size: nat,
                                   other: nat)

  function Entries(sh: Shdr): nat { if sh.entsize == 0 then 0 else sh.size / sh.entsize }

  function ReadSymbol(b: seq<byte>, h: Header, symtab: nat, k: nat): Option<SymbolView> {
    var sh :- ReadShdr(b, h, symtab);
    if k >= Entries(sh) then None else
    var f :- ReadRecord(SymShape(h.class_), b, Slot(sh.offset, k, sh.entsize));
    var name :- StringAt(b, h, sh.link, FromLE(f[0]));
    Some(if h.class_.Elf64? then
           SymbolView(name, FromLE(f[1]) / 16, FromLE(f[1]) % 16, FromLE(f[3]), FromLE(f[4]), FromLE(f[5]),
                      FromLE(f[2]))
         else
           SymbolView(name, FromLE(f[3]) / 16, FromLE(f[3]) % 16, FromLE(f[5]), FromLE(f[1]), FromLE(f[2]),
                      FromLE(f[4])))
  }

  function ReadSymbols(b: seq<byte>, h: Header, symtab: nat): Option<seq<SymbolView>> {
    var sh :- ReadShdr(b, h, symtab);
    Collect(Entries(sh), (k: nat) => ReadSymbol(b, h, symtab, k))
  }

  // -------------------------------------------------------------- relocations

  /** A relocation with the symbol-table entry it refers to: its index and what it holds. */
  datatype RelocView = RelocView(offset: nat, index: nat, sym: SymbolView, rtype: nat, addend: int)

  function ReadReloc(b: seq<byte>, h: Header, rela: nat, k: nat): Option<RelocView> {
    var sh :- ReadShdr(b, h, rela);
    var f :- ReadRecord(RelaShape(h.class_), b, Slot(sh.offset, k, sh.entsize));
    var info := FromLE(f[1]);
    var sym :- ReadSymbol(b, h, sh.link, InfoSym(h.class_, info));
    Some(RelocView(FromLE(f[0]), InfoSym(h.class_, info), sym, InfoType(h.class_, info),
                   Signed(Word(h.class_), FromLE(f[2]))))
  }

  function ReadRelocs(b: seq<byte>, h: Header, rela: nat): Option<seq<RelocView>> {
    var sh :- ReadShdr(b, h, rela);
    Collect(Entries(sh), (k: nat) => ReadReloc(b, h, rela, k))
  }

  /** The relocations section k holds for section target: none unless it is a SHT_RELA
      section whose sh_info is target. */
  function RelocsIn(b: seq<byte>, h: Header, target: nat, k: nat): Option<seq<RelocView>> {
    var sh :- ReadShdr(b, h, k);
    if sh.shType == SHT_RELA && sh.info == target then ReadRelocs(b, h, k) else Some([])
  }

  /** All relocations that apply to section target. */
  function RelocsAgainst(b: seq<byte>, h: Header, target: nat): Option<seq<RelocView>> {
    Gather(h.shnum, (k: nat) => RelocsIn(b, h, target, k))
  }

  // ---------------------------------------------------------------- the object

  /** The index of the first section of the given type. */
  function FindType(views: seq<SectionView>, t: nat): Option<nat> {
    if views == [] then None
    else if views[0].shType == t then Some(0)
    else
      var k :- FindType(views[1..], t);
      Some(k + 1)
  }

  /** The whole file: sections, the symbol table, and the relocations against each section. */
  datatype ObjectView = ObjectView(machine: nat, osabi: nat, sections: seq<SectionView>, symbols: seq<SymbolView>,
                                   relocs: seq<seq<RelocView>>)

  function ReadObject(b: seq<byte>): Option<ObjectView> {
    var h :- ReadHeader(b);
    var sections :- ReadSections(b, h);
    var symtab :- FindType(sections, SHT_SYMTAB);
    var symbols :- ReadSymbols(b, h, symtab);
    var relocs :- Collect(h.shnum, (i: nat) => RelocsAgainst(b, h, i));
    Some(ObjectView(h.machine, h.osabi, sections, symbols, relocs))
  }
}
