/** A reader for COFF object files that follows the Microsoft PE/COFF specification, version 8:
    section 4 (section table), 5.2 (relocations), 5.4 (symbol table), 5.5.5 (section
    definitions) and 5.6 (string table).  It knows nothing about the writer. */
module CoffReader {
  import opened Bytes
  import opened Names
  import opened CoffFormat

  datatype Header = Header(machine: nat, nSections: nat, symOff: nat, nSlots: nat, optSize: nat)

  /** The contents of a section-definition auxiliary record. */
  datatype Definition = Definition(length: nat, nRelocs: nat, nLines: nat, checkSum: nat, number: nat, selection: nat)

  datatype SymbolView = SymbolView(slot: nat, name: Name, value: nat, section: int, typ: nat, class_: nat,
                                   definition: Option<Definition>)

  /** A relocation with the symbol it refers to, slot included. */
  datatype RelocView = RelocView(offset: nat, sym: SymbolView, rtype: nat)

  datatype SectionView = SectionView(name: Name, chars: nat, size: nat, data: seq<byte>, relocs: seq<RelocView>)

  datatype ObjectView = ObjectView(machine: nat, sections: seq<SectionView>, symbols: seq<SymbolView>)

  function ReadHeader(b: seq<byte>): Option<Header> {
    var f :- ReadRecord(FILE_HDR, b, 0);
    Some(Header(FromLE(f[0]), FromLE(f[1]), FromLE(f[3]), FromLE(f[4]), FromLE(f[5])))
  }

  // -------------------------------------------------------------------- names

  /** The string table, its four-byte size included, right behind the symbol table. */
  function ReadStrings(b: seq<byte>, h: Header): Option<seq<byte>> {
    var start := Slot(h.symOff, h.nSlots, SYM_SIZE);
    var size :- Sub(b, start, 4);
    Sub(b, start, FromLE(size))
  }

  function LongName(strs: seq<byte>, off: nat): Option<Name> {
    if off < 4 then None else CStr(strs, off)
  }

  function SymbolName(strs: seq<byte>, f: seq<byte>): Option<Name>
    requires |f| == 8
  {
    if f[..4] == Zeros(4) then LongName(strs, FromLE(f[4..])) else Some(Trimmed(f))
  }

  function SectionName(strs: seq<byte>, f: seq<byte>): Option<Name> {
    var t := Trimmed(f);
    if t != [] && t[0] == SLASH then
      var off :- ParseDigits(t[1..]);
      LongName(strs, off)
    else Some(t)
  }

  // ------------------------------------------------------------------ symbols

  function ReadDefinition(b: seq<byte>, h: Header, k: nat): Option<Definition> {
    var f :- ReadRecord(AUX, b, Slot(h.symOff, k, SYM_SIZE));
    Some(Definition(FromLE(f[0]), FromLE(f[1]), FromLE(f[2]), FromLE(f[3]), FromLE(f[4]), FromLE(f[5])))
  }

  /** The symbol in slot k with the number of auxiliary slots behind it. */
  function ReadSymbol(b: seq<byte>, h: Header, strs: seq<byte>, k: nat): Option<(SymbolView, nat)> {
    var f :- ReadRecord(SYM, b, Slot(h.symOff, k, SYM_SIZE));
    if |f[0]| != 8 then None else
    var name :- SymbolName(strs, f[0]);
    var nAux := FromLE(f[5]);
    if nAux == 0 then
      Some((SymbolView(k, name, FromLE(f[1]), Signed(2, FromLE(f[2])), FromLE(f[3]), FromLE(f[4]), None), 0))
    else
      var d :- ReadDefinition(b, h, k + 1);
      Some((SymbolView(k, name, FromLE(f[1]), Signed(2, FromLE(f[2])), FromLE(f[3]), FromLE(f[4]), Some(d)), nAux))
  }

  /** Steps over the symbol table from slot k by one plus the number of auxiliary slots;
      fails unless it ends exactly at the last slot. */
  function Walk(b: seq<byte>, h: Header, strs: seq<byte>, k: nat): Option<seq<SymbolView>> {
    Follow(h.nSlots, k, (i: nat) => ReadSymbol(b, h, strs, i))
  }

  /** The symbol that occupies slot k; None if k is an auxiliary slot or no slot at all. */
  function SymbolAt(syms: seq<SymbolView>, k: nat): Option<SymbolView> {
    if syms == [] then None
    else if syms[0].slot == k then Some(syms[0])
    else SymbolAt(syms[1..], k)
  }

  // ----------------------------------------------------------------- sections

  function ReadReloc(b: seq<byte>, off: nat, syms: seq<SymbolView>, k: nat): Option<RelocView> {
    var f :- ReadRecord(RELOC, b, Slot(off, k, RELOC_SIZE));
    var target :- SymbolAt(syms, FromLE(f[1]));
    Some(RelocView(FromLE(f[0]), target, FromLE(f[2])))
  }

  function ReadRelocs(b: seq<byte>, off: nat, n: nat, syms: seq<SymbolView>): Option<seq<RelocView>> {
    Collect(n, (k: nat) => ReadReloc(b, off, syms, k))
  }

  /** No file pointer means uninitialised data. */
  function ReadData(b: seq<byte>, off: nat, size: nat): Option<seq<byte>> {
    if off == 0 then Some([]) else Sub(b, off, size)
  }

  function ReadSection(b: seq<byte>, h: Header, strs: seq<byte>, syms: seq<SymbolView>, i: nat): Option<SectionView> {
    var f :- ReadRecord(SEC_HDR, b, Slot(FILE_HDR_SIZE + h.optSize, i, SEC_HDR_SIZE));
    var name :- SectionName(strs, f[0]);
    var data :- ReadData(b, FromLE(f[4]), FromLE(f[3]));
    var relocs :- ReadRelocs(b, FromLE(f[5]), FromLE(f[7]), syms);
    Some(SectionView(name, FromLE(f[9]), FromLE(f[3]), data, relocs))
  }

  function ReadObject(b: seq<byte>): Option<ObjectView> {
    var h :- ReadHeader(b);
    var strs :- ReadStrings(b, h);
    var syms :- Walk(b, h, strs, 0);
    var secs :- Collect(h.nSections, (i: nat) => ReadSection(b, h, strs, syms, i));
    Some(ObjectView(h.machine, secs, syms))
  }
}
