/** A reader for 64-bit Mach-O object files, written from the record layouts of the format's
    system headers (loader.h, nlist.h, reloc.h).  It walks the load commands and shares nothing
    with the writer but the record shapes and the relocation bit-fields. */
module MachoReader {
  import opened Bytes
  import opened Names
  import opened MachoFormat

  datatype Command = Command(cmd: nat, off: nat, size: nat)

  datatype Symtab = Symtab(symOff: nat, nSyms: nat, strings: seq<byte>)

  datatype SymbolView = SymbolView(name: Name, ntype: nat, sect: nat, desc: nat, value: nat)

  /** r_extern says whether r_symbolnum is a symbol or a section number. */
  datatype Target = ToSymbol(sym: SymbolView) | ToSection(number: nat)

  datatype RelocView = RelocView(address: nat, target: Target, pcrel: bool, length: nat, rtype: nat)

  datatype SectionView = SectionView(segment: Name, name: Name, size: nat, log2Align: nat, flags: nat,
                                     data: seq<byte>, relocs: seq<RelocView>)

  datatype ObjectView = ObjectView(cpu: nat, vmSize: nat, fileSize: nat, sections: seq<SectionView>,
                                   symbols: seq<SymbolView>, build: Option<(nat, nat, nat)>)

  // ------------------------------------------------------------- load commands

  /** The n commands from off on; each says how long it is. */
  function Commands(b: seq<byte>, off: nat, n: nat): Option<seq<Command>>
    decreases n
  {
    if n == 0 then Some([]) else
    var f :- ReadRecord(CMD, b, off);
    var rest :- Commands(b, off + FromLE(f[1]), n - 1);
    Some([Command(FromLE(f[0]), off, FromLE(f[1]))] + rest)
  }

  function Find(cmds: seq<Command>, cmd: nat): Option<Command> {
    if cmds == [] then None else if cmds[0].cmd == cmd then Some(cmds[0]) else Find(cmds[1..], cmd)
  }

  function ReadSymtab(b: seq<byte>, c: Command): Option<Symtab> {
    var f :- ReadRecord(SIX_WORDS, b, c.off);
    var strings :- Sub(b, FromLE(f[4]), FromLE(f[5]));
    Some(Symtab(FromLE(f[2]), FromLE(f[3]), strings))
  }

  function ReadBuild(b: seq<byte>, c: Command): Option<(nat, nat, nat)> {
    var f :- ReadRecord(SIX_WORDS, b, c.off);
    Some((FromLE(f[2]), FromLE(f[3]), FromLE(f[4])))
  }

  // ------------------------------------------------------------------ symbols

  function ReadSymbol(b: seq<byte>, t: Symtab, k: nat): Option<SymbolView> {
    if k >= t.nSyms then None else
    var f :- ReadRecord(NLIST, b, Slot(t.symOff, k, NLIST_SIZE));
    var name :- CStr(t.strings, FromLE(f[0]));
    Some(SymbolView(name, FromLE(f[1]), FromLE(f[2]), FromLE(f[3]), FromLE(f[4])))
  }

  function ReadSymbols(b: seq<byte>, t: Symtab): Option<seq<SymbolView>> {
    Collect(t.nSyms, (k: nat) => ReadSymbol(b, t, k))
  }

  // ----------------------------------------------------------------- sections

  function ReadTarget(b: seq<byte>, t: Symtab, info: nat): Option<Target> {
    if Extern(info) then
      var sym :- ReadSymbol(b, t, SymbolNum(info));
      Some(ToSymbol(sym))
    else Some(ToSection(SymbolNum(info)))
  }

  function ReadReloc(b: seq<byte>, t: Symtab, off: nat, k: nat): Option<RelocView> {
    var f :- ReadRecord(RELOC, b, Slot(off, k, RELOC_SIZE));
    var info := FromLE(f[1]);
    var target :- ReadTarget(b, t, info);
    Some(RelocView(FromLE(f[0]), target, PcRel(info), Length(info), RType(info)))
  }

  function ReadRelocs(b: seq<byte>, t: Symtab, off: nat, n: nat): Option<seq<RelocView>> {
    Collect(n, (k: nat) => ReadReloc(b, t, off, k))
  }

  /** The section type is the low byte of the flags; zero-fill sections have no file bytes. */
  function ReadData(b: seq<byte>, flags: nat, off: nat, size: nat): Option<seq<byte>> {
    if flags % 256 == S_ZEROFILL then Some([]) else Sub(b, off, size)
  }

  function ReadSection(b: seq<byte>, t: Symtab, off: nat, i: nat): Option<SectionView> {
    var f :- ReadRecord(SECTION, b, Slot(off, i, SECTION_SIZE));
    var data :- ReadData(b, FromLE(f[8]), FromLE(f[4]), FromLE(f[3]));
    var relocs :- ReadRelocs(b, t, FromLE(f[6]), FromLE(f[7]));
    Some(SectionView(Trimmed(f[1]), Trimmed(f[0]), FromLE(f[3]), FromLE(f[5]), FromLE(f[8]), data, relocs))
  }

  function ReadSections(b: seq<byte>, t: Symtab, off: nat, n: nat): Option<seq<SectionView>> {
    Collect(n, (i: nat) => ReadSection(b, t, off, i))
  }

  // ---------------------------------------------------------------- the object

  function ReadContents(b: seq<byte>, cpu: nat, cmds: seq<Command>): Option<ObjectView> {
    var seg :- Find(cmds, LC_SEGMENT_64);
    var sym :- Find(cmds, LC_SYMTAB);
    var f :- ReadRecord(SEG_CMD, b, seg.off);
    var t :- ReadSymtab(b, sym);
    var syms :- ReadSymbols(b, t);
    var secs :- ReadSections(b, t, seg.off + SEG_CMD_SIZE, FromLE(f[9]));
    var build := Find(cmds, LC_BUILD_VERSION);
    Some(ObjectView(cpu, FromLE(f[4]), FromLE(f[6]), secs, syms,
                    if build.Some? then ReadBuild(b, build.value) else None))
  }

  /** The command list must fill exactly the size the header announces. */
  predicate Fills(cmds: seq<Command>, start: nat, size: nat) {
    if cmds == [] then size == 0 else
    var last := cmds[|cmds| - 1];
    last.off + last.size == start + size
  }

  function ReadObject(b: seq<byte>): Option<ObjectView> {
    var f :- ReadRecord(HDR, b, 0);
    if FromLE(f[0]) != MH_MAGIC_64 || FromLE(f[3]) != MH_OBJECT then None else
    var cmds :- Commands(b, HDR_SIZE, FromLE(f[4]));
    if !Fills(cmds, HDR_SIZE, FromLE(f[5])) then None else ReadContents(b, FromLE(f[1]), cmds)
  }
}
