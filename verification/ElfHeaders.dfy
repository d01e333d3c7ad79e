/** Headers of an ELF file that no input section stands behind, decoded with the numbers of the
    gABI (chapter 4): relocations, groups, the stack note, and the symbol and string tables. */
module ElfHeaders {
  import opened Bytes
  import opened Names
  import opened Objects
  import opened ElfFormat
  import opened ElfSpec
  import opened ElfReader
  import opened ElfRoundTrip
  import opened ElfTables

  function WordSize(c: Class): nat { if c.Elf64? then 8 else 4 }

  /** The RELA header of header target, whose name is n, with entries for symbol table m. */
  predicate IsRela(v: SectionView, c: Class, m: nat, target: nat, n: Name) {
    && v.name == Ascii(".rela") + n && v.shType == 4 && v.flags == 0x40 && v.align == WordSize(c)
    && v.link == m && v.info == target && v.entsize == 3 * WordSize(c) && v.size == |v.bytes|
  }

  lemma RelaDecoded(x: Input, t: Tables, i: nat, d: SecDesc)
    requires RelaFor(x, t, i, d)
    ensures IsRela(ViewOf(d), x.class_, SymtabPos(t.p), 1 + i, SectionName(x.secs[i]))
  {
  }

  /** The first symbol that is not local. */
  predicate FirstExported(syms: seq<Symbol>, j: nat) {
    j < |syms| && syms[j].binding != Local && forall k | 0 <= k < j :: syms[k].binding == Local
  }

  lemma {:induction false} FirstSigns(syms: seq<Symbol>, index: map<Name, nat>) returns (j: nat)
    requires ComdatSig(syms, index).Some?
    requires forall k | 0 <= k < |syms| && syms[k].binding != Local :: syms[k].name in index
    ensures FirstExported(syms, j) && syms[j].name in index && ComdatSig(syms, index).value == index[syms[j].name]
  {
    if syms[0].binding != Local {
      j := 0;
    } else {
      var k := FirstSigns(syms[1..], index);
      j := k + 1;
      forall i | 0 <= i < j ensures syms[i].binding == Local {
        if i > 0 { assert syms[1..][i - 1] == syms[i]; }
      }
    }
  }

  /** The COMDAT header of section s, which its first exported symbol signs. */
  ghost predicate IsComdat(v: SectionView, m: nat, symbols: seq<SymbolView>, s: Section) {
    && v.name == Ascii(".group") && v.shType == 17 && v.flags == 0 && v.align == 4 && v.entsize == 4
    && v.link == m && v.info < |symbols| && v.size == |v.bytes|
    && exists j: nat :: FirstExported(s.symbols, j) && symbols[v.info].name == s.symbols[j].name
  }

  lemma ComdatDecoded(x: Input, index: map<Name, nat>, rows: seq<Row>, i: nat, m: nat)
    requires i < |x.secs| && ComdatSig(x.secs[i].symbols, index).Some? && Points(index, rows)
    requires var syms := x.secs[i].symbols;
             forall k | 0 <= k < |syms| && syms[k].binding != Local :: syms[k].name in index
    ensures IsComdat(ViewOf(GroupDesc(x.secs, index, i, m)), m, SymbolViewsOf(rows), x.secs[i])
  {
    var j := FirstSigns(x.secs[i].symbols, index);
    assert FirstExported(x.secs[i].symbols, j);
  }

  const NullHeader := SectionView([], 0, 0, 0, 0, 0, 0, 0, [])

  predicate IsSymtab(v: SectionView, c: Class, strtab: nat) {
    && v.name == Ascii(".symtab") && v.shType == 2 && v.flags == 0 && v.align == WordSize(c) && v.link == strtab
    && v.entsize == (if c.Elf64? then 24 else 16) && v.size == |v.bytes|
  }

  predicate IsStrtab(v: SectionView, n: Name) {
    v == SectionView(n, 3, 0, 1, 0, 0, 0, |v.bytes|, v.bytes)
  }

  /** An empty section that is not executable asks for a stack that is not either. */
  predicate IsStackNote(v: SectionView) { v == SectionView(Ascii(".note.GNU-stack"), 1, 0, 1, 0, 0, 0, 0, []) }

  /** The headers outside content, relocations and groups: the null one first, then, behind
      n others, the stack note if it is asked for, and the symbol and string tables. */
  predicate FixedHeaders(vs: seq<SectionView>, c: Class, n: nat, note: bool) {
    var m := 1 + n + if note then 1 else 0;
    && |vs| == m + 3 && vs[0] == NullHeader && (note ==> IsStackNote(vs[m - 1]))
    && IsSymtab(vs[m], c, m + 1) && IsStrtab(vs[m + 1], Ascii(".strtab")) && IsStrtab(vs[m + 2], Ascii(".shstrtab"))
  }

  lemma SymtabDecoded(x: Input)
    ensures IsSymtab(ViewOf(SymtabPart(x)), x.class_, SymtabIdx(x) + 1)
  {
  }

  lemma StrtabDecoded(n: Name, data: seq<byte>)
    ensures IsStrtab(ViewOf(StrtabDesc(n, data)), n)
  {
  }

  /** The descriptors outside content, relocations and groups, with the symbol table at m. */
  ghost predicate FixedDescs(ds: seq<SecDesc>, symtab: SecDesc, strings: seq<byte>, m: nat, note: bool) {
    && |ds| == m + 3 && ds[0] == NullDesc && (note ==> m > 0 && ds[m - 1] == NoteDesc)
    && ds[m] == symtab && ds[m + 1] == StrtabDesc(Ascii(".strtab"), strings)
    && ds[m + 2] == StrtabDesc(Ascii(".shstrtab"), ds[m + 2].data)
  }

  lemma FixedDescsOf(p: Parts, ds: seq<SecDesc>, strings: seq<byte>, note: bool)
    requires Positioned(p, ds) && p.note == NoteDescs(note) && p.strtab == StrtabDesc(Ascii(".strtab"), strings)
    ensures FixedDescs(ds, p.symtab, strings, SymtabPos(p), note)
  {
    if note { assert ds[NotePos(p) + 0] == p.note[0]; }
  }

  lemma StrtabsDecoded(ds: seq<SecDesc>, symtab: SecDesc, strings: seq<byte>, m: nat, note: bool)
    requires FixedDescs(ds, symtab, strings, m, note)
    ensures IsStrtab(ViewOf(ds[m + 1]), Ascii(".strtab")) && IsStrtab(ViewOf(ds[m + 2]), Ascii(".shstrtab"))
    ensures ViewOf(ds[0]) == NullHeader && (note ==> IsStackNote(ViewOf(ds[m - 1])))
  {
    StrtabDecoded(Ascii(".strtab"), strings);
    StrtabDecoded(Ascii(".shstrtab"), ds[m + 2].data);
  }

  lemma FixedFrom(ds: seq<SecDesc>, symtab: SecDesc, strings: seq<byte>, c: Class, m: nat, n: nat, note: bool)
    requires m == 1 + n + (if note then 1 else 0) && IsSymtab(ViewOf(symtab), c, m + 1)
    ensures FixedDescs(ds, symtab, strings, m, note) ==> FixedHeaders(ViewsOf(ds), c, n, note)
  {
    if FixedDescs(ds, symtab, strings, m, note) { StrtabsDecoded(ds, symtab, strings, m, note); }
  }
}
