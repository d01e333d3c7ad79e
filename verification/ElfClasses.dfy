/** The same sections written as ELF32 and as ELF64: section by section, what agrees and
    what depends on the class. */
module ElfClasses {
  import opened Names
  import opened Objects
  import opened ElfFormat
  import opened ElfSpec
  import opened ElfReader
  import opened ElfRoundTrip
  import opened ElfTables
  import opened ElfReading
  import opened ElfRecovered

  /** The section types whose entries have a width of the class's own. */
  predicate ClassBound(shType: nat) { shType == SHT_RELA || shType == SHT_SYMTAB }

  /** Name, type, flags and cross references agree, and so does everything else unless the
      entries depend on the class; a loose comparison leaves the alignment open. */
  predicate DescAlike(d: SecDesc, e: SecDesc, loose: bool) {
    && d.name == e.name && d.shType == e.shType && d.flags == e.flags && d.link == e.link && d.info == e.info
    && (!ClassBound(d.shType) ==> d == if loose then e.(align := d.align) else e)
  }

  predicate DescsAlike(ds: seq<SecDesc>, es: seq<SecDesc>, loose: bool) {
    |ds| == |es| && forall k | 0 <= k < |ds| :: DescAlike(ds[k], es[k], loose)
  }

  lemma AppendAlike(a: seq<SecDesc>, b: seq<SecDesc>, c: seq<SecDesc>, d: seq<SecDesc>, loose: bool)
    requires DescsAlike(a, c, loose) && DescsAlike(b, d, loose)
    ensures DescsAlike(a + b, c + d, loose)
  {
    forall k | 0 <= k < |a + b| ensures DescAlike((a + b)[k], (c + d)[k], loose) {
      if k < |a| { assert DescAlike(a[k], c[k], loose); } else { assert DescAlike(b[k - |a|], d[k - |a|], loose); }
    }
  }

  lemma NamesAlike(ds: seq<SecDesc>, es: seq<SecDesc>)
    requires |ds| == |es| && forall k | 0 <= k < |ds| :: ds[k].name == es[k].name
    ensures DescNames(ds) == DescNames(es)
  {
  }

  // ------------------------------------------------------------------- the parts

  ghost predicate PartsAlike(p: Parts, q: Parts) {
    && DescsAlike(p.content, q.content, true) && DescsAlike(p.rela, q.rela, false) && p.group == q.group
    && p.note == q.note && DescAlike(p.symtab, q.symtab, false) && p.strtab == q.strtab
  }

  lemma RelasAlike(x: Input, y: Input, index: map<Name, nat>)
    requires x.secs == y.secs && x.gnuStack == y.gnuStack
    requires FirstFailure(x, index).None? && FirstFailure(y, index).None?
    requires forall i | 0 <= i < |x.secs| :: AllResolvable(x.machine, index, x.secs[i].relocs)
    requires forall i | 0 <= i < |y.secs| :: AllResolvable(y.machine, index, y.secs[i].relocs)
    ensures DescsAlike(RelaDescs(x, index, |x.secs|), RelaDescs(y, index, |y.secs|), false)
  {
  }

  lemma PartsAlikeWith(x: Input, y: Input, index: map<Name, nat>, s: SecDesc, s': SecDesc, strtab: SecDesc)
    requires x.secs == y.secs && x.gnuStack == y.gnuStack && DescAlike(s, s', false)
    requires FirstFailure(x, index).None? && FirstFailure(y, index).None?
    ensures PartsAlike(PartsWith(x, index, s, strtab), PartsWith(y, index, s', strtab))
  {
    ErrorFree(x, index);
    ErrorFree(y, index);
    ComdatErrorFree(x.secs, index, |x.secs|);
    RelasAlike(x, y, index);
    assert GroupDescs(x, index, |x.secs|) == GroupDescs(y, index, |y.secs|);
  }

  lemma SymbolPartsAlike(x: Input, y: Input)
    requires x.secs == y.secs && x.gnuStack == y.gnuStack
    ensures DescAlike(SymtabPart(x), SymtabPart(y), false) && StrtabPart(x) == StrtabPart(y)
  {
  }

  lemma PartsAlikeOf(x: Input, y: Input)
    requires Buildable(x) && Buildable(y) && x.secs == y.secs && x.gnuStack == y.gnuStack
    ensures PartsAlike(PartsOf(x), PartsOf(y))
  {
    SymbolPartsAlike(x, y);
    PartsAlikeWith(x, y, Index(x.secs), SymtabPart(x), SymtabPart(y), StrtabPart(x));
  }

  /** The descriptors behind the content sections. */
  function Rest(p: Parts, last: SecDesc): seq<SecDesc> {
    p.rela + p.group + p.note + [p.symtab] + [p.strtab] + [last]
  }

  lemma RestAlike(p: Parts, q: Parts, last: SecDesc)
    requires PartsAlike(p, q)
    ensures DescsAlike(Rest(p, last), Rest(q, last), false)
  {
    AppendAlike(p.rela, p.group, q.rela, q.group, false);
    AppendAlike(p.rela + p.group, p.note, q.rela + q.group, q.note, false);
    AppendAlike(p.rela + p.group + p.note, [p.symtab], q.rela + q.group + q.note, [q.symtab], false);
    AppendAlike(p.rela + p.group + p.note + [p.symtab], [p.strtab] + [last],
                q.rela + q.group + q.note + [q.symtab], [q.strtab] + [last], false);
    assert Rest(p, last) == p.rela + p.group + p.note + [p.symtab] + ([p.strtab] + [last]);
    assert Rest(q, last) == q.rela + q.group + q.note + [q.symtab] + ([q.strtab] + [last]);
  }

  function WithLast(p: Parts, last: SecDesc): (ds: seq<SecDesc>)
    ensures |ds| == 1 + |p.content| + |Rest(p, last)|
  {
    [NullDesc] + p.content + Rest(p, last)
  }

  lemma WithLastAlike(p: Parts, q: Parts, last: SecDesc, k: nat)
    requires PartsAlike(p, q) && k < |WithLast(p, last)|
    ensures |WithLast(q, last)| == |WithLast(p, last)|
    ensures DescAlike(WithLast(p, last)[k], WithLast(q, last)[k], 1 <= k <= |p.content|)
  {
    RestAlike(p, q, last);
    if 1 <= k <= |p.content| {
      assert DescAlike(p.content[k - 1], q.content[k - 1], true);
    } else if k > |p.content| {
      var j := k - 1 - |p.content|;
      assert DescAlike(Rest(p, last)[j], Rest(q, last)[j], false);
    }
  }

  lemma AssembledHead(p: Parts, last: SecDesc)
    ensures WithLast(p, last) == Assemble(p) + [last]
  {
  }

  lemma TablesAlike(p: Parts, q: Parts)
    requires PartsAlike(p, q)
    ensures NameTable(Assemble(p)) == NameTable(Assemble(q))
  {
    var a, b := Assemble(p), Assemble(q);
    AssembledHead(p, NullDesc);
    AssembledHead(q, NullDesc);
    forall k | 0 <= k < |a| ensures |a| == |b| && a[k].name == b[k].name { WithLastAlike(p, q, NullDesc, k); }
    NamesAlike(a, b);
  }

  /** Descriptor k of both files: only content sections are compared loosely. */
  lemma ClosedAlike(p: Parts, q: Parts, k: nat)
    requires PartsAlike(p, q) && k < |Closed(Assemble(p))|
    ensures k < |Closed(Assemble(q))|
    ensures DescAlike(Closed(Assemble(p))[k], Closed(Assemble(q))[k], 1 <= k <= |p.content|)
  {
    var last := StrtabDesc(Ascii(".shstrtab"), NameTable(Assemble(p)).data);
    TablesAlike(p, q);
    AssembledHead(p, last);
    AssembledHead(q, last);
    WithLastAlike(p, q, last, k);
  }

  // ---------------------------------------------------------- what a reader compares

  /** Equal up to what the class determines. */
  predicate Alike(a: SectionView, b: SectionView, loose: bool) {
    if ClassBound(a.shType) then
      a == b.(align := a.align, entsize := a.entsize, size := a.size, bytes := a.bytes)
    else a == if loose then b.(align := a.align) else b
  }

  lemma ViewAlike(d: SecDesc, e: SecDesc, loose: bool)
    requires DescAlike(d, e, loose)
    ensures Alike(ViewOf(d), ViewOf(e), loose)
  {
  }

  lemma SectionsAlike(x: Input, y: Input, k: nat)
    requires Buildable(x) && Buildable(y) && x.secs == y.secs && x.gnuStack == y.gnuStack
    requires k < |Descs(x)|
    ensures k < |Descs(y)| && Alike(ViewOf(Descs(x)[k]), ViewOf(Descs(y)[k]), 1 <= k <= |x.secs|)
  {
    PartsAlikeOf(x, y);
    ClosedAlike(PartsOf(x), PartsOf(y), k);
    ViewAlike(Descs(x)[k], Descs(y)[k], 1 <= k <= |x.secs|);
  }

  /** The same sites, symbol entries and addends; only native type numbers may differ. */
  predicate SameRelocs(a: seq<RelocView>, b: seq<RelocView>) {
    |a| == |b| && forall k | 0 <= k < |a| :: a[k] == b[k].(rtype := a[k].rtype)
  }

  lemma RelocsAlike(x: Input, t: Tables, y: Input, u: Tables, k: nat)
    requires TargetsGiven(x, t) && TargetsGiven(y, u)
    requires x.secs == y.secs && t.rows == u.rows && t.index == u.index
    ensures SameRelocs(RelocsFor(x, t, k), RelocsFor(y, u, k))
    ensures x.machine == y.machine ==> RelocsFor(x, t, k) == RelocsFor(y, u, k)
  {
  }

  /** An alignment that was asked for, or that is the same in both classes, is kept. */
  lemma AlignsAlike(x: Input, y: Input, i: nat)
    requires Buildable(x) && Buildable(y) && x.secs == y.secs && i < |x.secs|
    requires x.secs[i].align > 0 || x.secs[i].kind == Text
    ensures ViewOf(Descs(x)[1 + i]) == ViewOf(Descs(y)[1 + i])
  {
    ContentDescAt(x, i);
    ContentDescAt(y, i);
  }

  ghost predicate Agreeing(secs: seq<Section>, v: ObjectView, w: ObjectView, sameMachine: bool) {
    && |v.sections| == |w.sections| == |v.relocs| == |w.relocs| > |secs|
    && (forall k: nat | k < |v.sections| :: Alike(v.sections[k], w.sections[k], 1 <= k <= |secs|))
    && (forall i: nat | i < |secs| && (secs[i].align > 0 || secs[i].kind == Text) ::
          v.sections[1 + i] == w.sections[1 + i])
    && v.symbols == w.symbols
    && (forall k: nat | k < |v.relocs| :: SameRelocs(v.relocs[k], w.relocs[k]))
    && (sameMachine ==> v.relocs == w.relocs)
  }

  lemma AgreeFrom(x: Input, t: Tables, ds: seq<SecDesc>, v: ObjectView, y: Input, u: Tables, es: seq<SecDesc>,
                  w: ObjectView)
    requires x.secs == y.secs && t.rows == u.rows && t.index == u.index && TargetsGiven(x, t) && TargetsGiven(y, u)
    requires v.sections == ViewsOf(ds) && v.symbols == SymbolViewsOf(t.rows) && v.relocs == AllRelocsFor(x, t, |ds|)
    requires w.sections == ViewsOf(es) && w.symbols == SymbolViewsOf(u.rows) && w.relocs == AllRelocsFor(y, u, |es|)
    requires |ds| == |es| > |x.secs|
    requires forall k: nat | k < |ds| :: Alike(ViewOf(ds[k]), ViewOf(es[k]), 1 <= k <= |x.secs|)
    requires forall i: nat | i < |x.secs| && (x.secs[i].align > 0 || x.secs[i].kind == Text) ::
               ViewOf(ds[1 + i]) == ViewOf(es[1 + i])
    ensures Agreeing(x.secs, v, w, x.machine == y.machine)
  {
    forall k: nat | k < |ds|
      ensures SameRelocs(v.relocs[k], w.relocs[k]) && (x.machine == y.machine ==> v.relocs[k] == w.relocs[k])
    {
      RelocsAlike(x, t, y, u, k);
    }
  }

  /** The same sections written as ELF32 and as ELF64 read back with the same section
      indices, names, types, flags and cross references, the same symbols, and the same
      relocations down to the entries they refer to.  Contents, groups, string tables and
      the stack note are equal; only the default alignments of content sections and the
      layout of the entries of relocation and symbol tables differ. */
  lemma ClassesAgree(x: Input, y: Input)
    requires Buildable(x) && InBounds(x) && Buildable(y) && InBounds(y)
    requires x.secs == y.secs && x.gnuStack == y.gnuStack
    ensures Agreeing(x.secs, ObjectOfImage(x), ObjectOfImage(y), x.machine == y.machine)
  {
    Recovered(x);
    Recovered(y);
    forall k: nat | k < |Descs(x)| ensures Alike(ViewOf(Descs(x)[k]), ViewOf(Descs(y)[k]), 1 <= k <= |x.secs|) {
      SectionsAlike(x, y, k);
    }
    forall i: nat | i < |x.secs| && (x.secs[i].align > 0 || x.secs[i].kind == Text)
      ensures ViewOf(Descs(x)[1 + i]) == ViewOf(Descs(y)[1 + i])
    {
      AlignsAlike(x, y, i);
    }
    AgreeFrom(x, TablesOf(x), Descs(x), ObjectOfImage(x), y, TablesOf(y), Descs(y), ObjectOfImage(y));
  }
}
