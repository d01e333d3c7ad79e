/** What a reader finds in a file whose sections hold given ELF tables, whatever input the
    tables come from: symbols, and relocations with the entries they refer to. */
module ElfReading {
  import opened Bytes
  import opened Names
  import opened StringTable
  import opened ElfFormat
  import opened ElfSpec
  import opened ElfReader
  import opened ElfRoundTrip
  import opened ElfTables

  // -------------------------------------------------------------------- symbols

  ghost predicate SeenSomewhere(b: seq<byte>, h: Header, k: nat, d: SecDesc) {
    exists off: nat :: Seen(b, h, k, d, off)
  }

  /** Section m is seen with descriptor d, whose bytes are the symbol records of rows under
      string table t, which fills section s.  An implication, like all lemmas whose callers
      have the premises as they stand. */
  lemma SymtabFrom(b: seq<byte>, h: Header, m: nat, d: SecDesc, s: nat, e: SecDesc, rows: seq<Row>, t: StrTable)
    requires forall i | 0 <= i < |rows| :: rows[i].name in t.offsets && RowFits(rows[i])
    requires t.Sound() && |t.data| <= 0x1_0000_0000
    requires d.shType == SHT_SYMTAB && d.entSize == SymSize(h.class_) && d.link == s && e.data == t.data
    requires d.data == Table(SymRecords(h.class_, Stamp(rows, t.offsets)))
    ensures SeenSomewhere(b, h, m, d) && SeenSomewhere(b, h, s, e) ==> SymtabSeen(b, h, m, s, rows, t)
  {
    if SeenSomewhere(b, h, m, d) && SeenSomewhere(b, h, s, e) {
      var off: nat :| Seen(b, h, m, d, off);
      var off': nat :| Seen(b, h, s, e, off');
      SymWidth(h.class_);
      TableIsSeen(b, h, m, d, off, SymShape(h.class_), SymRecords(h.class_, Stamp(rows, t.offsets)));
      forall n | n in t.offsets && NulFree(n) ensures StringAt(b, h, s, t.offsets[n]) == Some(n) {
        StringReads(b, h, s, e, off', t, n);
      }
    }
  }

  // -------------------------------------------------------- relocations of a file

  /** Which section, if any, holds the relocations of section target. */
  function RelaOf(x: Input, t: Tables, target: nat): Option<nat> {
    if 1 <= target <= |x.secs| && x.secs[target - 1].relocs != []
    then Some(RelaPos(t.p) + |Relocated(x.secs, target - 1)|)
    else None
  }

  /** Every target of section i has a row. */
  predicate TargetedAt(x: Input, t: Tables, i: nat) {
    i < |x.secs| && AllTargeted(x.machine, t.rows, t.index, x.secs[i].relocs)
  }

  ghost predicate TargetsGiven(x: Input, t: Tables) { forall i: nat | i < |x.secs| :: TargetedAt(x, t, i) }

  function RelocsAt(x: Input, t: Tables, i: nat): seq<RelocView>
    requires TargetedAt(x, t, i)
  {
    RelocViewsOf(x.machine, t.rows, t.index, x.secs[i].relocs)
  }

  /** The relocations a reader must find against section target. */
  ghost function RelocsFor(x: Input, t: Tables, target: nat): seq<RelocView>
    requires TargetsGiven(x, t)
  {
    if 1 <= target <= |x.secs| then RelocsAt(x, t, target - 1) else []
  }

  lemma RelaOfRange(x: Input, t: Tables, target: nat)
    requires |t.p.content| == |x.secs| && |t.p.rela| == |Relocated(x.secs, |x.secs|)|
    ensures RelaOf(x, t, target).Some? ==> RelaPos(t.p) <= RelaOf(x, t, target).value < GroupPos(t.p)
  {
    if RelaOf(x, t, target).Some? { RelocatedIndex(x.secs, |x.secs|, target - 1); }
  }

  lemma RelaOfAt(x: Input, t: Tables, target: nat, j: nat)
    requires |t.p.content| == |x.secs| && j < |Relocated(x.secs, |x.secs|)|
    ensures Relocated(x.secs, |x.secs|)[j] + 1 == target <==> RelaOf(x, t, target) == Some(RelaPos(t.p) + j)
  {
    RelocatedOnly(x.secs, |x.secs|, j);
    if RelaOf(x, t, target).Some? { RelocatedIndex(x.secs, |x.secs|, target - 1); }
  }

  /** No descriptor outside the relocation sections has their type. */
  ghost predicate OthersNotRela(p: Parts) {
    && (forall i | 0 <= i < |p.content| :: p.content[i].shType != SHT_RELA)
    && (forall i | 0 <= i < |p.group| :: p.group[i].shType != SHT_RELA)
    && (forall i | 0 <= i < |p.note| :: p.note[i].shType != SHT_RELA)
    && p.symtab.shType != SHT_RELA && p.strtab.shType != SHT_RELA
  }

  lemma RelaTyped(p: Parts, ds: seq<SecDesc>, k: nat)
    requires Positioned(p, ds) && OthersNotRela(p) && k < |ds|
    ensures ds[k].shType == SHT_RELA ==> RelaPos(p) <= k < GroupPos(p) && ds[k] == p.rela[k - RelaPos(p)]
    ensures RelaPos(p) <= k < GroupPos(p) ==> ds[k] == p.rela[k - RelaPos(p)]
  {
    PartOf(p, ds, k);
  }

  /** A SHT_RELA header for target is found exactly at the predicted index. */
  lemma RelaHeader(x: Input, t: Tables, target: nat, k: nat, d: SecDesc)
    requires |t.p.content| == |x.secs| && |t.p.rela| == |Relocated(x.secs, |x.secs|)|
    requires RelaPos(t.p) <= k < GroupPos(t.p) ==>
               d.shType == SHT_RELA && d.info == 1 + Relocated(x.secs, |x.secs|)[k - RelaPos(t.p)]
    requires d.shType == SHT_RELA ==> RelaPos(t.p) <= k < GroupPos(t.p)
    ensures (d.shType == SHT_RELA && d.info == target) <==> RelaOf(x, t, target) == Some(k)
  {
    RelaOfRange(x, t, target);
    if RelaPos(t.p) <= k < GroupPos(t.p) { RelaOfAt(x, t, target, k - RelaPos(t.p)); }
  }

  lemma RelaSectionReads(x: Input, t: Tables, b: seq<byte>, h: Header, i: nat, k: nat, d: SecDesc, off: nat)
    requires i < |x.secs| && SectionFits(x.class_, x.machine, x.secs[i]) && h.class_ == x.class_
    requires TargetedAt(x, t, i) && |t.rows| < SymLimit(x.class_)
    requires SymtabSeen(b, h, SymtabPos(t.p), SymtabPos(t.p) + 1, t.rows, t.strtab)
    requires RelaFor(x, t, i, d) && Seen(b, h, k, d, off)
    ensures ReadRelocs(b, h, k) == Some(RelocsAt(x, t, i))
  {
    var rs := x.secs[i].relocs;
    RelaWidth(x.class_);
    TableIsSeen(b, h, k, d, off, RelaShape(x.class_), RelaRecords(x.class_, x.machine, t.index, rs));
    RelocsRead(b, h, x.machine, SymtabPos(t.p), SymtabPos(t.p) + 1, t.rows, t.strtab, t.index, k, rs);
  }

  lemma {:induction false} FindTypeAt(views: seq<SectionView>, ty: nat, m: nat)
    requires m < |views| && views[m].shType == ty && forall k | 0 <= k < m :: views[k].shType != ty
    ensures FindType(views, ty) == Some(m)
  {
    if m > 0 { FindTypeAt(views[1..], ty, m - 1); }
  }

  /** The symbol table as section SymtabPos holds it. */
  ghost predicate TablesReadable(t: Tables, b: seq<byte>, h: Header) {
    SymtabSeen(b, h, SymtabPos(t.p), SymtabPos(t.p) + 1, t.rows, t.strtab)
  }

  lemma TablesRead(x: Input, t: Tables, b: seq<byte>, h: Header)
    requires SymtabGiven(x, t) && h.class_ == x.class_
    ensures SeenSomewhere(b, h, SymtabPos(t.p), t.p.symtab) && SeenSomewhere(b, h, SymtabPos(t.p) + 1, t.p.strtab) ==>
              TablesReadable(t, b, h)
  {
    var m := SymtabPos(t.p);
    SymtabFrom(b, h, m, t.p.symtab, m + 1, t.p.strtab, t.rows, t.strtab);
  }

  /** Everything else the final reading steps need, kept abstract. */
  ghost predicate ReadingContext(x: Input, t: Tables, ds: seq<SecDesc>, b: seq<byte>, h: Header) {
    && h.shnum == |ds| && h.class_ == x.class_ && |t.p.content| == |x.secs| && |t.rows| < SymLimit(x.class_)
    && RelaGiven(x, t) && OthersNotRela(t.p) && Positioned(t.p, ds) && AllFit(x) && AllSeen(b, h, ds)
  }

  ghost predicate AllFit(x: Input) {
    Below(|x.secs|, (i: nat) => i < |x.secs| && SectionFits(x.class_, x.machine, x.secs[i]))
  }

  lemma FitAll(x: Input)
    requires forall i | 0 <= i < |x.secs| :: SectionFits(x.class_, x.machine, x.secs[i])
    ensures AllFit(x)
  {
    BelowAll(|x.secs|, (i: nat) => i < |x.secs| && SectionFits(x.class_, x.machine, x.secs[i]));
  }

  lemma FitAt(x: Input, i: nat)
    requires i < |x.secs| && AllFit(x)
    ensures SectionFits(x.class_, x.machine, x.secs[i])
  {
    BelowAt(|x.secs|, (i: nat) => i < |x.secs| && SectionFits(x.class_, x.machine, x.secs[i]), i);
  }

  ghost predicate AllSeen(b: seq<byte>, h: Header, ds: seq<SecDesc>) {
    Below(|ds|, (k: nat) => k < |ds| && SeenSomewhere(b, h, k, ds[k]))
  }

  lemma SeenAll(b: seq<byte>, h: Header, ds: seq<SecDesc>)
    requires forall k: nat | k < |ds| :: SeenSomewhere(b, h, k, ds[k])
    ensures AllSeen(b, h, ds)
  {
    BelowAll(|ds|, (k: nat) => k < |ds| && SeenSomewhere(b, h, k, ds[k]));
  }

  lemma SeenAt(b: seq<byte>, h: Header, ds: seq<SecDesc>, k: nat)
    requires k < |ds| && AllSeen(b, h, ds)
    ensures SeenSomewhere(b, h, k, ds[k])
  {
    BelowAt(|ds|, (k: nat) => k < |ds| && SeenSomewhere(b, h, k, ds[k]), k);
  }

  lemma TargetsOf(x: Input, t: Tables)
    requires RelaGiven(x, t) && Points(t.index, t.rows)
    ensures TargetsGiven(x, t)
  {
    forall i: nat | i < |x.secs| ensures TargetedAt(x, t, i) {
      forall j | 0 <= j < |x.secs[i].relocs| ensures Targeted(x.machine, t.rows, t.index, x.secs[i].relocs[j]) {
        assert Resolvable(x.machine, t.index, x.secs[i].relocs[j]);
      }
    }
  }

  lemma RelaAt(x: Input, t: Tables, ds: seq<SecDesc>, b: seq<byte>, h: Header, target: nat, k: nat)
    requires ReadingContext(x, t, ds, b, h) && k < |ds|
    ensures (ds[k].shType == SHT_RELA && ds[k].info == target) <==> RelaOf(x, t, target) == Some(k)
    ensures RelaOf(x, t, target) == Some(k) ==> 1 <= target <= |x.secs| && RelaFor(x, t, target - 1, ds[k])
  {
    RelaTyped(t.p, ds, k);
    RelaHeader(x, t, target, k, ds[k]);
    if RelaOf(x, t, target) == Some(k) { RelaOfRange(x, t, target); }
  }

  /** What reading at header k needs to know, without the rest of the context. */
  ghost predicate TargetSeen(x: Input, t: Tables, b: seq<byte>, h: Header, target: nat, k: nat, d: SecDesc) {
    && SeenSomewhere(b, h, k, d)
    && ((d.shType == SHT_RELA && d.info == target) <==> RelaOf(x, t, target) == Some(k))
    && (RelaOf(x, t, target) == Some(k) ==> 1 <= target <= |x.secs| && RelaFor(x, t, target - 1, d))
  }

  lemma TargetAt(x: Input, t: Tables, ds: seq<SecDesc>, b: seq<byte>, h: Header, target: nat, k: nat)
    requires ReadingContext(x, t, ds, b, h) && k < |ds|
    ensures TargetSeen(x, t, b, h, target, k, ds[k])
  {
    RelaAt(x, t, ds, b, h, target, k);
    SeenAt(b, h, ds, k);
  }

  /** Header k, the relocation section of section i.  Stated as an implication: its callers
      have the premises as they stand. */
  lemma RelocsInFound(x: Input, t: Tables, b: seq<byte>, h: Header, i: nat, k: nat, d: SecDesc)
    requires TargetedAt(x, t, i) && h.class_ == x.class_ && |t.rows| < SymLimit(x.class_)
    ensures SeenSomewhere(b, h, k, d) && RelaFor(x, t, i, d) && AllFit(x) && TablesReadable(t, b, h) ==>
              RelocsIn(b, h, 1 + i, k) == Some(RelocsAt(x, t, i))
  {
    if SeenSomewhere(b, h, k, d) && RelaFor(x, t, i, d) && AllFit(x) && TablesReadable(t, b, h) {
      var off: nat :| Seen(b, h, k, d, off);
      FitAt(x, i);
      RelaSectionReads(x, t, b, h, i, k, d, off);
    }
  }

  /** Any other header. */
  lemma RelocsInElsewhere(b: seq<byte>, h: Header, target: nat, k: nat, d: SecDesc)
    requires SeenSomewhere(b, h, k, d) && !(d.shType == SHT_RELA && d.info == target)
    ensures RelocsIn(b, h, target, k) == Some([])
  {
    var off: nat :| Seen(b, h, k, d, off);
  }

  lemma RelocsInAt(x: Input, t: Tables, ds: seq<SecDesc>, b: seq<byte>, h: Header, i: nat, k: nat)
    requires k < |ds| && TargetedAt(x, t, i)
    ensures ReadingContext(x, t, ds, b, h) && TablesReadable(t, b, h) && RelaOf(x, t, 1 + i) == Some(k) ==>
              RelocsIn(b, h, 1 + i, k) == Some(RelocsAt(x, t, i))
  {
    if ReadingContext(x, t, ds, b, h) && TablesReadable(t, b, h) && RelaOf(x, t, 1 + i) == Some(k) {
      TargetAt(x, t, ds, b, h, 1 + i, k);
      RelocsInFound(x, t, b, h, i, k, ds[k]);
    }
  }

  lemma RelocsNotIn(x: Input, t: Tables, ds: seq<SecDesc>, b: seq<byte>, h: Header, target: nat, k: nat)
    requires k < |ds|
    ensures ReadingContext(x, t, ds, b, h) && RelaOf(x, t, target) != Some(k) ==> RelocsIn(b, h, target, k) == Some([])
  {
    if ReadingContext(x, t, ds, b, h) && RelaOf(x, t, target) != Some(k) {
      TargetAt(x, t, ds, b, h, target, k);
      RelocsInElsewhere(b, h, target, k, ds[k]);
    }
  }

  lemma RelaOfIndex(x: Input, t: Tables, target: nat, k: nat) returns (i: nat)
    requires RelaOf(x, t, target) == Some(k)
    ensures i < |x.secs| && target == 1 + i
  {
    i := target - 1;
  }

  lemma RelocsInThere(x: Input, t: Tables, ds: seq<SecDesc>, b: seq<byte>, h: Header, target: nat, k: nat)
    requires k < |ds| && TargetsGiven(x, t)
    ensures ReadingContext(x, t, ds, b, h) && TablesReadable(t, b, h) && RelaOf(x, t, target) == Some(k) ==>
              RelocsIn(b, h, target, k) == Some(RelocsFor(x, t, target))
  {
    if RelaOf(x, t, target) == Some(k) {
      var i := RelaOfIndex(x, t, target, k);
      RelocsInAt(x, t, ds, b, h, i, k);
    }
  }

  lemma RelocsInEither(x: Input, t: Tables, ds: seq<SecDesc>, b: seq<byte>, h: Header, target: nat, k: nat)
    requires k < |ds| && TargetsGiven(x, t)
    ensures ReadingContext(x, t, ds, b, h) && TablesReadable(t, b, h) ==>
              RelocsIn(b, h, target, k) == Some(if RelaOf(x, t, target) == Some(k) then RelocsFor(x, t, target) else [])
  {
    RelocsInThere(x, t, ds, b, h, target, k);
    RelocsNotIn(x, t, ds, b, h, target, k);
  }

  /** Scanning any header for any target gives that target's relocations at the predicted
      header and nothing elsewhere. */
  ghost predicate RelocsReadable(x: Input, t: Tables, b: seq<byte>, h: Header) {
    && |t.p.content| == |x.secs| && |t.p.rela| == |Relocated(x.secs, |x.secs|)| && GroupPos(t.p) <= h.shnum
    && TargetsGiven(x, t)
    && forall target: nat, k: nat | k < h.shnum ::
         RelocsIn(b, h, target, k) == Some(if RelaOf(x, t, target) == Some(k) then RelocsFor(x, t, target) else [])
  }

  lemma ContextReadable(x: Input, t: Tables, ds: seq<SecDesc>, b: seq<byte>, h: Header)
    requires TargetsGiven(x, t)
    ensures ReadingContext(x, t, ds, b, h) && TablesReadable(t, b, h) ==> RelocsReadable(x, t, b, h)
  {
    if ReadingContext(x, t, ds, b, h) && TablesReadable(t, b, h) {
      forall target: nat, k: nat | k < h.shnum
        ensures RelocsIn(b, h, target, k)
                == Some(if RelaOf(x, t, target) == Some(k) then RelocsFor(x, t, target) else [])
      {
        RelocsInEither(x, t, ds, b, h, target, k);
      }
    }
  }

  /** Every section's relocations, wherever its relocation section ended up. */
  lemma RelocsAgainstSection(x: Input, t: Tables, b: seq<byte>, h: Header, target: nat)
    requires RelocsReadable(x, t, b, h)
    ensures RelocsAgainst(b, h, target) == Some(RelocsFor(x, t, target))
  {
    GatherOne(h.shnum, (k: nat) => RelocsIn(b, h, target, k), RelaOf(x, t, target), RelocsFor(x, t, target));
    RelaOfRange(x, t, target);
  }

  ghost function AllRelocsFor(x: Input, t: Tables, n: nat): (rs: seq<seq<RelocView>>)
    requires TargetsGiven(x, t)
    ensures |rs| == n && forall k | 0 <= k < n :: rs[k] == RelocsFor(x, t, k)
  {
    seq(n, k requires 0 <= k < n => RelocsFor(x, t, k))
  }

  lemma AllRelocsRead(x: Input, t: Tables, b: seq<byte>, h: Header)
    requires TargetsGiven(x, t)
    ensures RelocsReadable(x, t, b, h) ==>
              Collect(h.shnum, (i: nat) => RelocsAgainst(b, h, i)) == Some(AllRelocsFor(x, t, h.shnum))
  {
    if RelocsReadable(x, t, b, h) {
      forall i: nat | i < h.shnum ensures RelocsAgainst(b, h, i) == Some(RelocsFor(x, t, i)) {
        RelocsAgainstSection(x, t, b, h, i);
      }
      CollectAll(h.shnum, (i: nat) => RelocsAgainst(b, h, i), AllRelocsFor(x, t, h.shnum));
    }
  }

  /** What a reader must recover from a file with tables t and descriptors ds. */
  ghost function Expected(x: Input, t: Tables, ds: seq<SecDesc>): ObjectView
    requires TargetsGiven(x, t)
  {
    ObjectView(x.machine, x.osabi, ViewsOf(ds), SymbolViewsOf(t.rows), AllRelocsFor(x, t, |ds|))
  }

  lemma ObjectOf(b: seq<byte>, h: Header, views: seq<SectionView>, m: nat, syms: seq<SymbolView>,
                 relocs: seq<seq<RelocView>>)
    requires ReadHeader(b) == Some(h) && ReadSections(b, h) == Some(views) && FindType(views, SHT_SYMTAB) == Some(m)
    requires ReadSymbols(b, h, m) == Some(syms)
    requires Collect(h.shnum, (i: nat) => RelocsAgainst(b, h, i)) == Some(relocs)
    ensures ReadObject(b) == Some(ObjectView(h.machine, h.osabi, views, syms, relocs))
  {
  }
}
