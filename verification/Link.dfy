/** Reference link steps for AMD64 and the meaning of relocations across formats: ELF applies
    explicit addends (x86-64 psABI, section 4.4.1), COFF adds to the field it finds (Microsoft
    PE/COFF specification, section 5.2.1).  Both act on what their readers recover. */
module Link {
  import opened Arith
  import opened Bytes
  import opened Names
  import opened Objects
  import opened Patch
  import ElfFormat
  import ElfReader
  import CoffFormat
  import CoffReader
  import CoffSpec

  const R_X86_64_64 := 1
  const R_X86_64_PC32 := 2
  const R_X86_64_PLT32 := 4
  const R_X86_64_32 := 10

  // -------------------------------------------------------------- where symbols are

  /** Where a symbol-table entry puts its symbol: behind a section of the same file, at a
      fixed address, or in some other file. */
  datatype Place = Inside(section: nat, value: nat) | Fixed(value: nat) | Elsewhere(name: Name)

  /** What a linker decides: the load address of each section, numbered from 1 as in both
      formats, and the address of each symbol that other files define. */
  datatype Env = Env(base: nat -> int, ext: Name -> int)

  function Address(p: Place, env: Env): int {
    match p
    case Inside(section, value) => env.base(section) + value
    case Fixed(value) => value
    case Elsewhere(name) => env.ext(name)
  }

  const SHN_UNDEF := 0
  const SHN_ABS := 0xFFF1

  function ElfPlace(s: ElfReader.SymbolView): Place {
    if s.shndx == SHN_UNDEF then Elsewhere(s.name)
    else if s.shndx == SHN_ABS then Fixed(s.value)
    else Inside(s.shndx, s.value)
  }

  function CoffPlace(s: CoffReader.SymbolView): Place {
    if s.section == 0 then Elsewhere(s.name)
    else if s.section > 0 then Inside(s.section, s.value)
    else Fixed(s.value)
  }

  // -------------------------------------------------------------- the link steps

  /** What one ELF relocation of a section at base writes for a symbol at s: S + A, or
      S + A - P. */
  function ElfWrite(r: ElfReader.RelocView, s: int, base: int): Option<Write> {
    var p := base + r.offset;
    if r.rtype == R_X86_64_64 then Some(Write(r.offset, LE(8, s + r.addend)))
    else if r.rtype == R_X86_64_32 then Some(Write(r.offset, LE(4, s + r.addend)))
    else if r.rtype == R_X86_64_PC32 || r.rtype == R_X86_64_PLT32 then Some(Write(r.offset, LE(4, s + r.addend - p)))
    else None
  }

  /** The bytes of a section at base after its ELF relocations are applied in order, the
      symbol of relocation k being at ss[k]. */
  function LinkElf(code: seq<byte>, rs: seq<ElfReader.RelocView>, ss: seq<int>, base: int): (r: Option<seq<byte>>)
    requires |ss| == |rs|
    ensures r.Some? ==> |r.value| == |code|
  {
    if rs == [] then Some(code) else
    var before :- LinkElf(code, rs[..|rs| - 1], ss[..|ss| - 1], base);
    var w :- ElfWrite(rs[|rs| - 1], ss[|ss| - 1], base);
    if InRange(w, |code|) then Some(Splice(before, w)) else None
  }

  /** What one COFF relocation writes, given the bytes it finds: S + field, or
      S + field - (P + 4). */
  function CoffWrite(found: seq<byte>, r: CoffReader.RelocView, s: int, base: int): Option<Write> {
    var p := base + r.offset;
    if r.rtype == CoffFormat.REL_AMD64_ADDR64 then
      var field :- Sub(found, r.offset, 8);
      Some(Write(r.offset, LE(8, s + FromLE(field))))
    else if r.rtype == CoffFormat.REL_AMD64_ADDR32 then
      var field :- Sub(found, r.offset, 4);
      Some(Write(r.offset, LE(4, s + FromLE(field))))
    else if r.rtype == CoffFormat.REL_AMD64_REL32 then
      var field :- Sub(found, r.offset, 4);
      Some(Write(r.offset, LE(4, s + FromLE(field) - (p + 4))))
    else None
  }

  function LinkCoff(code: seq<byte>, rs: seq<CoffReader.RelocView>, ss: seq<int>, base: int): (r: Option<seq<byte>>)
    requires |ss| == |rs|
    ensures r.Some? ==> |r.value| == |code|
  {
    if rs == [] then Some(code) else
    var before :- LinkCoff(code, rs[..|rs| - 1], ss[..|ss| - 1], base);
    var w :- CoffWrite(before, rs[|rs| - 1], ss[|ss| - 1], base);
    if InRange(w, |code|) then Some(Splice(before, w)) else None
  }

  /** The addresses of the symbol entries the relocations refer to. */
  function ElfValues(rs: seq<ElfReader.RelocView>, env: Env): (ss: seq<int>)
    ensures |ss| == |rs| && forall k | 0 <= k < |rs| :: ss[k] == Address(ElfPlace(rs[k].sym), env)
  {
    seq(|rs|, k requires 0 <= k < |rs| => Address(ElfPlace(rs[k].sym), env))
  }

  function CoffValues(rs: seq<CoffReader.RelocView>, env: Env): (ss: seq<int>)
    ensures |ss| == |rs| && forall k | 0 <= k < |rs| :: ss[k] == Address(CoffPlace(rs[k].sym), env)
  {
    seq(|rs|, k requires 0 <= k < |rs| => Address(CoffPlace(rs[k].sym), env))
  }

  /** Section number own of an ELF file, and of a COFF file, linked in env. */
  function ElfLinked(code: seq<byte>, rs: seq<ElfReader.RelocView>, own: nat, env: Env): Option<seq<byte>> {
    LinkElf(code, rs, ElfValues(rs, env), env.base(own))
  }

  function CoffLinked(code: seq<byte>, rs: seq<CoffReader.RelocView>, own: nat, env: Env): Option<seq<byte>> {
    LinkCoff(code, rs, CoffValues(rs, env), env.base(own))
  }

  // --------------------------------------------------------- one relocation, both ways

  /** The kinds whose COFF and ELF definitions can be compared. */
  predicate Linkable(k: RelocKind) { k in {Abs64, Abs32, PCRel32, PLT32} }

  function SiteWidth(r: Reloc): nat { if r.kind == Abs64 then 8 else 4 }

  predicate Relative(r: Reloc) { r.kind == PCRel32 || r.kind == PLT32 }

  /** The addend as COFF bakes it: relative to the end of the field for REL32. */
  function Implicit(r: Reloc): int { if Relative(r) then r.addend + 4 else r.addend }

  /** What linking adds to the implicit addend. */
  function Shift(r: Reloc, s: int, base: int): int { if Relative(r) then s - (base + r.offset + 4) else s }

  function BakedWrite(r: Reloc): (w: Write)
    requires Linkable(r.kind)
    ensures w == Write(r.offset, LE(SiteWidth(r), Implicit(r)))
  {
    CoffSpec.AddendWrite(CoffFormat.MACHINE_AMD64, r)
  }

  function FinalWrite(r: Reloc, s: int, base: int): Write {
    Write(r.offset, LE(SiteWidth(r), Implicit(r) + Shift(r, s, base)))
  }

  /** v is what a reader sees of r, apart from its symbol. */
  predicate ElfOf(v: ElfReader.RelocView, r: Reloc) {
    && Linkable(r.kind) && v.offset == r.offset && v.addend == r.addend
    && ElfFormat.RelocType(ElfFormat.EM_X86_64, r.kind) == Some(v.rtype)
  }

  predicate CoffOf(v: CoffReader.RelocView, r: Reloc) {
    && Linkable(r.kind) && v.offset == r.offset
    && CoffFormat.RelocType(CoffFormat.MACHINE_AMD64, r.kind) == Some(v.rtype)
  }

  lemma ElfWrites(v: ElfReader.RelocView, r: Reloc, s: int, base: int)
    requires ElfOf(v, r)
    ensures ElfWrite(v, s, base) == Some(FinalWrite(r, s, base))
  {
  }

  lemma CoffWrites(found: seq<byte>, v: CoffReader.RelocView, r: Reloc, s: int, base: int)
    requires CoffOf(v, r) && r.offset + SiteWidth(r) <= |found|
    ensures CoffWrite(found, v, s, base)
            == Some(Write(r.offset, LE(SiteWidth(r),
                                       Shift(r, s, base) + FromLE(Sub(found, r.offset, SiteWidth(r)).value))))
  {
  }

  /** Adding to a field that was itself written modulo its width gives the width's sum. */
  lemma FieldAdds(n: nat, a: int, d: int)
    ensures LE(n, d + FromLE(LE(n, a))) == LE(n, d + a)
  {
    LEMod(n, a);
    var q, r := Remainder(a, Pow256(n));
    LEShift(n, d + r, q);
  }

  /** The +4 baked for REL32 is exactly what its definition takes away again: adding to the
      baked field writes what ELF's explicit addend writes. */
  lemma OneAgrees(found: seq<byte>, e: ElfReader.RelocView, c: CoffReader.RelocView, r: Reloc, s: int, base: int)
    requires ElfOf(e, r) && CoffOf(c, r)
    requires Sub(found, r.offset, SiteWidth(r)) == Some(BakedWrite(r).data)
    ensures CoffWrite(found, c, s, base) == ElfWrite(e, s, base)
  {
    CoffWrites(found, c, r, s, base);
    ElfWrites(e, r, s, base);
    FieldAdds(SiteWidth(r), Implicit(r), Shift(r, s, base));
  }

  // ----------------------------------------------------------------- patch sites

  predicate AllLinkable(rs: seq<Reloc>) { forall i | 0 <= i < |rs| :: Linkable(rs[i].kind) }

  predicate ElfOfAll(vs: seq<ElfReader.RelocView>, rs: seq<Reloc>) {
    |vs| == |rs| && forall i | 0 <= i < |rs| :: ElfOf(vs[i], rs[i])
  }

  predicate CoffOfAll(vs: seq<CoffReader.RelocView>, rs: seq<Reloc>) {
    |vs| == |rs| && forall i | 0 <= i < |rs| :: CoffOf(vs[i], rs[i])
  }

  function BakedWrites(rs: seq<Reloc>): (ws: seq<Write>)
    requires AllLinkable(rs)
    ensures |ws| == |rs| && forall i | 0 <= i < |rs| :: ws[i] == BakedWrite(rs[i])
  {
    seq(|rs|, i requires 0 <= i < |rs| => BakedWrite(rs[i]))
  }

  function FinalWrites(rs: seq<Reloc>, ss: seq<int>, base: int): (ws: seq<Write>)
    requires |ss| == |rs|
    ensures |ws| == |rs| && forall i | 0 <= i < |rs| :: ws[i] == FinalWrite(rs[i], ss[i], base)
  {
    seq(|rs|, i requires 0 <= i < |rs| => FinalWrite(rs[i], ss[i], base))
  }

  predicate Fits(r: Reloc, size: nat) { r.offset + SiteWidth(r) <= size }

  predicate AllFit(rs: seq<Reloc>, size: nat) { forall i | 0 <= i < |rs| :: Fits(rs[i], size) }

  predicate Together(a: Reloc, b: Reloc) { a.offset == b.offset && SiteWidth(a) == SiteWidth(b) }

  predicate Separate(a: Reloc, b: Reloc) { a.offset + SiteWidth(a) <= b.offset || b.offset + SiteWidth(b) <= a.offset }

  predicate Disjoint(rs: seq<Reloc>) { forall i, j | 0 <= i < j < |rs| :: Separate(rs[i], rs[j]) }

  /** No site overlaps that of relocation k in part. */
  predicate Whole(rs: seq<Reloc>, k: nat)
    requires k < |rs|
  {
    forall i | 0 <= i < |rs| :: Together(rs[i], rs[k]) || Separate(rs[i], rs[k])
  }

  /** What the first n relocations add to the site of relocation k. */
  function SiteSum(rs: seq<Reloc>, ss: seq<int>, base: int, k: nat, n: nat): int
    requires n <= |rs| == |ss| && k < |rs|
  {
    if n == 0 then 0 else
    SiteSum(rs, ss, base, k, n - 1) + if Together(rs[n - 1], rs[k]) then Shift(rs[n - 1], ss[n - 1], base) else 0
  }

  // ----------------------------------------------------------- what the two links do

  lemma {:induction false} ElfLinks(code: seq<byte>, vs: seq<ElfReader.RelocView>, rs: seq<Reloc>, ss: seq<int>,
                                    base: int)
    requires ElfOfAll(vs, rs) && |ss| == |rs| && AllFit(rs, |code|)
    ensures LinkElf(code, vs, ss, base) == Some(Apply(code, FinalWrites(rs, ss, base)))
  {
    if rs != [] {
      var n := |rs| - 1;
      ElfLinks(code, vs[..n], rs[..n], ss[..n], base);
      ElfWrites(vs[n], rs[n], ss[n], base);
      assert FinalWrites(rs, ss, base)[..n] == FinalWrites(rs[..n], ss[..n], base);
      assert Fits(rs[n], |code|);
    }
  }

  lemma LinkCoffStep(code: seq<byte>, vs: seq<CoffReader.RelocView>, ss: seq<int>, base: int, before: seq<byte>,
                     w: Write, n: nat)
    requires n < |vs| == |ss| && LinkCoff(code, vs[..n], ss[..n], base) == Some(before)
    requires CoffWrite(before, vs[n], ss[n], base) == Some(w) && InRange(w, |code|)
    ensures LinkCoff(code, vs[..n + 1], ss[..n + 1], base) == Some(Splice(before, w))
  {
    assert vs[..n + 1][..n] == vs[..n] && ss[..n + 1][..n] == ss[..n];
  }

  /** The field of relocation r holds v, up to its width. */
  predicate FieldIs(code: seq<byte>, r: Reloc, v: int) {
    Sub(code, r.offset, SiteWidth(r)) == Some(LE(SiteWidth(r), v))
  }

  lemma StepTogether(found: seq<byte>, c: CoffReader.RelocView, r: Reloc, s: int, base: int, k: Reloc, v: int)
    returns (w: Write)
    requires CoffOf(c, r) && Fits(r, |found|) && Together(r, k) && FieldIs(found, k, v)
    ensures CoffWrite(found, c, s, base) == Some(w) && InRange(w, |found|)
    ensures FieldIs(Splice(found, w), k, Shift(r, s, base) + v)
  {
    w := Write(r.offset, LE(SiteWidth(r), Shift(r, s, base) + v));
    CoffWrites(found, c, r, s, base);
    FieldAdds(SiteWidth(r), v, Shift(r, s, base));
    SplicedThere(found, w);
  }

  lemma StepSeparate(found: seq<byte>, c: CoffReader.RelocView, r: Reloc, s: int, base: int, k: Reloc, v: int)
    returns (w: Write)
    requires CoffOf(c, r) && Fits(r, |found|) && Separate(r, k) && FieldIs(found, k, v)
    ensures CoffWrite(found, c, s, base) == Some(w) && InRange(w, |found|)
    ensures FieldIs(Splice(found, w), k, v)
  {
    CoffWrites(found, c, r, s, base);
    w := CoffWrite(found, c, s, base).value;
    SplicedApart(found, w, k.offset, SiteWidth(k));
  }

  /** One COFF step, seen from a field it shares or does not touch. */
  lemma StepField(found: seq<byte>, c: CoffReader.RelocView, r: Reloc, s: int, base: int, k: Reloc, v: int, v': int)
    returns (w: Write)
    requires CoffOf(c, r) && Fits(r, |found|) && (Together(r, k) || Separate(r, k)) && FieldIs(found, k, v)
    requires v' == v + if Together(r, k) then Shift(r, s, base) else 0
    ensures CoffWrite(found, c, s, base) == Some(w) && InRange(w, |found|)
    ensures FieldIs(Splice(found, w), k, v')
  {
    if Together(r, k) {
      w := StepTogether(found, c, r, s, base, k, v);
    } else {
      w := StepSeparate(found, c, r, s, base, k, v);
    }
  }

  lemma CoffFieldStep(code: seq<byte>, vs: seq<CoffReader.RelocView>, rs: seq<Reloc>, ss: seq<int>, base: int, k: nat,
                      before: seq<byte>, v: int, v': int, n: nat) returns (after: seq<byte>)
    requires n < |rs| == |ss| && CoffOfAll(vs, rs) && AllFit(rs, |code|) && k < |rs| && Whole(rs, k)
    requires LinkCoff(code, vs[..n], ss[..n], base) == Some(before) && FieldIs(before, rs[k], v)
    requires v' == v + if Together(rs[n], rs[k]) then Shift(rs[n], ss[n], base) else 0
    ensures LinkCoff(code, vs[..n + 1], ss[..n + 1], base) == Some(after) && FieldIs(after, rs[k], v')
  {
    assert CoffOf(vs[n], rs[n]) && Fits(rs[n], |code|);
    var w := StepField(before, vs[n], rs[n], ss[n], base, rs[k], v, v');
    LinkCoffStep(code, vs, ss, base, before, w, n);
    after := Splice(before, w);
  }

  /** COFF linking adds to a site, step by step, what its relocations shift it by. */
  lemma {:induction false} CoffField(code: seq<byte>, vs: seq<CoffReader.RelocView>, rs: seq<Reloc>, ss: seq<int>,
                                     base: int, k: nat, v: int, n: nat, v': int) returns (after: seq<byte>)
    requires n <= |rs| == |ss| && CoffOfAll(vs, rs) && AllFit(rs, |code|) && k < |rs| && Whole(rs, k)
    requires FieldIs(code, rs[k], v) && v' == v + SiteSum(rs, ss, base, k, n)
    ensures LinkCoff(code, vs[..n], ss[..n], base) == Some(after) && FieldIs(after, rs[k], v')
    decreases n
  {
    if n == 0 {
      after := code;
    } else {
      var u := v + SiteSum(rs, ss, base, k, n - 1);
      var before := CoffField(code, vs, rs, ss, base, k, v, n - 1, u);
      after := CoffFieldStep(code, vs, rs, ss, base, k, before, u, v', n - 1);
    }
  }

  predicate Touches(r: Reloc, x: nat) { r.offset <= x < r.offset + SiteWidth(r) }

  /** Bytes outside all sites stay as they are. */
  lemma {:induction false} CoffElsewhere(code: seq<byte>, vs: seq<CoffReader.RelocView>, rs: seq<Reloc>, ss: seq<int>,
                                         base: int, x: nat, n: nat)
    requires n <= |rs| == |ss| && CoffOfAll(vs, rs) && AllFit(rs, |code|) && x < |code|
    requires forall i | 0 <= i < |rs| :: !Touches(rs[i], x)
    ensures LinkCoff(code, vs[..n], ss[..n], base).Some?
    ensures LinkCoff(code, vs[..n], ss[..n], base).value[x] == code[x]
  {
    if n > 0 {
      CoffElsewhere(code, vs, rs, ss, base, x, n - 1);
      var before := LinkCoff(code, vs[..n - 1], ss[..n - 1], base).value;
      assert CoffOf(vs[n - 1], rs[n - 1]) && Fits(rs[n - 1], |code|) && !Touches(rs[n - 1], x);
      CoffWrites(before, vs[n - 1], rs[n - 1], ss[n - 1], base);
      LinkCoffStep(code, vs, ss, base, before, CoffWrite(before, vs[n - 1], ss[n - 1], base).value, n - 1);
    }
  }

  /** The last of the relocations that share its site. */
  predicate LastThere(rs: seq<Reloc>, k: nat)
    requires k < |rs|
  {
    forall i | k < i < |rs| :: Separate(rs[i], rs[k])
  }

  /** One write per relocation, at its site. */
  predicate WritesFor(ws: seq<Write>, rs: seq<Reloc>) {
    |ws| == |rs| && forall i | 0 <= i < |rs| :: ws[i].off == rs[i].offset && |ws[i].data| == SiteWidth(rs[i])
  }

  /** The last relocation at a site leaves there what it wrote. */
  lemma FieldWritten(code: seq<byte>, ws: seq<Write>, rs: seq<Reloc>, k: nat)
    requires WritesFor(ws, rs) && k < |rs| && AllFit(rs, |code|) && LastThere(rs, k)
    ensures Sub(Apply(code, ws), rs[k].offset, SiteWidth(rs[k])) == Some(ws[k].data)
  {
    var after := ws[k + 1..];
    assert ws == ws[..k] + [ws[k]] + after;
    assert Fits(rs[k], |code|);
    forall i | 0 <= i < |after| ensures Apart(after[i], ws[k]) { assert Separate(rs[k + 1 + i], rs[k]); }
    FieldKept(code, ws[..k], ws[k], after);
  }

  lemma ByteUnwritten(code: seq<byte>, ws: seq<Write>, rs: seq<Reloc>, x: nat)
    requires WritesFor(ws, rs) && x < |code| && forall i | 0 <= i < |rs| :: !Touches(rs[i], x)
    ensures Apply(code, ws)[x] == code[x]
  {
    LastWriterWins(code, ws, x);
    LastCoveringIsLast(ws, |code|, x);
    if LastCovering(ws, |code|, x).Some? { assert Touches(rs[LastCovering(ws, |code|, x).value], x); }
  }

  /** The ELF link of a section and the COFF link of its baked bytes. */
  predicate Comparable(code: seq<byte>, rs: seq<Reloc>, es: seq<ElfReader.RelocView>, cs: seq<CoffReader.RelocView>) {
    AllLinkable(rs) && AllFit(rs, |code|) && ElfOfAll(es, rs) && CoffOfAll(cs, rs)
  }

  lemma FinalIs(r: Reloc, s: int, base: int, v: int)
    requires v == Implicit(r) + Shift(r, s, base)
    ensures FinalWrite(r, s, base).data == LE(SiteWidth(r), v)
  {
  }

  lemma FinalField(code: seq<byte>, rs: seq<Reloc>, ss: seq<int>, base: int, k: nat, v: int)
    requires AllFit(rs, |code|) && |ss| == |rs| && k < |rs| && LastThere(rs, k)
    requires v == Implicit(rs[k]) + Shift(rs[k], ss[k], base)
    ensures FieldIs(Apply(code, FinalWrites(rs, ss, base)), rs[k], v)
  {
    FieldWritten(code, FinalWrites(rs, ss, base), rs, k);
    FinalIs(rs[k], ss[k], base, v);
  }

  lemma ElfField(code: seq<byte>, rs: seq<Reloc>, es: seq<ElfReader.RelocView>, ss: seq<int>, base: int, k: nat,
                 v: int) returns (e: seq<byte>)
    requires AllFit(rs, |code|) && ElfOfAll(es, rs) && |ss| == |rs| && k < |rs| && LastThere(rs, k)
    requires v == Implicit(rs[k]) + Shift(rs[k], ss[k], base)
    ensures LinkElf(code, es, ss, base) == Some(e) && FieldIs(e, rs[k], v)
  {
    e := Apply(code, FinalWrites(rs, ss, base));
    ElfLinks(code, es, rs, ss, base);
    FinalField(code, rs, ss, base, k, v);
  }

  lemma BakedField(code: seq<byte>, rs: seq<Reloc>, k: nat)
    requires AllLinkable(rs) && AllFit(rs, |code|) && k < |rs| && LastThere(rs, k)
    ensures FieldIs(Apply(code, BakedWrites(rs)), rs[k], Implicit(rs[k]))
  {
    FieldWritten(code, BakedWrites(rs), rs, k);
    assert BakedWrites(rs)[k] == BakedWrite(rs[k]);
  }

  lemma CoffFieldAll(baked: seq<byte>, rs: seq<Reloc>, cs: seq<CoffReader.RelocView>, ss: seq<int>, base: int, k: nat,
                     v: int, v': int) returns (c: seq<byte>)
    requires AllFit(rs, |baked|) && CoffOfAll(cs, rs) && |ss| == |rs| && k < |rs| && Whole(rs, k)
    requires v' == v + SiteSum(rs, ss, base, k, |rs|)
    ensures FieldIs(baked, rs[k], v) ==> LinkCoff(baked, cs, ss, base) == Some(c) && FieldIs(c, rs[k], v')
  {
    if FieldIs(baked, rs[k], v) {
      c := CoffField(baked, cs, rs, ss, base, k, v, |rs|, v');
      assert cs[..|rs|] == cs && ss[..|rs|] == ss;
    } else {
      c := baked;
    }
  }

  /** What the two links leave at the last relocation of a site that no other overlaps in part. */
  lemma SiteFields(code: seq<byte>, rs: seq<Reloc>, es: seq<ElfReader.RelocView>, cs: seq<CoffReader.RelocView>,
                   se: seq<int>, sc: seq<int>, base: int, k: nat, v: int, v': int)
    returns (e: seq<byte>, c: seq<byte>)
    requires Comparable(code, rs, es, cs) && |se| == |sc| == |rs| && k < |rs| && Whole(rs, k) && LastThere(rs, k)
    requires v == Implicit(rs[k]) + Shift(rs[k], se[k], base)
    requires v' == Implicit(rs[k]) + SiteSum(rs, sc, base, k, |rs|)
    ensures LinkElf(code, es, se, base) == Some(e) && LinkCoff(Apply(code, BakedWrites(rs)), cs, sc, base) == Some(c)
    ensures FieldIs(e, rs[k], v) && FieldIs(c, rs[k], v')
  {
    e := ElfField(code, rs, es, se, base, k, v);
    BakedField(code, rs, k);
    c := CoffFieldAll(Apply(code, BakedWrites(rs)), rs, cs, sc, base, k, Implicit(rs[k]), v');
  }

  /** Two values are the same in an n-byte field exactly if they differ by a multiple of its size. */
  lemma SameFieldIff(n: nat, a: int, b: int)
    ensures LE(n, a) == LE(n, b) <==> (a - b) % Pow256(n) == 0
  {
    var p := Pow256(n);
    LEMod(n, a);
    LEMod(n, b);
    var q, r := Remainder(a, p);
    var q', r' := Remainder(b, p);
    if r == r' {
      assert a - b == p * (q - q') by { assert p * (q - q') == p * q - p * q'; }
      DivModUnique(a - b, p, q - q', 0);
      LEReduced(n, a);
      LEReduced(n, b);
    }
    if (a - b) % p == 0 {
      var t, z := Remainder(a - b, p);
      assert a == p * (q' + t) + r' by { assert p * (q' + t) == p * q' + p * t; }
      DivModUnique(a, p, q' + t, r');
    }
  }

  // -------------------------------------------------------------------- one site

  predicate SameField(e: seq<byte>, c: seq<byte>, r: Reloc) {
    Sub(c, r.offset, SiteWidth(r)) == Sub(e, r.offset, SiteWidth(r))
  }

  lemma FieldsSameIff(e: seq<byte>, c: seq<byte>, r: Reloc, v: int, v': int, d: int)
    requires d == v' - v
    ensures FieldIs(e, r, v) && FieldIs(c, r, v') ==> (SameField(e, c, r) <==> d % Pow256(SiteWidth(r)) == 0)
  {
    SameFieldIff(SiteWidth(r), v', v);
  }

  /** The two links agree on a site exactly if all that COFF's relocations add to it and what
      the last of them adds alone are the same up to the field's width. */
  lemma SiteAgreesIff(code: seq<byte>, rs: seq<Reloc>, es: seq<ElfReader.RelocView>, cs: seq<CoffReader.RelocView>,
                      ss: seq<int>, base: int, k: nat, d: int) returns (e: seq<byte>, c: seq<byte>)
    requires Comparable(code, rs, es, cs) && |ss| == |rs| && k < |rs| && Whole(rs, k) && LastThere(rs, k)
    requires d == SiteSum(rs, ss, base, k, |rs|) - Shift(rs[k], ss[k], base)
    ensures LinkElf(code, es, ss, base) == Some(e) && LinkCoff(Apply(code, BakedWrites(rs)), cs, ss, base) == Some(c)
    ensures SameField(e, c, rs[k]) <==> d % Pow256(SiteWidth(rs[k])) == 0
  {
    var v, v' := Implicit(rs[k]) + Shift(rs[k], ss[k], base), Implicit(rs[k]) + SiteSum(rs, ss, base, k, |rs|);
    e, c := SiteFields(code, rs, es, cs, ss, ss, base, k, v, v');
    FieldsSameIff(e, c, rs[k], v, v', d);
  }

  /** Relocation k shares no byte with any other. */
  predicate Alone(rs: seq<Reloc>, k: nat)
    requires k < |rs|
  {
    forall i | 0 <= i < |rs| && i != k :: Separate(rs[i], rs[k])
  }

  lemma {:induction false} SumAlone(rs: seq<Reloc>, ss: seq<int>, base: int, k: nat, n: nat)
    requires n <= |rs| == |ss| && k < |rs| && Alone(rs, k)
    ensures SiteSum(rs, ss, base, k, n) == if k < n then Shift(rs[k], ss[k], base) else 0
  {
    if n > 0 {
      SumAlone(rs, ss, base, k, n - 1);
      if n - 1 != k { assert Separate(rs[n - 1], rs[k]); }
    }
  }

  lemma AloneSite(rs: seq<Reloc>, k: nat)
    requires k < |rs| && Alone(rs, k)
    ensures Whole(rs, k) && LastThere(rs, k)
  {
    forall i | 0 <= i < |rs| ensures Together(rs[i], rs[k]) || Separate(rs[i], rs[k]) {
      assert i != k ==> Separate(rs[i], rs[k]);
    }
  }

  /** A site that overlaps no other ends with the same bytes in both links, whatever happens
      elsewhere. */
  lemma AloneAgrees(code: seq<byte>, rs: seq<Reloc>, es: seq<ElfReader.RelocView>, cs: seq<CoffReader.RelocView>,
                    ss: seq<int>, base: int, k: nat) returns (e: seq<byte>, c: seq<byte>)
    requires Comparable(code, rs, es, cs) && |ss| == |rs| && k < |rs| && Alone(rs, k)
    ensures LinkElf(code, es, ss, base) == Some(e) && LinkCoff(Apply(code, BakedWrites(rs)), cs, ss, base) == Some(c)
    ensures SameField(e, c, rs[k])
  {
    AloneSite(rs, k);
    SumAlone(rs, ss, base, k, |rs|);
    var v := Implicit(rs[k]) + Shift(rs[k], ss[k], base);
    e, c := SiteFields(code, rs, es, cs, ss, ss, base, k, v, v);
  }

  // -------------------------------------------------------------- whole sections

  lemma DisjointAlone(rs: seq<Reloc>, k: nat)
    requires Disjoint(rs) && k < |rs|
    ensures Alone(rs, k)
  {
    forall i | 0 <= i < |rs| && i != k ensures Separate(rs[i], rs[k]) {
      if i < k { assert Separate(rs[i], rs[k]); } else { assert Separate(rs[k], rs[i]); }
    }
  }

  lemma ByteInField(b: seq<byte>, c: seq<byte>, off: nat, n: nat, x: nat)
    requires off + n <= |b| == |c| && Sub(b, off, n) == Sub(c, off, n) && off <= x < off + n
    ensures b[x] == c[x]
  {
    assert b[off..off + n][x - off] == c[off..off + n][x - off];
  }

  lemma OutsideSites(code: seq<byte>, rs: seq<Reloc>, es: seq<ElfReader.RelocView>, cs: seq<CoffReader.RelocView>,
                     ss: seq<int>, base: int, x: nat)
    requires Comparable(code, rs, es, cs) && |ss| == |rs| && x < |code|
    requires forall i | 0 <= i < |rs| :: !Touches(rs[i], x)
    ensures ByteSame(LinkElf(code, es, ss, base), LinkCoff(Apply(code, BakedWrites(rs)), cs, ss, base), x)
  {
    ElfLinks(code, es, rs, ss, base);
    ByteUnwritten(code, FinalWrites(rs, ss, base), rs, x);
    ByteUnwritten(code, BakedWrites(rs), rs, x);
    CoffElsewhere(Apply(code, BakedWrites(rs)), cs, rs, ss, base, x, |rs|);
    assert cs[..|rs|] == cs && ss[..|rs|] == ss;
  }

  predicate ByteSame(e: Option<seq<byte>>, c: Option<seq<byte>>, x: nat) {
    e.Some? && c.Some? && x < |e.value| && x < |c.value| && c.value[x] == e.value[x]
  }

  lemma ByteAgrees(code: seq<byte>, rs: seq<Reloc>, es: seq<ElfReader.RelocView>, cs: seq<CoffReader.RelocView>,
                   ss: seq<int>, base: int, x: nat)
    requires Comparable(code, rs, es, cs) && |ss| == |rs| && Disjoint(rs) && x < |code|
    ensures ByteSame(LinkElf(code, es, ss, base), LinkCoff(Apply(code, BakedWrites(rs)), cs, ss, base), x)
  {
    if k :| 0 <= k < |rs| && Touches(rs[k], x) {
      DisjointAlone(rs, k);
      var e, c := AloneAgrees(code, rs, es, cs, ss, base, k);
      assert Fits(rs[k], |code|);
      ByteInField(c, e, rs[k].offset, SiteWidth(rs[k]), x);
    } else {
      OutsideSites(code, rs, es, cs, ss, base, x);
    }
  }

  lemma SomethingToLink(rs: seq<Reloc>, size: nat)
    requires rs != [] && AllFit(rs, size)
    ensures size > 0
  {
    assert Fits(rs[0], size);
  }

  /** Relocation meaning is preserved: linking COFF's baked bytes gives the same section as
      linking ELF's untouched bytes with explicit addends, for every load address and every
      address of every symbol. */
  lemma LinkAgrees(code: seq<byte>, rs: seq<Reloc>, es: seq<ElfReader.RelocView>, cs: seq<CoffReader.RelocView>,
                   ss: seq<int>, base: int)
    requires Comparable(code, rs, es, cs) && |ss| == |rs| && Disjoint(rs)
    ensures LinkElf(code, es, ss, base).Some?
    ensures LinkCoff(Apply(code, BakedWrites(rs)), cs, ss, base) == LinkElf(code, es, ss, base)
  {
    if rs != [] {
      SomethingToLink(rs, |code|);
      var e, c := LinkElf(code, es, ss, base), LinkCoff(Apply(code, BakedWrites(rs)), cs, ss, base);
      forall x: nat | x < |code| ensures ByteSame(e, c, x) { ByteAgrees(code, rs, es, cs, ss, base, x); }
      assert ByteSame(e, c, 0);
      assert forall x: nat | x < |code| :: ByteSame(e, c, x) ==> c.value[x] == e.value[x];
      assert c.value == e.value;
    }
  }

  // ------------------------------------------------------------- shared patch sites

  lemma SmallLE(k: byte)
    ensures LE(4, k) == [k, 0, 0, 0]
  {
    assert LE(1, 0) == [0] && LE(2, 0) == [0, 0] && LE(3, 0) == [0, 0, 0];
  }

  lemma WholeField(b: seq<byte>, r: Reloc, k: byte)
    requires |b| == 4 && r.offset == 0 && SiteWidth(r) == 4 && FieldIs(b, r, k)
    ensures b == [k, 0, 0, 0]
  {
    SmallLE(k);
    assert b[0..4] == b;
  }

  /** Two relocations over one field: the second COFF step adds to what the first one wrote. */
  lemma OverlapDiffers(name: Name, es: seq<ElfReader.RelocView>, cs: seq<CoffReader.RelocView>)
    requires var r := Reloc(0, name, Abs32, 0); ElfOfAll(es, [r, r]) && CoffOfAll(cs, [r, r])
    ensures var r := Reloc(0, name, Abs32, 0);
            && LinkElf([0, 0, 0, 0], es, [1, 1], 0) == Some([1, 0, 0, 0])
            && LinkCoff(Apply([0, 0, 0, 0], BakedWrites([r, r])), cs, [1, 1], 0) == Some([2, 0, 0, 0])
  {
    var r := Reloc(0, name, Abs32, 0);
    var rs := [r, r];
    assert SiteSum(rs, [1, 1], 0, 1, 0) == 0;
    assert SiteSum(rs, [1, 1], 0, 1, 1) == Shift(rs[0], [1, 1][0], 0) == 1;
    var e, c := SiteFields([0, 0, 0, 0], rs, es, cs, [1, 1], [1, 1], 0, 1, 1, 2);
    WholeField(e, r, 1);
    WholeField(c, r, 2);
  }

  // ------------------------------------------------------- agreement about the symbols

  predicate PlaceFits(p: Place) { !p.Elsewhere? ==> p.value < 0x1_0000_0000 }

  /** Different places can be told apart: some load gives them different addresses, even
      modulo a 32-bit field. */
  lemma PlacesDiffer(p: Place, q: Place) returns (env: Env)
    requires p != q && PlaceFits(p) && PlaceFits(q)
    ensures var d := Address(p, env) - Address(q, env); d != 0 && -0x1_0000_0000 < d < 0x1_0000_0000
  {
    var zero := Env(_ => 0, _ => 0);
    match p {
      case Inside(n, v) =>
        var there := Address(q, zero);
        if q.Inside? {
          env := if q.section == n then zero else Env((m: nat) => if m == n then 1 - v else 0 - q.value, _ => 0);
        } else {
          env := Env(m => if m == n then there + 1 - v else 0, _ => 0);
        }
      case Fixed(v) =>
        if q.Inside? {
          env := Env(m => if m == q.section then v + 1 - q.value else 0, _ => 0);
        } else if q.Elsewhere? {
          env := Env(_ => 0, _ => v + 1);
        } else {
          env := zero;
        }
      case Elsewhere(n) =>
        var there := Address(q, zero);
        env := Env(_ => 0, m => if m == n then there + 1 else 0);
    }
  }

  /** Every relocation's ELF entry and COFF entry denote one place. */
  predicate SamePlaces(es: seq<ElfReader.RelocView>, cs: seq<CoffReader.RelocView>)
    requires |es| == |cs|
  {
    forall k | 0 <= k < |es| :: ElfPlace(es[k].sym) == CoffPlace(cs[k].sym)
  }

  lemma FieldsDiffer(code: seq<byte>, rs: seq<Reloc>, es: seq<ElfReader.RelocView>, cs: seq<CoffReader.RelocView>,
                     se: seq<int>, sc: seq<int>, base: int, k: nat)
    requires Comparable(code, rs, es, cs) && Disjoint(rs) && |se| == |sc| == |rs| && k < |rs|
    requires sc[k] != se[k] && -0x1_0000_0000 < sc[k] - se[k] < 0x1_0000_0000
    ensures LinkCoff(Apply(code, BakedWrites(rs)), cs, sc, base) != LinkElf(code, es, se, base)
  {
    var n, d := SiteWidth(rs[k]), sc[k] - se[k];
    DisjointAlone(rs, k);
    AloneSite(rs, k);
    SumAlone(rs, sc, base, k, |rs|);
    var v, v' := Implicit(rs[k]) + Shift(rs[k], se[k], base), Implicit(rs[k]) + Shift(rs[k], sc[k], base);
    var e, c := SiteFields(code, rs, es, cs, se, sc, base, k, v, v');
    FieldsSameIff(e, c, rs[k], v, v', d);
    Pow256Values();
    SmallNotMultiple(d, Pow256(n));
  }

  ghost predicate AlwaysLinks(code: seq<byte>, es: seq<ElfReader.RelocView>, own: nat) {
    forall env: Env :: ElfLinked(code, es, own, env).Some?
  }

  /** Wherever sections and outside symbols are loaded, section own of the two files links to
      the same bytes. */
  ghost predicate LinkAlike(code: seq<byte>, es: seq<ElfReader.RelocView>, baked: seq<byte>,
                            cs: seq<CoffReader.RelocView>, own: nat) {
    forall env: Env :: CoffLinked(baked, cs, own, env) == ElfLinked(code, es, own, env)
  }

  /** With disjoint sites, the two files' sections link to the same bytes wherever they and
      their symbols are loaded, exactly if each relocation's two symbol entries denote one
      place. */
  lemma AgreeIffSamePlaces(code: seq<byte>, rs: seq<Reloc>, es: seq<ElfReader.RelocView>,
                           cs: seq<CoffReader.RelocView>, own: nat)
    requires Comparable(code, rs, es, cs) && Disjoint(rs)
    requires forall k | 0 <= k < |rs| :: PlaceFits(ElfPlace(es[k].sym)) && PlaceFits(CoffPlace(cs[k].sym))
    ensures AlwaysLinks(code, es, own)
    ensures LinkAlike(code, es, Apply(code, BakedWrites(rs)), cs, own) <==> SamePlaces(es, cs)
  {
    forall env: Env ensures ElfLinked(code, es, own, env).Some? {
      ElfLinks(code, es, rs, ElfValues(es, env), env.base(own));
    }
    if SamePlaces(es, cs) {
      forall env: Env
        ensures CoffLinked(Apply(code, BakedWrites(rs)), cs, own, env) == ElfLinked(code, es, own, env)
      {
        assert CoffValues(cs, env) == ElfValues(es, env);
        LinkAgrees(code, rs, es, cs, ElfValues(es, env), env.base(own));
      }
    } else {
      var k :| 0 <= k < |es| && ElfPlace(es[k].sym) != CoffPlace(cs[k].sym);
      var env := PlacesDiffer(CoffPlace(cs[k].sym), ElfPlace(es[k].sym));
      FieldsDiffer(code, rs, es, cs, ElfValues(es, env), CoffValues(cs, env), env.base(own), k);
      assert CoffLinked(Apply(code, BakedWrites(rs)), cs, own, env) != ElfLinked(code, es, own, env);
    }
  }
}
