/** Sites that overlap: whatever the overlap, some load makes the ELF and the COFF link of a
    section differ. */
module Overlap {
  import opened Arith
  import opened Bytes
  import opened Objects
  import opened Patch
  import opened Link
  import ElfReader
  import CoffReader

  // -------------------------------------------------------------- the COFF steps

  /** The bytes after the first n COFF steps. */
  function After(code: seq<byte>, vs: seq<CoffReader.RelocView>, ss: seq<int>, base: int, n: nat): (r: seq<byte>)
    requires n <= |vs| == |ss|
    ensures |r| == |code|
  {
    var r := LinkCoff(code, vs[..n], ss[..n], base);
    if r.Some? then r.value else code
  }

  /** What step n writes. */
  function StepWrite(code: seq<byte>, vs: seq<CoffReader.RelocView>, rs: seq<Reloc>, ss: seq<int>, base: int,
                     n: nat): Write
    requires n < |rs| == |vs| == |ss| && Fits(rs[n], |code|)
  {
    var field := Sub(After(code, vs, ss, base, n), rs[n].offset, SiteWidth(rs[n])).value;
    Write(rs[n].offset, LE(SiteWidth(rs[n]), Shift(rs[n], ss[n], base) + FromLE(field)))
  }

  lemma {:induction false} Links(code: seq<byte>, vs: seq<CoffReader.RelocView>, rs: seq<Reloc>, ss: seq<int>,
                                 base: int, n: nat)
    requires n <= |rs| == |ss| && CoffOfAll(vs, rs) && AllFit(rs, |code|)
    ensures LinkCoff(code, vs[..n], ss[..n], base) == Some(After(code, vs, ss, base, n))
  {
    if n > 0 {
      Links(code, vs, rs, ss, base, n - 1);
      assert CoffOf(vs[n - 1], rs[n - 1]) && Fits(rs[n - 1], |code|);
      var before := After(code, vs, ss, base, n - 1);
      CoffWrites(before, vs[n - 1], rs[n - 1], ss[n - 1], base);
      LinkCoffStep(code, vs, ss, base, before, CoffWrite(before, vs[n - 1], ss[n - 1], base).value, n - 1);
    }
  }

  lemma StepWrites(code: seq<byte>, vs: seq<CoffReader.RelocView>, rs: seq<Reloc>, ss: seq<int>, base: int, n: nat)
    requires n < |rs| == |ss| && CoffOfAll(vs, rs) && Fits(rs[n], |code|)
    ensures CoffWrite(After(code, vs, ss, base, n), vs[n], ss[n], base) == Some(StepWrite(code, vs, rs, ss, base, n))
  {
    assert CoffOf(vs[n], rs[n]);
    CoffWrites(After(code, vs, ss, base, n), vs[n], rs[n], ss[n], base);
  }

  lemma Step(code: seq<byte>, vs: seq<CoffReader.RelocView>, rs: seq<Reloc>, ss: seq<int>, base: int, n: nat)
    requires n < |rs| == |ss| && CoffOfAll(vs, rs) && AllFit(rs, |code|)
    ensures Fits(rs[n], |code|)
    ensures After(code, vs, ss, base, n + 1)
            == Splice(After(code, vs, ss, base, n), StepWrite(code, vs, rs, ss, base, n))
  {
    assert Fits(rs[n], |code|);
    Links(code, vs, rs, ss, base, n);
    StepWrites(code, vs, rs, ss, base, n);
    LinkCoffStep(code, vs, ss, base, After(code, vs, ss, base, n), StepWrite(code, vs, rs, ss, base, n), n);
  }

  function FieldOf(b: seq<byte>, r: Reloc): (f: seq<byte>)
    requires Fits(r, |b|)
    ensures |f| == SiteWidth(r)
  {
    b[r.offset..r.offset + SiteWidth(r)]
  }

  lemma SpliceKeeps(b: seq<byte>, w: Write, k: Reloc)
    requires InRange(w, |b|) && Fits(k, |b|)
    requires w.off + |w.data| <= k.offset || k.offset + SiteWidth(k) <= w.off
    ensures FieldOf(Splice(b, w), k) == FieldOf(b, k)
  {
    SplicedApart(b, w, k.offset, SiteWidth(k));
  }

  lemma StepKeeps(code: seq<byte>, vs: seq<CoffReader.RelocView>, rs: seq<Reloc>, ss: seq<int>, base: int, k: Reloc,
                  n: nat, b: seq<byte>)
    requires n < |rs| == |ss| && CoffOfAll(vs, rs) && AllFit(rs, |code|) && Separate(rs[n], k) && Fits(k, |code|)
    requires b == After(code, vs, ss, base, n)
    ensures FieldOf(After(code, vs, ss, base, n + 1), k) == FieldOf(b, k)
  {
    Step(code, vs, rs, ss, base, n);
    SpliceKeeps(b, StepWrite(code, vs, rs, ss, base, n), k);
  }

  /** Relocations a to n leave a field alone that they do not touch. */
  lemma {:induction false} FieldStays(code: seq<byte>, vs: seq<CoffReader.RelocView>, rs: seq<Reloc>, ss: seq<int>,
                                      base: int, k: Reloc, a: nat, n: nat)
    requires a <= n <= |rs| == |ss| && CoffOfAll(vs, rs) && AllFit(rs, |code|)
    requires forall m | a <= m < n :: Separate(rs[m], k)
    requires Fits(k, |code|)
    ensures FieldOf(After(code, vs, ss, base, a), k) == FieldOf(After(code, vs, ss, base, n), k)
    decreases n
  {
    if a < n {
      FieldStays(code, vs, rs, ss, base, k, a, n - 1);
      StepKeeps(code, vs, rs, ss, base, k, n - 1, After(code, vs, ss, base, n - 1));
    }
  }

  // --------------------------------------------------------- changing one symbol's address

  /** The addresses ss with that of relocation i moved by 256^p. */
  function Moved(ss: seq<int>, i: nat, p: nat): (tt: seq<int>)
    requires i < |ss|
    ensures |tt| == |ss|
  {
    ss[i := ss[i] + Pow256(p)]
  }

  lemma SameBefore(code: seq<byte>, vs: seq<CoffReader.RelocView>, ss: seq<int>, base: int, i: nat, p: nat)
    requires i < |vs| == |ss|
    ensures After(code, vs, ss, base, i) == After(code, vs, Moved(ss, i, p), base, i)
  {
    assert Moved(ss, i, p)[..i] == ss[..i];
  }

  /** What relocation n leaves in its field, found being the bytes before. */
  lemma FieldAfter(code: seq<byte>, vs: seq<CoffReader.RelocView>, rs: seq<Reloc>, ss: seq<int>, base: int, n: nat,
                   found: seq<byte>, v: int) returns (f: seq<byte>)
    requires n < |rs| == |ss| && CoffOfAll(vs, rs) && AllFit(rs, |code|) && found == After(code, vs, ss, base, n)
    requires Fits(rs[n], |found|) && v == Shift(rs[n], ss[n], base) + FromLE(FieldOf(found, rs[n]))
    ensures FieldOf(After(code, vs, ss, base, n + 1), rs[n]) == f == LE(SiteWidth(rs[n]), v)
  {
    f := LE(SiteWidth(rs[n]), v);
    Step(code, vs, rs, ss, base, n);
    SplicedThere(found, StepWrite(code, vs, rs, ss, base, n));
  }

  /** What relocation i finds there is unmoved, so its value moves as the address does. */
  lemma ValueMoves(code: seq<byte>, vs: seq<CoffReader.RelocView>, ss: seq<int>, base: int, i: nat, p: nat, r: Reloc,
                   v: int)
    requires i < |vs| == |ss| && Fits(r, |After(code, vs, ss, base, i)|)
    requires v == Shift(r, ss[i], base) + FromLE(FieldOf(After(code, vs, ss, base, i), r))
    ensures var tt := Moved(ss, i, p);
            && After(code, vs, tt, base, i) == After(code, vs, ss, base, i)
            && v + Pow256(p) == Shift(r, tt[i], base) + FromLE(FieldOf(After(code, vs, tt, base, i), r))
  {
    SameBefore(code, vs, ss, base, i, p);
  }

  lemma FieldAfterMove(code: seq<byte>, vs: seq<CoffReader.RelocView>, rs: seq<Reloc>, ss: seq<int>, base: int, i: nat,
                       p: nat, v: int) returns (f: seq<byte>)
    requires i < |rs| == |ss| && CoffOfAll(vs, rs) && AllFit(rs, |code|) && Fits(rs[i], |code|)
    requires v == Shift(rs[i], ss[i], base) + FromLE(FieldOf(After(code, vs, ss, base, i), rs[i]))
    ensures FieldOf(After(code, vs, Moved(ss, i, p), base, i + 1), rs[i]) == f == LE(SiteWidth(rs[i]), v + Pow256(p))
  {
    var tt := Moved(ss, i, p);
    ValueMoves(code, vs, ss, base, i, p, rs[i], v);
    f := FieldAfter(code, vs, rs, tt, base, i, After(code, vs, tt, base, i), v + Pow256(p));
  }

  lemma FieldBumped(n: nat, v: int, p: nat, f: seq<byte>, f': seq<byte>)
    requires p < n && f == LE(n, v) && f' == LE(n, v + Pow256(p))
    ensures f[p] != f'[p]
  {
    LEBump(n, v, p);
  }

  /** Moving its symbol by 256^p changes the p-th byte that relocation i writes. */
  lemma ByteMoves(code: seq<byte>, vs: seq<CoffReader.RelocView>, rs: seq<Reloc>, ss: seq<int>, base: int, i: nat,
                  p: nat)
    requires i < |rs| == |ss| && CoffOfAll(vs, rs) && AllFit(rs, |code|) && p < SiteWidth(rs[i])
    ensures Fits(rs[i], |code|)
    ensures var tt := Moved(ss, i, p);
            FieldOf(After(code, vs, ss, base, i + 1), rs[i])[p] != FieldOf(After(code, vs, tt, base, i + 1), rs[i])[p]
  {
    assert Fits(rs[i], |code|);
    var found := After(code, vs, ss, base, i);
    var v := Shift(rs[i], ss[i], base) + FromLE(FieldOf(found, rs[i]));
    var f := FieldAfter(code, vs, rs, ss, base, i, found, v);
    var f' := FieldAfterMove(code, vs, rs, ss, base, i, p, v);
    FieldBumped(SiteWidth(rs[i]), v, p, f, f');
  }

  lemma {:induction false} FromLEBelow(s: seq<byte>)
    ensures FromLE(s) < Pow256(|s|)
  {
    if s != [] { FromLEBelow(s[1..]); }
  }

  lemma FromLEDiffer(b: seq<byte>, c: seq<byte>, p: nat) returns (d: int)
    requires |b| == |c| && b != c && p == Pow256(|b|)
    ensures d == FromLE(b) - FromLE(c) && d != 0 && 0 - p < d < p
  {
    d := FromLE(b) - FromLE(c);
    LEOfFromLE(b);
    LEOfFromLE(c);
    FromLEBelow(b);
    FromLEBelow(c);
  }

  /** Different fields stay different when the same amount is added to both. */
  lemma FieldsApart(n: nat, b: seq<byte>, c: seq<byte>, v: int, w: int, f: seq<byte>, f': seq<byte>)
    requires |b| == |c| == n && b != c && v - FromLE(b) == w - FromLE(c) && f == LE(n, v) && f' == LE(n, w)
    ensures f != f'
  {
    var d := FromLEDiffer(b, c, Pow256(n));
    assert v - w == d;
    SmallNotMultiple(d, Pow256(n));
    SameFieldIff(n, v, w);
  }

  /** What relocation k finds differently it leaves differently. */
  lemma DifferenceStays(code: seq<byte>, vs: seq<CoffReader.RelocView>, rs: seq<Reloc>, ss: seq<int>, tt: seq<int>,
                        base: int, k: nat)
    requires k < |rs| == |ss| == |tt| && CoffOfAll(vs, rs) && AllFit(rs, |code|) && ss[k] == tt[k]
    requires Fits(rs[k], |code|)
    requires FieldOf(After(code, vs, ss, base, k), rs[k]) != FieldOf(After(code, vs, tt, base, k), rs[k])
    ensures FieldOf(After(code, vs, ss, base, k + 1), rs[k]) != FieldOf(After(code, vs, tt, base, k + 1), rs[k])
  {
    var b, c := After(code, vs, ss, base, k), After(code, vs, tt, base, k);
    var v := Shift(rs[k], ss[k], base) + FromLE(FieldOf(b, rs[k]));
    var w := Shift(rs[k], tt[k], base) + FromLE(FieldOf(c, rs[k]));
    var f := FieldAfter(code, vs, rs, ss, base, k, b, v);
    var f' := FieldAfter(code, vs, rs, tt, base, k, c, w);
    FieldsApart(SiteWidth(rs[k]), FieldOf(b, rs[k]), FieldOf(c, rs[k]), v, w, f, f');
  }

  // -------------------------------------------------------------------- any overlap

  /** The last relocation that overlaps an earlier one, and the last one it overlaps. */
  lemma LastOverlap(rs: seq<Reloc>) returns (i: nat, k: nat)
    requires !Disjoint(rs)
    ensures i < k < |rs| && !Separate(rs[i], rs[k])
    ensures LastThere(rs, k) && forall m | i < m < k :: Separate(rs[m], rs[k])
  {
    i, k :| 0 <= i < k < |rs| && !Separate(rs[i], rs[k]);
    for m := 0 to |rs|
      invariant 0 <= i < k < |rs| && !Separate(rs[i], rs[k])
      invariant forall a, b | 0 <= a < b < m && k < b :: Separate(rs[a], rs[b])
    {
      if a :| 0 <= a < m && !Separate(rs[a], rs[m]) && k < m { i, k := a, m; }
    }
    assert forall m | k < m < |rs| :: Separate(rs[k], rs[m]) && Separate(rs[m], rs[k]);
    for m := 0 to k
      invariant 0 <= i < k && !Separate(rs[i], rs[k])
      invariant forall a | i < a < m :: Separate(rs[a], rs[k])
    {
      if i < m && !Separate(rs[m], rs[k]) { i := m; }
    }
  }

  lemma CommonByte(a: Reloc, b: Reloc) returns (x: nat)
    requires !Separate(a, b)
    ensures Touches(a, x) && Touches(b, x)
  {
    x := if a.offset < b.offset then b.offset else a.offset;
  }

  /** A byte that both fields hold moves in the field of relocation k too. */
  lemma ByteSeen(code: seq<byte>, vs: seq<CoffReader.RelocView>, rs: seq<Reloc>, ss: seq<int>, base: int, i: nat,
                 k: nat, x: nat)
    requires i < k < |rs| == |ss| && CoffOfAll(vs, rs) && AllFit(rs, |code|) && Touches(rs[i], x) && Touches(rs[k], x)
    requires Fits(rs[k], |code|)
    ensures var tt := Moved(ss, i, x - rs[i].offset);
            FieldOf(After(code, vs, ss, base, i + 1), rs[k]) != FieldOf(After(code, vs, tt, base, i + 1), rs[k])
  {
    var tt := Moved(ss, i, x - rs[i].offset);
    ByteMoves(code, vs, rs, ss, base, i, x - rs[i].offset);
    BytesDiffer(After(code, vs, ss, base, i + 1), After(code, vs, tt, base, i + 1), rs[i], rs[k], x);
  }

  /** Relocation k finds something else in its field when the symbol of relocation i moves. */
  lemma FoundMoves(code: seq<byte>, vs: seq<CoffReader.RelocView>, rs: seq<Reloc>, ss: seq<int>, base: int, i: nat,
                   k: nat, x: nat)
    requires i < k < |rs| == |ss| && CoffOfAll(vs, rs) && AllFit(rs, |code|) && Touches(rs[i], x) && Touches(rs[k], x)
    requires forall m | i < m < k :: Separate(rs[m], rs[k])
    ensures Fits(rs[k], |code|)
    ensures var tt := Moved(ss, i, x - rs[i].offset);
            FieldOf(After(code, vs, ss, base, k), rs[k]) != FieldOf(After(code, vs, tt, base, k), rs[k])
  {
    var tt := Moved(ss, i, x - rs[i].offset);
    assert Fits(rs[k], |code|);
    ByteSeen(code, vs, rs, ss, base, i, k, x);
    FieldStays(code, vs, rs, ss, base, rs[k], i + 1, k);
    FieldStays(code, vs, rs, tt, base, rs[k], i + 1, k);
  }

  lemma BytesDiffer(b: seq<byte>, c: seq<byte>, r: Reloc, k: Reloc, x: nat)
    requires |b| == |c| && Fits(r, |b|) && Fits(k, |b|) && Touches(r, x) && Touches(k, x)
    requires FieldOf(b, r)[x - r.offset] != FieldOf(c, r)[x - r.offset]
    ensures FieldOf(b, k) != FieldOf(c, k)
  {
    assert FieldOf(b, k)[x - k.offset] != FieldOf(c, k)[x - k.offset];
  }

  /** From relocation k on, its field stays different. */
  lemma DifferenceLasts(code: seq<byte>, vs: seq<CoffReader.RelocView>, rs: seq<Reloc>, ss: seq<int>, tt: seq<int>,
                        base: int, k: nat) returns (c: seq<byte>, c': seq<byte>)
    requires k < |rs| == |ss| == |tt| && CoffOfAll(vs, rs) && AllFit(rs, |code|) && ss[k] == tt[k]
    requires Fits(rs[k], |code|) && LastThere(rs, k)
    requires FieldOf(After(code, vs, ss, base, k), rs[k]) != FieldOf(After(code, vs, tt, base, k), rs[k])
    ensures c == After(code, vs, ss, base, |rs|) && c' == After(code, vs, tt, base, |rs|)
    ensures FieldOf(c, rs[k]) != FieldOf(c', rs[k])
  {
    c, c' := After(code, vs, ss, base, |rs|), After(code, vs, tt, base, |rs|);
    DifferenceStays(code, vs, rs, ss, tt, base, k);
    FieldStays(code, vs, rs, ss, base, rs[k], k + 1, |rs|);
    FieldStays(code, vs, rs, tt, base, rs[k], k + 1, |rs|);
  }

  lemma AllLinked(code: seq<byte>, vs: seq<CoffReader.RelocView>, rs: seq<Reloc>, ss: seq<int>, base: int)
    requires |ss| == |rs| && CoffOfAll(vs, rs) && AllFit(rs, |code|)
    ensures LinkCoff(code, vs, ss, base) == Some(After(code, vs, ss, base, |rs|))
  {
    Links(code, vs, rs, ss, base, |rs|);
    assert vs[..|rs|] == vs && ss[..|rs|] == ss;
  }

  /** The field of relocation k ends differently when the symbol of relocation i moves. */
  lemma FieldMoves(code: seq<byte>, vs: seq<CoffReader.RelocView>, rs: seq<Reloc>, ss: seq<int>, base: int, i: nat,
                   k: nat, x: nat, tt: seq<int>) returns (c: seq<byte>, c': seq<byte>)
    requires i < k < |rs| == |ss| && CoffOfAll(vs, rs) && AllFit(rs, |code|) && Touches(rs[i], x) && Touches(rs[k], x)
    requires LastThere(rs, k) && forall m | i < m < k :: Separate(rs[m], rs[k])
    requires tt == Moved(ss, i, x - rs[i].offset)
    ensures Differ(c, c', rs[k])
    ensures LinkCoff(code, vs, ss, base) == Some(c) && LinkCoff(code, vs, tt, base) == Some(c')
  {
    FoundMoves(code, vs, rs, ss, base, i, k, x);
    c, c' := DifferenceLasts(code, vs, rs, ss, tt, base, k);
    AllLinked(code, vs, rs, ss, base);
    AllLinked(code, vs, rs, tt, base);
  }

  predicate Differ(b: seq<byte>, c: seq<byte>, r: Reloc) {
    |b| == |c| && Fits(r, |b|) && FieldOf(b, r) != FieldOf(c, r)
  }

  predicate Alike(b: seq<byte>, c: seq<byte>, r: Reloc) {
    |b| == |c| && Fits(r, |b|) && FieldOf(b, r) == FieldOf(c, r)
  }

  function Zeroes(n: nat): (ss: seq<int>)
    ensures |ss| == n
  {
    seq(n, _ => 0)
  }

  /** The ELF link gives the field of relocation k the same bytes if its symbol does not move. */
  lemma ElfFieldStays(code: seq<byte>, rs: seq<Reloc>, es: seq<ElfReader.RelocView>, ss: seq<int>, tt: seq<int>,
                      base: int, k: nat) returns (e: seq<byte>, e': seq<byte>)
    requires AllFit(rs, |code|) && ElfOfAll(es, rs) && |ss| == |tt| == |rs| && k < |rs| && LastThere(rs, k)
    requires ss[k] == tt[k]
    ensures LinkElf(code, es, ss, base) == Some(e) && LinkElf(code, es, tt, base) == Some(e')
    ensures Alike(e, e', rs[k])
  {
    assert Fits(rs[k], |code|);
    var v := Implicit(rs[k]) + Shift(rs[k], ss[k], base);
    e := ElfField(code, rs, es, ss, base, k, v);
    e' := ElfField(code, rs, es, tt, base, k, v);
  }

  /** Stated as an implication: its caller has the premises as they stand. */
  lemma NotBoth(r: Reloc, c: seq<byte>, c': seq<byte>, e: seq<byte>, e': seq<byte>)
    ensures Differ(c, c', r) && Alike(e, e', r) ==> c != e || c' != e'
  {
  }

  /** If two sites overlap in any way, some addresses make the two links differ. */
  lemma OverlapSeen(code: seq<byte>, baked: seq<byte>, rs: seq<Reloc>, es: seq<ElfReader.RelocView>,
                    cs: seq<CoffReader.RelocView>) returns (ss: seq<int>)
    requires ElfOfAll(es, rs) && CoffOfAll(cs, rs) && AllFit(rs, |code|) && |baked| == |code| && !Disjoint(rs)
    ensures |ss| == |rs| && LinkCoff(baked, cs, ss, 0) != LinkElf(code, es, ss, 0)
  {
    var i, k := LastOverlap(rs);
    var x := CommonByte(rs[i], rs[k]);
    ss := Zeroes(|rs|);
    var tt := Moved(ss, i, x - rs[i].offset);
    var c, c' := FieldMoves(baked, cs, rs, ss, 0, i, k, x, tt);
    var e, e' := ElfFieldStays(code, rs, es, ss, tt, 0, k);
    NotBoth(rs[k], c, c', e, e');
    if c == e { ss := tt; }
  }

  /** The two links agree, for all load addresses and all symbol addresses, exactly if no two
      sites overlap: COFF adds to what it finds, so that a later relocation sees an earlier
      one, while ELF overwrites. */
  lemma AgreeIffDisjoint(code: seq<byte>, rs: seq<Reloc>, es: seq<ElfReader.RelocView>,
                         cs: seq<CoffReader.RelocView>)
    requires Comparable(code, rs, es, cs)
    ensures (forall ss: seq<int>, base: int | |ss| == |rs| ::
               LinkCoff(Apply(code, BakedWrites(rs)), cs, ss, base) == LinkElf(code, es, ss, base))
            <==> Disjoint(rs)
  {
    if Disjoint(rs) {
      forall ss: seq<int>, base: int | |ss| == |rs|
        ensures LinkCoff(Apply(code, BakedWrites(rs)), cs, ss, base) == LinkElf(code, es, ss, base)
      {
        LinkAgrees(code, rs, es, cs, ss, base);
      }
    } else {
      var ss := OverlapSeen(code, Apply(code, BakedWrites(rs)), rs, es, cs);
    }
  }
}
