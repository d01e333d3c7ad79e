/** When the addends of COFF relocations, which the format has no field for, can be read back
    from the bytes they are baked into. */
module CoffAddends {
  import opened Bytes
  import opened Objects
  import opened Patch
  import opened CoffFormat
  import opened CoffSpec
  import opened CoffWalk
  import opened CoffSections

  /** Section s with addend a in its k-th relocation. */
  function WithAddend(s: Section, k: nat, a: i64): Section
    requires k < |s.relocs|
  {
    s.(relocs := s.relocs[k := s.relocs[k].(addend := a)])
  }

  lemma AddendWritesSplit(machine: u16, rs: seq<Reloc>, k: nat, r: Reloc)
    requires Supported(machine, rs) && k < |rs| && RelocType(machine, r.kind).Some?
    ensures Supported(machine, rs[k := r]) && Supported(machine, rs[..k]) && Supported(machine, rs[k + 1..])
    ensures AddendWrites(machine, rs[k := r])
            == AddendWrites(machine, rs[..k]) + [AddendWrite(machine, r)] + AddendWrites(machine, rs[k + 1..])
  {
  }

  /** No relocation behind the k-th whose addend is written touches the site of the k-th. */
  predicate SparedByLater(machine: u16, s: Section, k: nat)
    requires Supported(machine, s.relocs) && k < |s.relocs|
  {
    forall j | k < j < |s.relocs| && InRange(AddendWrite(machine, s.relocs[j]), |s.code|) ::
      Apart(AddendWrite(machine, s.relocs[j]), AddendWrite(machine, s.relocs[k]))
  }

  lemma SparedTail(machine: u16, s: Section, k: nat, n: nat)
    requires Supported(machine, s.relocs) && k < |s.relocs| && Supported(machine, s.relocs[k + 1..])
    requires n == |AddendWrite(machine, s.relocs[k]).data|
    ensures Survives(s.code, s.relocs[k].offset, n, AddendWrites(machine, s.relocs[k + 1..]))
            <==> InRange(AddendWrite(machine, s.relocs[k]), |s.code|) && SparedByLater(machine, s, k)
  {
    var ws, site := AddendWrites(machine, s.relocs[k + 1..]), Write(s.relocs[k].offset, LE(n, 0));
    if SparedByLater(machine, s, k) {
      forall i | 0 <= i < |ws| && InRange(ws[i], |s.code|) ensures Apart(ws[i], site) {
        assert ws[i] == AddendWrite(machine, s.relocs[k + 1 + i]);
      }
    }
    if Spared(ws, |s.code|, site) {
      forall j | k < j < |s.relocs| && InRange(AddendWrite(machine, s.relocs[j]), |s.code|)
        ensures Apart(AddendWrite(machine, s.relocs[j]), AddendWrite(machine, s.relocs[k]))
      {
        assert ws[j - k - 1] == AddendWrite(machine, s.relocs[j]);
      }
    }
  }

  /** The field of relocation k in the bytes of s, and the value its addend is baked as. */
  predicate AddendReads(machine: u16, s: Section, k: nat)
    requires Supported(machine, s.relocs) && k < |s.relocs|
  {
    var r, t := s.relocs[k], RelocType(machine, s.relocs[k].kind).value;
    Holds(BakedCode(machine, s), r.offset, AddendSize(t), BakedAddend(machine, t, r.addend))
  }

  lemma BakedWith(machine: u16, s: Section, k: nat, a: i64)
    requires Supported(machine, s.relocs) && k < |s.relocs|
    ensures Supported(machine, WithAddend(s, k, a).relocs) && Supported(machine, s.relocs[..k])
    ensures Supported(machine, s.relocs[k + 1..])
    ensures var r, t := s.relocs[k], RelocType(machine, s.relocs[k].kind).value;
            BakedCode(machine, WithAddend(s, k, a))
            == Baked(s.code, AddendWrites(machine, s.relocs[..k]), r.offset, AddendSize(t),
                     BakedAddend(machine, t, a), AddendWrites(machine, s.relocs[k + 1..]))
  {
    AddendWritesSplit(machine, s.relocs, k, s.relocs[k].(addend := a));
  }

  lemma WritesNotEmpty(machine: u16, rs: seq<Reloc>)
    requires Supported(machine, rs)
    ensures forall i | 0 <= i < |rs| :: AddendWrites(machine, rs)[i].data != []
  {
  }

  lemma AddendKept(machine: u16, s: Section, k: nat, a: i64)
    requires Supported(machine, s.relocs) && k < |s.relocs|
    requires InRange(AddendWrite(machine, s.relocs[k]), |s.code|) && SparedByLater(machine, s, k)
    ensures Supported(machine, WithAddend(s, k, a).relocs) && AddendReads(machine, WithAddend(s, k, a), k)
  {
    var r, t := s.relocs[k], RelocType(machine, s.relocs[k].kind).value;
    BakedWith(machine, s, k, a);
    SparedTail(machine, s, k, AddendSize(t));
    BakedHolds(s.code, AddendWrites(machine, s.relocs[..k]), r.offset, AddendSize(t), BakedAddend(machine, t, a),
               AddendWrites(machine, s.relocs[k + 1..]));
  }

  /** What relocation k's field reads is what its write holds, with addend a. */
  lemma ReadsBaked(machine: u16, s: Section, k: nat, a: i64)
    requires Supported(machine, s.relocs) && k < |s.relocs|
    ensures Supported(machine, WithAddend(s, k, a).relocs) && Supported(machine, s.relocs[..k])
    ensures Supported(machine, s.relocs[k + 1..])
    ensures var r, t := s.relocs[k], RelocType(machine, s.relocs[k].kind).value;
            var n, v := AddendSize(t), BakedAddend(machine, t, a);
            AddendReads(machine, WithAddend(s, k, a), k) <==>
            Holds(Baked(s.code, AddendWrites(machine, s.relocs[..k]), r.offset, n, v,
                        AddendWrites(machine, s.relocs[k + 1..])), r.offset, n, v)
  {
    BakedWith(machine, s, k, a);
  }

  lemma BiasIs(machine: u16, t: nat, a: int)
    ensures BakedAddend(machine, t, a) == a + BakedAddend(machine, t, 0) && 0 <= BakedAddend(machine, t, 0) <= 4
  {
  }

  lemma AddendLost(machine: u16, s: Section, k: nat) returns (a: i64)
    requires Supported(machine, s.relocs) && k < |s.relocs|
    requires !(InRange(AddendWrite(machine, s.relocs[k]), |s.code|) && SparedByLater(machine, s, k))
    ensures Supported(machine, WithAddend(s, k, a).relocs) && !AddendReads(machine, WithAddend(s, k, a), k)
  {
    var r, t := s.relocs[k], RelocType(machine, s.relocs[k].kind).value;
    var n, bias := AddendSize(t), BakedAddend(machine, t, 0);
    ReadsBaked(machine, s, k, 0);
    SparedTail(machine, s, k, n);
    WritesNotEmpty(machine, s.relocs[k + 1..]);
    var p := BakedLost(s.code, AddendWrites(machine, s.relocs[..k]), r.offset, n,
                       AddendWrites(machine, s.relocs[k + 1..]));
    Pow256Below(p);
    var one, two := Pow256(p) - bias, 2 * Pow256(p) - bias;
    BiasIs(machine, t, one);
    BiasIs(machine, t, two);
    ReadsBaked(machine, s, k, one);
    ReadsBaked(machine, s, k, two);
    a := if AddendReads(machine, WithAddend(s, k, one), k) then two else one;
  }

  lemma TargetedWith(machine: u16, t: Tables, s: Section, k: nat, a: i64)
    requires AllTargeted(machine, t, s.relocs) && k < |s.relocs|
    ensures AllTargeted(machine, t, WithAddend(s, k, a).relocs)
  {
    forall i | 0 <= i < |s.relocs| ensures Targeted(machine, t, WithAddend(s, k, a).relocs[i]) {
      assert Targeted(machine, t, s.relocs[i]);
    }
  }

  /** The bytes an addend is written as: four, or eight for 64-bit absolute relocations and
      also, on ARM64, for 32-bit ones. */
  function AddendBytes(machine: nat, k: RelocKind): nat {
    if k == Abs64 || (machine == 0xAA64 && k == Abs32) then 8 else 4
  }

  /** What REL32 counts from the end of its field. */
  function Bias(machine: nat, k: RelocKind): nat { if machine == 0x8664 && k in {PCRel32, PLT32} then 4 else 0 }

  lemma WrittenAs(machine: u16, k: RelocKind, a: int)
    requires RelocType(machine, k).Some?
    ensures AddendSize(RelocType(machine, k).value) == AddendBytes(machine, k)
    ensures BakedAddend(machine, RelocType(machine, k).value, a) == a + Bias(machine, k)
  {
  }

  lemma ReadBackIs(machine: u16, t: Tables, s: Section, k: nat)
    requires AllTargeted(machine, t, s.relocs) && !BssLike(s) && k < |s.relocs|
    ensures Supported(machine, s.relocs) && (AddendReadBack(machine, t, s, k) <==> AddendReads(machine, s, k))
  {
    WrittenAs(machine, s.relocs[k].kind, s.relocs[k].addend);
  }

  /** The recovered bytes of s give the addend of relocation k back. */
  predicate AddendReadBack(machine: u16, t: Tables, s: Section, k: nat)
    requires AllTargeted(machine, t, s.relocs) && k < |s.relocs|
  {
    var r := s.relocs[k];
    Holds(SectionViewOf(machine, t, s).data, r.offset, AddendBytes(machine, r.kind), r.addend + Bias(machine, r.kind))
  }

  /** An addend can be read back from the file, whatever its value, exactly if it is
      written inside the section's bytes and no later relocation writes over it.  (For
      AMD64's REL32 what is read is the addend plus four.) */
  lemma AddendRecovered(machine: u16, t: Tables, s: Section, k: nat)
    requires AllTargeted(machine, t, s.relocs) && !BssLike(s) && k < |s.relocs|
    ensures forall a: i64 :: AllTargeted(machine, t, WithAddend(s, k, a).relocs)
    ensures (forall a: i64 :: AddendReadBack(machine, t, WithAddend(s, k, a), k))
            <==> InRange(AddendWrite(machine, s.relocs[k]), |s.code|) && SparedByLater(machine, s, k)
  {
    forall a: i64 ensures AllTargeted(machine, t, WithAddend(s, k, a).relocs) { TargetedWith(machine, t, s, k, a); }
    if InRange(AddendWrite(machine, s.relocs[k]), |s.code|) && SparedByLater(machine, s, k) {
      forall a: i64 ensures AddendReadBack(machine, t, WithAddend(s, k, a), k) {
        AddendKept(machine, s, k, a);
        ReadBackIs(machine, t, WithAddend(s, k, a), k);
      }
    } else {
      var a := AddendLost(machine, s, k);
      ReadBackIs(machine, t, WithAddend(s, k, a), k);
    }
  }
}
