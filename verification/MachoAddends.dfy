/** When the addends of Mach-O relocations, which the format has no field for, can be read
    back from the bytes they are baked into. */
module MachoAddends {
  import opened Bytes
  import opened Objects
  import opened Patch
  import opened MachoFormat
  import opened MachoSpec
  import opened MachoRoundTrip

  /** Section s with addend a in its k-th relocation. */
  function WithAddend(s: Section, k: nat, a: i64): Section
    requires k < |s.relocs|
  {
    s.(relocs := s.relocs[k := s.relocs[k].(addend := a)])
  }

  lemma {:induction false} AddendWritesAppend(cpu: u32, a: seq<Reloc>, b: seq<Reloc>)
    requires Supported(cpu, a + b)
    ensures Supported(cpu, a) && Supported(cpu, b)
    ensures AddendWrites(cpu, a + b) == AddendWrites(cpu, a) + AddendWrites(cpu, b)
  {
    assert forall i | 0 <= i < |a| :: (a + b)[i] == a[i];
    assert forall i | 0 <= i < |b| :: (a + b)[|a| + i] == b[i];
    if b == [] {
      assert a + b == a;
    } else {
      assert (a + b)[..|a + b| - 1] == a + b[..|b| - 1];
      AddendWritesAppend(cpu, a, b[..|b| - 1]);
    }
  }

  lemma AddendWritesSplit(cpu: u32, rs: seq<Reloc>, k: nat, r: Reloc)
    requires Supported(cpu, rs) && k < |rs| && Describe(cpu, r.kind).Some?
    ensures Supported(cpu, rs[k := r]) && Supported(cpu, rs[..k]) && Supported(cpu, rs[k + 1..])
    ensures AddendWrites(cpu, rs[k := r])
            == AddendWrites(cpu, rs[..k]) + (if r.addend == 0 then [] else [AddendWrite(cpu, r)])
               + AddendWrites(cpu, rs[k + 1..])
  {
    assert rs[k := r] == rs[..k] + [r] + rs[k + 1..];
    AddendWritesAppend(cpu, rs[..k] + [r], rs[k + 1..]);
    AddendWritesAppend(cpu, rs[..k], [r]);
    assert [r][..0] == [];
  }

  lemma {:induction false} AddendWritesAre(cpu: u32, rs: seq<Reloc>, w: Write)
    requires Supported(cpu, rs)
    ensures w in AddendWrites(cpu, rs) <==>
            exists j :: 0 <= j < |rs| && rs[j].addend != 0 && w == AddendWrite(cpu, rs[j])
  {
    if rs != [] {
      var front := rs[..|rs| - 1];
      AddendWritesAre(cpu, front, w);
      if j :| 0 <= j < |rs| && rs[j].addend != 0 && w == AddendWrite(cpu, rs[j]) && j < |front| {
        assert front[j] == rs[j];
      }
      if j :| 0 <= j < |front| && front[j].addend != 0 && w == AddendWrite(cpu, front[j]) {
        assert rs[j] == front[j];
      }
    }
  }

  /** Writes the addend of r over that of k. */
  predicate Overwrites(cpu: u32, size: nat, r: Reloc, k: Reloc)
    requires Describe(cpu, r.kind).Some? && Describe(cpu, k.kind).Some?
  {
    r.addend != 0 && InRange(AddendWrite(cpu, r), size) && !Apart(AddendWrite(cpu, r), AddendWrite(cpu, k))
  }

  predicate SparedBy(cpu: u32, size: nat, rs: seq<Reloc>, k: Reloc)
    requires Supported(cpu, rs) && Describe(cpu, k.kind).Some?
  {
    forall j | 0 <= j < |rs| :: !Overwrites(cpu, size, rs[j], k)
  }

  lemma SparedIs(cpu: u32, size: nat, rs: seq<Reloc>, k: Reloc, n: nat)
    requires Supported(cpu, rs) && Describe(cpu, k.kind).Some? && n == AddendSize(Describe(cpu, k.kind).value)
    ensures Spared(AddendWrites(cpu, rs), size, Write(k.offset, LE(n, 0))) <==> SparedBy(cpu, size, rs, k)
  {
    var ws, site := AddendWrites(cpu, rs), Write(k.offset, LE(n, 0));
    if SparedBy(cpu, size, rs, k) {
      forall i | 0 <= i < |ws| && InRange(ws[i], size) ensures Apart(ws[i], site) {
        AddendWritesAre(cpu, rs, ws[i]);
        var j :| 0 <= j < |rs| && rs[j].addend != 0 && ws[i] == AddendWrite(cpu, rs[j]);
        assert !Overwrites(cpu, size, rs[j], k);
      }
    }
    if Spared(ws, size, site) {
      forall j | 0 <= j < |rs| ensures !Overwrites(cpu, size, rs[j], k) {
        AddendWritesAre(cpu, rs, AddendWrite(cpu, rs[j]));
      }
    }
  }

  /** The field of relocation k in the patched bytes of s reads as its addend. */
  predicate AddendReads(cpu: u32, s: Section, k: nat)
    requires Supported(cpu, s.relocs) && k < |s.relocs|
  {
    var r := s.relocs[k];
    Holds(PatchedCode(cpu, s), r.offset, AddendSize(Describe(cpu, r.kind).value), r.addend)
  }

  lemma BakedWith(cpu: u32, s: Section, k: nat, a: i64)
    requires Supported(cpu, s.relocs) && k < |s.relocs| && a != 0
    ensures Supported(cpu, WithAddend(s, k, a).relocs)
    ensures Supported(cpu, s.relocs[..k]) && Supported(cpu, s.relocs[k + 1..])
    ensures var r, n := s.relocs[k], AddendSize(Describe(cpu, s.relocs[k].kind).value);
            AddendReads(cpu, WithAddend(s, k, a), k) <==>
            Holds(Baked(s.code, AddendWrites(cpu, s.relocs[..k]), r.offset, n, a,
                        AddendWrites(cpu, s.relocs[k + 1..])), r.offset, n, a)
  {
    AddendWritesSplit(cpu, s.relocs, k, s.relocs[k].(addend := a));
  }

  lemma {:induction false} WritesNotEmpty(cpu: u32, rs: seq<Reloc>)
    requires Supported(cpu, rs)
    ensures forall i | 0 <= i < |AddendWrites(cpu, rs)| :: AddendWrites(cpu, rs)[i].data != []
  {
    if rs != [] { WritesNotEmpty(cpu, rs[..|rs| - 1]); }
  }

  /** The addend of relocation k is written inside the bytes, and not written over. */
  predicate Lasting(cpu: u32, s: Section, k: nat)
    requires Supported(cpu, s.relocs) && k < |s.relocs|
  {
    && InRange(AddendWrite(cpu, s.relocs[k]), |s.code|)
    && forall j | k < j < |s.relocs| :: !Overwrites(cpu, |s.code|, s.relocs[j], s.relocs[k])
  }

  lemma LastingIs(cpu: u32, s: Section, k: nat, n: nat)
    requires Supported(cpu, s.relocs) && k < |s.relocs|
    requires n == AddendSize(Describe(cpu, s.relocs[k].kind).value)
    ensures Supported(cpu, s.relocs[k + 1..])
    ensures Lasting(cpu, s, k) <==> Survives(s.code, s.relocs[k].offset, n, AddendWrites(cpu, s.relocs[k + 1..]))
  {
    var tail, r := s.relocs[k + 1..], s.relocs[k];
    SparedIs(cpu, |s.code|, tail, r, n);
    if Lasting(cpu, s, k) {
      forall j | 0 <= j < |tail| ensures !Overwrites(cpu, |s.code|, tail[j], r) {
        assert !Overwrites(cpu, |s.code|, s.relocs[k + 1 + j], r);
      }
    }
    if SparedBy(cpu, |s.code|, tail, r) {
      forall j | k < j < |s.relocs| ensures !Overwrites(cpu, |s.code|, s.relocs[j], r) {
        assert !Overwrites(cpu, |s.code|, tail[j - k - 1], r);
      }
    }
  }

  lemma AddendKept(cpu: u32, s: Section, k: nat, a: i64)
    requires Supported(cpu, s.relocs) && k < |s.relocs| && a != 0 && Lasting(cpu, s, k)
    ensures Supported(cpu, WithAddend(s, k, a).relocs) && AddendReads(cpu, WithAddend(s, k, a), k)
  {
    var r, n := s.relocs[k], AddendSize(Describe(cpu, s.relocs[k].kind).value);
    BakedWith(cpu, s, k, a);
    LastingIs(cpu, s, k, n);
    BakedHolds(s.code, AddendWrites(cpu, s.relocs[..k]), r.offset, n, a, AddendWrites(cpu, s.relocs[k + 1..]));
  }

  lemma AddendLost(cpu: u32, s: Section, k: nat) returns (a: i64)
    requires Supported(cpu, s.relocs) && k < |s.relocs| && !Lasting(cpu, s, k)
    ensures a != 0 && Supported(cpu, WithAddend(s, k, a).relocs) && !AddendReads(cpu, WithAddend(s, k, a), k)
  {
    var r, n := s.relocs[k], AddendSize(Describe(cpu, s.relocs[k].kind).value);
    BakedWith(cpu, s, k, 1);
    LastingIs(cpu, s, k, n);
    WritesNotEmpty(cpu, s.relocs[k + 1..]);
    var p := BakedLost(s.code, AddendWrites(cpu, s.relocs[..k]), r.offset, n, AddendWrites(cpu, s.relocs[k + 1..]));
    Pow256Below(p);
    var one, two := Pow256(p), 2 * Pow256(p);
    BakedWith(cpu, s, k, one);
    BakedWith(cpu, s, k, two);
    a := if AddendReads(cpu, WithAddend(s, k, one), k) then two else one;
  }

  // ---------------------------------------------------------------- the recovered bytes

  lemma ResolvableWith(x: Input, t: Tables, s: Section, k: nat, a: i64)
    requires AllResolvable(x.cpu, t.rows, t.index, s.relocs) && k < |s.relocs|
    ensures AllResolvable(x.cpu, t.rows, t.index, WithAddend(s, k, a).relocs)
  {
    forall i | 0 <= i < |s.relocs| ensures Resolvable(x.cpu, t.rows, t.index, WithAddend(s, k, a).relocs[i]) {
      assert Resolvable(x.cpu, t.rows, t.index, s.relocs[i]);
    }
  }

  /** The bytes an addend is written as. */
  function AddendBytes(k: RelocKind): nat { if k == Abs64 then 8 else 4 }

  lemma WrittenAs(cpu: u32, k: RelocKind)
    requires Describe(cpu, k).Some?
    ensures AddendSize(Describe(cpu, k).value) == AddendBytes(k)
  {
  }

  lemma ReadBackIs(x: Input, t: Tables, s: Section, k: nat)
    requires Named(s) && AllResolvable(x.cpu, t.rows, t.index, s.relocs) && !IsZerofill(s) && k < |s.relocs|
    ensures Supported(x.cpu, s.relocs) && (AddendReadBack(x, t, s, k) <==> AddendReads(x.cpu, s, k))
  {
    assert Resolvable(x.cpu, t.rows, t.index, s.relocs[k]);
    WrittenAs(x.cpu, s.relocs[k].kind);
  }

  /** The recovered bytes of s give the addend of relocation k back. */
  predicate AddendReadBack(x: Input, t: Tables, s: Section, k: nat)
    requires Named(s) && AllResolvable(x.cpu, t.rows, t.index, s.relocs) && k < |s.relocs|
  {
    var r := s.relocs[k];
    Holds(SectionViewOf(x, t, s).data, r.offset, AddendBytes(r.kind), r.addend)
  }

  /** A non-zero addend can be read back from the file, whatever its value, exactly if it is
      written inside the section's bytes and no later baking relocation writes over it. */
  lemma AddendRecovered(x: Input, t: Tables, s: Section, k: nat)
    requires Named(s) && AllResolvable(x.cpu, t.rows, t.index, s.relocs) && !IsZerofill(s) && k < |s.relocs|
    ensures forall a: i64 :: AllResolvable(x.cpu, t.rows, t.index, WithAddend(s, k, a).relocs)
    ensures (forall a: i64 | a != 0 :: AddendReadBack(x, t, WithAddend(s, k, a), k)) <==> Lasting(x.cpu, s, k)
  {
    forall a: i64 ensures AllResolvable(x.cpu, t.rows, t.index, WithAddend(s, k, a).relocs) {
      ResolvableWith(x, t, s, k, a);
    }
    if Lasting(x.cpu, s, k) {
      forall a: i64 | a != 0 ensures AddendReadBack(x, t, WithAddend(s, k, a), k) {
        AddendKept(x.cpu, s, k, a);
        ReadBackIs(x, t, WithAddend(s, k, a), k);
      }
    } else {
      var a := AddendLost(x.cpu, s, k);
      ReadBackIs(x, t, WithAddend(s, k, a), k);
    }
  }

  lemma UntouchedField(cpu: u32, s: Section, k: nat)
    requires Supported(cpu, s.relocs) && k < |s.relocs| && SparedBy(cpu, |s.code|, s.relocs, s.relocs[k])
    ensures var r, n := s.relocs[k], AddendSize(Describe(cpu, s.relocs[k].kind).value);
            Sub(PatchedCode(cpu, s), r.offset, n) == Sub(s.code, r.offset, n)
  {
    var r, n := s.relocs[k], AddendSize(Describe(cpu, s.relocs[k].kind).value);
    SparedIs(cpu, |s.code|, s.relocs, r, n);
    SparedKeeps(s.code, AddendWrites(cpu, s.relocs), Write(r.offset, LE(n, 0)));
  }

  /** A zero addend is not written: where no other relocation writes over its field, it is
      read back exactly if the field lies inside the section's bytes and they are zero there. */
  lemma ZeroRecovered(x: Input, t: Tables, s: Section, k: nat)
    requires Named(s) && AllResolvable(x.cpu, t.rows, t.index, s.relocs) && !IsZerofill(s) && k < |s.relocs|
    requires s.relocs[k].addend == 0 && Supported(x.cpu, s.relocs)
    requires SparedBy(x.cpu, |s.code|, s.relocs, s.relocs[k])
    ensures var r, n := s.relocs[k], AddendBytes(s.relocs[k].kind);
            AddendReadBack(x, t, s, k) <==> r.offset + n <= |s.code| && s.code[r.offset..r.offset + n] == Zeros(n)
  {
    var r, n := s.relocs[k], AddendBytes(s.relocs[k].kind);
    WrittenAs(x.cpu, r.kind);
    ReadBackIs(x, t, s, k);
    UntouchedField(x.cpu, s, k);
    if r.offset + n <= |s.code| {
      FieldValue(s.code[r.offset..r.offset + n], 0);
      ZeroBytes(n);
    }
  }

  lemma {:induction false} ZeroBytes(n: nat)
    ensures LE(n, 0) == Zeros(n)
  {
    if n > 0 {
      ZeroBytes(n - 1);
      assert Zeros(n) == [0] + Zeros(n - 1);
    }
  }
}
