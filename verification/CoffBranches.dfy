/** What baking addends does to ARM64 branch instructions: the 26-bit displacement is written
    as a whole word, over the opcode in its top six bits. */
module CoffBranches {
  import opened Bytes
  import opened Objects
  import opened CoffFormat
  import opened CoffSpec
  import opened CoffTables
  import opened CoffTheorems
  import opened CoffAddends

  const ARM64 := MACHINE_ARM64

  predicate IsBranch(r: Reloc) { RelocType(ARM64, r.kind) == Some(REL_ARM64_BRANCH26) }

  /** The instruction word at off, and its top six bits. */
  function Word(code: seq<byte>, off: nat): nat
    requires off + 4 <= |code|
  {
    FromLE(code[off..off + 4])
  }

  function Opcode(code: seq<byte>, off: nat): nat
    requires off + 4 <= |code|
  {
    Word(code, off) / 0x400_0000
  }

  lemma BranchWidth(r: Reloc)
    requires IsBranch(r)
    ensures RelocType(ARM64, r.kind).Some? && AddendSize(REL_ARM64_BRANCH26) == 4
    ensures |AddendWrite(ARM64, r).data| == 4 && AddendWrite(ARM64, r).off == r.offset
    ensures BakedAddend(ARM64, REL_ARM64_BRANCH26, r.addend) == r.addend
  {
  }

  /** The instruction becomes its addend, whatever it was. */
  lemma WordBaked(s: Section, k: nat)
    requires Supported(ARM64, s.relocs) && k < |s.relocs| && IsBranch(s.relocs[k])
    requires s.relocs[k].offset + 4 <= |s.code| && SparedByLater(ARM64, s, k)
    ensures Word(BakedCode(ARM64, s), s.relocs[k].offset) == s.relocs[k].addend % 0x1_0000_0000
  {
    var r := s.relocs[k];
    BranchWidth(r);
    AddendKept(ARM64, s, k, r.addend);
    assert s.relocs[k := r.(addend := r.addend)] == s.relocs;
    assert WithAddend(s, k, r.addend) == s;
    Pow256Values();
  }

  /** A branch keeps its opcode through the file exactly if the addend happens to carry the
      same top six bits.  An addend from 0 to 2^26 - 1 leaves opcode zero, which is no branch. */
  lemma OpcodeKeptIff(secs: seq<Section>, i: nat, k: nat)
    requires Buildable(ARM64, secs) && InBounds(ARM64, secs)
    requires i < |secs| && !BssLike(secs[i]) && k < |secs[i].relocs| && IsBranch(secs[i].relocs[k])
    requires secs[i].relocs[k].offset + 4 <= |secs[i].code|
    requires Supported(ARM64, secs[i].relocs) && SparedByLater(ARM64, secs[i], k)
    ensures var r, o := secs[i].relocs[k], ObjectOfFile(ARM64, secs);
            && i < |o.sections| && |o.sections[i].data| == |secs[i].code|
            && Word(o.sections[i].data, r.offset) == r.addend % 0x1_0000_0000
            && (Opcode(o.sections[i].data, r.offset) == Opcode(secs[i].code, r.offset) <==>
                (r.addend % 0x1_0000_0000) / 0x400_0000 == Opcode(secs[i].code, r.offset))
  {
    RoundTrip(ARM64, secs);
    WordBaked(secs[i], k);
  }
}
