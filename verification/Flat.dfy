/** Raw images: sections one after the other, each padded at its end to its own alignment. */
module Flat {
  import opened Arith
  import opened Bytes
  import opened Objects
  import opened Output

  datatype Error = RelocationsPresent(sec: nat, n: nat)

  // ------------------------------------------------------------------ the image

  /** A section's own bytes: BSS is as many zeros as its virtual size. */
  function Content(s: Section): seq<byte> { if s.kind == BSS then Zeros(s.vsize) else s.code }

  /** size rounded up to a multiple of align; alignments up to 1 and empty contents add nothing. */
  function PaddedLen(size: nat, align: nat): (n: nat)
    ensures size <= n
  {
    if size == 0 || align <= 1 || size % align == 0 then size else size + align - size % align
  }

  function Chunk(s: Section): seq<byte> {
    PadTo(Content(s), PaddedLen(|Content(s)|, s.align))
  }

  function Image(secs: seq<Section>): seq<byte> {
    if secs == [] then [] else Image(secs[..|secs| - 1]) + Chunk(secs[|secs| - 1])
  }

  function FirstRelocated(secs: seq<Section>, n: nat): Option<Error>
    requires n <= |secs|
  {
    if n == 0 then None else
    var before := FirstRelocated(secs, n - 1);
    if before.Some? then before
    else if secs[n - 1].relocs != [] then Some(RelocationsPresent(n - 1, |secs[n - 1].relocs|))
    else None
  }

  // ------------------------------------------------------------------ the writer

  /** sectionChunk: the contents, copied into a zeroed buffer if they need padding. */
  method SectionChunk(s: Section) returns (chunk: seq<byte>)
    ensures chunk == Chunk(s)
  {
    var raw: seq<byte>;
    if s.kind == BSS {
      if s.vsize == 0 { return []; }
      raw := Zeros(s.vsize);
    } else {
      if |s.code| == 0 { return []; }
      raw := s.code;
    }
    if s.align <= 1 { return raw; }
    var rem := |raw| % s.align;
    if rem == 0 { return raw; }
    var padded := new byte[|raw| + s.align - rem](_ => 0);
    for k := 0 to |raw|
      invariant forall i | 0 <= i < k :: padded[i] == raw[i]
      invariant forall i | k <= i < padded.Length :: padded[i] == 0
    {
      padded[k] := raw[k];
    }
    chunk := padded[..];
    assert chunk == raw + Zeros(s.align - rem);
  }

  lemma {:induction false} RelocatedSticks(secs: seq<Section>, i: nat, n: nat)
    requires i <= n <= |secs| && FirstRelocated(secs, i).Some?
    ensures FirstRelocated(secs, n) == FirstRelocated(secs, i)
  {
    if i < n { RelocatedSticks(secs, i, n - 1); }
  }

  lemma ImageStep(start: seq<byte>, secs: seq<Section>, i: nat)
    requires i < |secs|
    ensures start + Image(secs[..i + 1]) == (start + Image(secs[..i])) + Chunk(secs[i])
    ensures Chunk(secs[i]) == [] ==> Image(secs[..i + 1]) == Image(secs[..i])
    ensures |Image(secs[..i + 1])| == |Image(secs[..i])| + |Chunk(secs[i])|
  {
    assert secs[..i + 1][..i] == secs[..i];
  }

  /** flat.File: accumulates sections and concatenates them. */
  class File {
    var sections: seq<Section>

    constructor ()
      ensures sections == []
    {
      sections := [];
    }

    method AddSection(s: Section)
      modifies this`sections
      ensures sections == old(sections) + [s]
    {
      sections := sections + [s];
    }

    /** Rejects relocations before anything is written. */
    method CheckRelocations() returns (e: Option<Error>)
      ensures e == FirstRelocated(sections, |sections|)
    {
      for i := 0 to |sections|
        invariant FirstRelocated(sections, i).None?
      {
        if |sections[i].relocs| > 0 {
          RelocatedSticks(sections, i + 1, |sections|);
          return Some(RelocationsPresent(i, |sections[i].relocs|));
        }
      }
      e := None;
    }

    /** WriteTo: on success the image is appended to out and its length returned; on failure
        out is as it was. */
    method WriteTo(out: Buffer) returns (r: Result<nat, Error>)
      modifies out
      ensures r.Err? ==> FirstRelocated(sections, |sections|) == Some(r.error) && out.data == old(out.data)
      ensures r.Ok? ==> FirstRelocated(sections, |sections|).None? && r.value == |Image(sections)|
      ensures r.Ok? ==> out.data == old(out.data) + Image(sections)
    {
      var e := CheckRelocations();
      if e.Some? { return Err(e.value); }
      var total := 0;
      ghost var start := out.data;
      assert start + [] == start;
      for i := 0 to |sections|
        invariant out.data == start + Image(sections[..i]) && total == |Image(sections[..i])|
      {
        ImageStep(start, sections, i);
        var chunk := SectionChunk(sections[i]);
        if |chunk| == 0 { continue; }
        out.Write(chunk);
        total := total + |chunk|;
      }
      assert sections[..|sections|] == sections;
      r := Ok(total);
    }

    method Serialize() returns (r: Result<seq<byte>, Error>)
      ensures r == match FirstRelocated(sections, |sections|)
                   case Some(e) => Err(e)
                   case None => Ok(Image(sections))
    {
      var out := new Buffer();
      var n := WriteTo(out);
      match n {
        case Err(e) => r := Err(e);
        case Ok(_) =>
          assert [] + Image(sections) == Image(sections);
          r := Ok(out.data);
      }
    }
  }

  // ------------------------------------------------------------------- properties

  lemma {:induction false} FailsIff(secs: seq<Section>, n: nat)
    requires n <= |secs|
    ensures FirstRelocated(secs, n).Some? <==> exists i :: 0 <= i < n && secs[i].relocs != []
  {
    if n > 0 { FailsIff(secs, n - 1); }
  }

  /** The error names the first section that has relocations, and how many it has. */
  lemma {:induction false} ErrorReported(secs: seq<Section>, n: nat)
    requires n <= |secs| && FirstRelocated(secs, n).Some?
    ensures var e := FirstRelocated(secs, n).value;
            && e.sec < n && e.n == |secs[e.sec].relocs| > 0
            && forall i | 0 <= i < e.sec :: secs[i].relocs == []
  {
    if FirstRelocated(secs, n - 1).Some? { ErrorReported(secs, n - 1); } else { FailsIff(secs, n - 1); }
  }

  /** Where section k starts, from sizes and alignments alone. */
  function Offset(sizes: seq<nat>, aligns: seq<nat>, k: nat): nat
    requires |sizes| == |aligns| && k <= |sizes|
  {
    if k == 0 then 0 else Offset(sizes, aligns, k - 1) + PaddedLen(sizes[k - 1], aligns[k - 1])
  }

  function Sizes(secs: seq<Section>): (ns: seq<nat>)
    ensures |ns| == |secs| && forall k | 0 <= k < |secs| :: ns[k] == |Content(secs[k])|
  {
    seq(|secs|, k requires 0 <= k < |secs| => |Content(secs[k])|)
  }

  function Aligns(secs: seq<Section>): (ns: seq<nat>)
    ensures |ns| == |secs| && forall k | 0 <= k < |secs| :: ns[k] == secs[k].align
  {
    seq(|secs|, k requires 0 <= k < |secs| => secs[k].align)
  }

  lemma {:induction false} PrefixLength(secs: seq<Section>, k: nat)
    requires k <= |secs|
    ensures |Image(secs[..k])| == Offset(Sizes(secs), Aligns(secs), k)
  {
    if k > 0 {
      PrefixLength(secs, k - 1);
      assert secs[..k][..k - 1] == secs[..k - 1];
    }
  }

  lemma {:induction false} PrefixOf(secs: seq<Section>, k: nat)
    requires k <= |secs|
    ensures Image(secs[..k]) <= Image(secs)
    decreases |secs| - k
  {
    if k < |secs| {
      PrefixOf(secs, k + 1);
      assert secs[..k + 1][..k] == secs[..k];
    } else {
      assert secs[..k] == secs;
    }
  }

  /** The image is the sections' contents in order, each at its predicted offset, with only
      zeros between the end of a section and the start of the next. */
  lemma ImageHolds(secs: seq<Section>, k: nat)
    requires k < |secs|
    ensures var off, next := Offset(Sizes(secs), Aligns(secs), k), Offset(Sizes(secs), Aligns(secs), k + 1);
            && At(Image(secs), off, if secs[k].kind == BSS then Zeros(secs[k].vsize) else secs[k].code)
            && At(Image(secs), off, Content(secs[k])) && next <= |Image(secs)|
            && forall x | off + |Content(secs[k])| <= x < next :: Image(secs)[x] == 0
  {
    var front, here := Image(secs[..k]), Image(secs[..k + 1]);
    PrefixLength(secs, k);
    PrefixLength(secs, k + 1);
    PrefixOf(secs, k + 1);
    assert secs[..k + 1][..k] == secs[..k];
    ChunkHolds(front, secs[k]);
    AtPrefix(here, |front|, Content(secs[k]), Image(secs));
  }

  lemma ChunkHolds(front: seq<byte>, s: Section)
    ensures At(front + Chunk(s), |front|, Content(s))
    ensures forall x | |front| + |Content(s)| <= x < |front + Chunk(s)| :: (front + Chunk(s))[x] == 0
  {
    AtEnd(front, Chunk(s));
    assert At(Chunk(s), 0, Content(s));
    AtWithin(front + Chunk(s), |front|, Chunk(s), 0, Content(s));
  }

  /** The whole image, and nothing else: its length is where a further section would start. */
  lemma ImageLength(secs: seq<Section>)
    ensures |Image(secs)| == Offset(Sizes(secs), Aligns(secs), |secs|)
  {
    PrefixLength(secs, |secs|);
    assert secs[..|secs|] == secs;
  }

  // -------------------------------------------------------------------- alignment

  /** Alignments 0 and 1 ask for nothing. */
  function Step(align: nat): (a: nat)
    ensures a >= 1
  {
    if align == 0 then 1 else align
  }

  predicate Divides(a: nat, b: nat)
    requires a >= 1
  {
    b % a == 0
  }

  lemma PaddedMultiple(size: nat, align: nat)
    ensures Divides(Step(align), PaddedLen(size, align))
  {
    if align >= 1 && size > 0 && size % align != 0 {
      DivModUnique(size + align - size % align, align, size / align + 1, 0);
    } else if size == 0 {
      DivModUnique(0, Step(align), 0, 0);
    }
  }

  lemma TimesGrows(a: nat, p: nat, q: nat)
    ensures p <= q ==> a * p <= a * q
  {
    if p <= q { assert a * q == a * p + a * (q - p); }
  }

  lemma MultipleAbove(a: nat, q: nat, rem: nat, m: nat)
    requires 0 < rem < a && a * q + rem <= m && m % a == 0
    ensures a * (q + 1) <= m
  {
    var p := m / a;
    assert m == a * p;
    TimesGrows(a, p, q);
    TimesGrows(a, q + 1, p);
  }

  /** The padded size is the least multiple of the alignment that holds the contents. */
  lemma PaddedLeast(size: nat, align: nat, m: nat)
    requires size <= m && Divides(Step(align), m)
    ensures PaddedLen(size, align) <= m
  {
    if align > 1 && size > 0 && size % align != 0 {
      assert size == align * (size / align) + size % align;
      MultipleAbove(align, size / align, size % align, m);
      assert align * (size / align + 1) == align * (size / align) + align;
    }
  }

  /** There is less padding than one alignment step, and none if the size is a multiple. */
  lemma PaddingShort(size: nat, align: nat)
    ensures size <= PaddedLen(size, align) < size + Step(align)
    ensures Divides(Step(align), size) ==> PaddedLen(size, align) == size
  {
    if Divides(Step(align), size) { PaddedLeast(size, align, size); }
  }

  /** Of the image: fewer zeros than the alignment follow a section's contents. */
  lemma ImagePadding(secs: seq<Section>, k: nat)
    requires k < |secs|
    ensures var s := secs[k];
            var size := if s.kind == BSS then s.vsize else |s.code|;
            var end, next := Offset(Sizes(secs), Aligns(secs), k) + size, Offset(Sizes(secs), Aligns(secs), k + 1);
            && end <= next < end + Step(s.align) && (size % Step(s.align) == 0 ==> next == end)
            && (forall m | size <= m && m % Step(s.align) == 0 :: next <= end - size + m)
  {
    var size := |Content(secs[k])|;
    PaddingShort(size, secs[k].align);
    forall m | size <= m && m % Step(secs[k].align) == 0 ensures PaddedLen(size, secs[k].align) <= m {
      PaddedLeast(size, secs[k].align, m);
    }
  }

  lemma DividesSum(a: nat, x: nat, y: nat)
    requires a >= 1 && Divides(a, x) && Divides(a, y)
    ensures Divides(a, x + y)
  {
    assert x == a * (x / a) && y == a * (y / a);
    assert x + y == a * (x / a + y / a);
    DivModUnique(x + y, a, x / a + y / a, 0);
  }

  lemma DividesTrans(a: nat, b: nat, c: nat)
    requires a >= 1 && b >= 1 && Divides(a, b) && Divides(b, c)
    ensures Divides(a, c)
  {
    var p, q := b / a, c / b;
    assert b == a * p && c == b * q;
    assert c == a * (p * q);
    DivModUnique(c, a, p * q, 0);
  }

  /** Each alignment divides the one before it. */
  predicate Chained(aligns: seq<nat>) {
    forall k | 0 < k < |aligns| :: Divides(Step(aligns[k]), Step(aligns[k - 1]))
  }

  lemma {:induction false} ChainedDivides(aligns: seq<nat>, j: nat, k: nat)
    requires Chained(aligns) && j <= k < |aligns|
    ensures Divides(Step(aligns[k]), Step(aligns[j]))
    decreases k
  {
    if j < k {
      ChainedDivides(aligns, j, k - 1);
      DividesTrans(Step(aligns[k]), Step(aligns[k - 1]), Step(aligns[j]));
    } else {
      DivModUnique(Step(aligns[k]), Step(aligns[k]), 1, 0);
    }
  }

  lemma {:induction false} OffsetMultiple(sizes: seq<nat>, aligns: seq<nat>, k: nat, n: nat)
    requires |sizes| == |aligns| && Chained(aligns) && n <= k < |aligns|
    ensures Divides(Step(aligns[k]), Offset(sizes, aligns, n))
  {
    if n == 0 {
      DivModUnique(0, Step(aligns[k]), 0, 0);
    } else {
      OffsetMultiple(sizes, aligns, k, n - 1);
      PaddedMultiple(sizes[n - 1], aligns[n - 1]);
      ChainedDivides(aligns, n - 1, k);
      DividesTrans(Step(aligns[k]), Step(aligns[n - 1]), PaddedLen(sizes[n - 1], aligns[n - 1]));
      DividesSum(Step(aligns[k]), Offset(sizes, aligns, n - 1), PaddedLen(sizes[n - 1], aligns[n - 1]));
    }
  }

  /** Every section starts at a multiple of its own alignment. */
  predicate StartsAligned(sizes: seq<nat>, aligns: seq<nat>)
    requires |sizes| == |aligns|
  {
    forall k | 0 <= k < |aligns| :: Divides(Step(aligns[k]), Offset(sizes, aligns, k))
  }

  /** Sizes that make only section j non-empty, with one byte. */
  function OneByte(n: nat, j: nat): (sizes: seq<nat>)
    ensures |sizes| == n && forall k | 0 <= k < n :: sizes[k] == if k == j then 1 else 0
  {
    seq(n, k => if k == j then 1 else 0)
  }

  lemma {:induction false} OneByteOffset(aligns: seq<nat>, j: nat, k: nat)
    requires j < |aligns| && k <= |aligns|
    ensures Offset(OneByte(|aligns|, j), aligns, k) == if k <= j then 0 else Step(aligns[j])
  {
    if k > 0 {
      OneByteOffset(aligns, j, k - 1);
      if aligns[j] > 1 { DivModUnique(1, aligns[j], 0, 1); }
    }
  }

  /** Padding only at the tail keeps every section aligned, whatever the section sizes,
      exactly when each alignment divides the one before it. */
  lemma AlignedForAllSizesIff(aligns: seq<nat>)
    ensures (forall sizes: seq<nat> | |sizes| == |aligns| :: StartsAligned(sizes, aligns)) <==> Chained(aligns)
  {
    if Chained(aligns) {
      forall sizes: seq<nat> | |sizes| == |aligns| ensures StartsAligned(sizes, aligns) {
        forall k | 0 <= k < |aligns| ensures Divides(Step(aligns[k]), Offset(sizes, aligns, k)) {
          OffsetMultiple(sizes, aligns, k, k);
        }
      }
    } else {
      var k :| 0 < k < |aligns| && !Divides(Step(aligns[k]), Step(aligns[k - 1]));
      var sizes := OneByte(|aligns|, k - 1);
      OneByteOffset(aligns, k - 1, k);
      assert !Divides(Step(aligns[k]), Offset(sizes, aligns, k));
      assert !StartsAligned(sizes, aligns);
    }
  }

  /** For an image: in a chain of alignments every section's contents start aligned. */
  lemma SectionsAligned(secs: seq<Section>, k: nat)
    requires k < |secs| && Chained(Aligns(secs))
    ensures var off := Offset(Sizes(secs), Aligns(secs), k);
            Divides(Step(secs[k].align), off) && At(Image(secs), off, Content(secs[k]))
  {
    OffsetMultiple(Sizes(secs), Aligns(secs), k, k);
    ImageHolds(secs, k);
  }
}
