/** The offset prediction loop that the COFF and the Mach-O writer share in shape: each
    section is aligned and placed behind its predecessor, and sections without file bytes
    are skipped. */
module Layout {
  import opened Bytes
  import opened Bits

  datatype Extent = Extent(skip: bool, align: nat, size: nat)

  /** The position after the first k sections. */
  function Pos(start: nat, es: seq<Extent>, k: nat): nat
    requires k <= |es|
  {
    if k == 0 then start
    else if es[k - 1].skip then Pos(start, es, k - 1)
    else AlignUp(Pos(start, es, k - 1), es[k - 1].align) + es[k - 1].size
  }

  /** Where section k starts; zero if it is skipped. */
  function Off(start: nat, es: seq<Extent>, k: nat): nat
    requires k < |es|
  {
    if es[k].skip then 0 else AlignUp(Pos(start, es, k), es[k].align)
  }

  /** ds are the bytes of the sections that es predicts. */
  predicate Sized(es: seq<Extent>, ds: seq<seq<byte>>) {
    |ds| == |es| && forall k | 0 <= k < |es| && !es[k].skip :: |ds[k]| == es[k].size
  }

  function Chunks(start: nat, es: seq<Extent>, ds: seq<seq<byte>>, k: nat): seq<Placement>
    requires k <= |es| == |ds|
  {
    if k == 0 then []
    else if es[k - 1].skip then Chunks(start, es, ds, k - 1)
    else Chunks(start, es, ds, k - 1) + [Placement(Off(start, es, k - 1), ds[k - 1])]
  }

  lemma PosStep(start: nat, es: seq<Extent>, k: nat)
    requires k < |es|
    ensures Pos(start, es, k) <= Pos(start, es, k + 1)
    ensures !es[k].skip ==>
              Pos(start, es, k) <= Off(start, es, k) && Pos(start, es, k + 1) == Off(start, es, k) + es[k].size
  {
    AlignUpBounds(Pos(start, es, k), es[k].align);
  }

  lemma {:induction false} PosMonotone(start: nat, es: seq<Extent>, j: nat, k: nat)
    requires j <= k <= |es|
    ensures start <= Pos(start, es, j) <= Pos(start, es, k)
    decreases k
  {
    if j < k {
      PosMonotone(start, es, j, k - 1);
      PosStep(start, es, k - 1);
    } else if k > 0 {
      PosMonotone(start, es, k - 1, k - 1);
      PosStep(start, es, k - 1);
    }
  }

  lemma AppendOrdered(start: nat, ps: seq<Placement>, p: Placement)
    requires Ordered(start, ps) && End(start, ps) <= p.off
    ensures Ordered(start, ps + [p]) && End(start, ps + [p]) == p.off + |p.data|
  {
    assert (ps + [p])[..|ps|] == ps;
  }

  /** The layout loop predicts where the writing loop gets to: chunks never overlap and
      the last one ends at the predicted position. */
  lemma {:induction false} ChunksLaid(start: nat, es: seq<Extent>, ds: seq<seq<byte>>, k: nat)
    requires Sized(es, ds) && k <= |es|
    ensures Ordered(start, Chunks(start, es, ds, k))
    ensures End(start, Chunks(start, es, ds, k)) == Pos(start, es, k)
  {
    if k > 0 {
      ChunksLaid(start, es, ds, k - 1);
      if !es[k - 1].skip {
        PosStep(start, es, k - 1);
        AppendOrdered(start, Chunks(start, es, ds, k - 1), Placement(Off(start, es, k - 1), ds[k - 1]));
      }
    }
  }

  lemma {:induction false} ChunkAmong(start: nat, es: seq<Extent>, ds: seq<seq<byte>>, n: nat, k: nat)
    requires k < n <= |es| == |ds| && !es[k].skip
    ensures Placement(Off(start, es, k), ds[k]) in Chunks(start, es, ds, n)
  {
    var here := Chunks(start, es, ds, n);
    if k < n - 1 {
      ChunkAmong(start, es, ds, n - 1, k);
      assert Chunks(start, es, ds, n - 1) <= here;
    } else {
      assert here[|here| - 1] == Placement(Off(start, es, k), ds[k]);
    }
  }

  /** One turn of the writing loop. */
  lemma EmitStep(b: seq<byte>, start: nat, es: seq<Extent>, ds: seq<seq<byte>>, k: nat)
    requires k < |es| == |ds|
    ensures Emit(b, Chunks(start, es, ds, k + 1)) ==
            if es[k].skip then Emit(b, Chunks(start, es, ds, k))
            else PadTo(Emit(b, Chunks(start, es, ds, k)), Off(start, es, k)) + ds[k]
  {
    if !es[k].skip { EmitSnoc(b, Chunks(start, es, ds, k), Placement(Off(start, es, k), ds[k])); }
  }

  lemma EmittedAt(b: seq<byte>, ps: seq<Placement>, p: Placement)
    requires Ordered(|b|, ps) && p in ps
    ensures At(Emit(b, ps), p.off, p.data)
  {
    EmitPlaces(b, ps);
  }

  /** Section starts are aligned to every power-of-two alignment, and the padding in front
      of a section is shorter than its alignment. */
  lemma Aligned(start: nat, es: seq<Extent>, k: nat)
    requires k < |es| && !es[k].skip && es[k].align >= 1
    ensures IsPow2(es[k].align) ==> Off(start, es, k) % es[k].align == 0
    ensures Pos(start, es, k) <= Off(start, es, k) < Pos(start, es, k) + es[k].align
  {
    AlignUpBounds(Pos(start, es, k), es[k].align);
    if IsPow2(es[k].align) { AlignUpLeast(Pos(start, es, k), es[k].align, 0); }
  }

  /** Sections with file bytes never overlap, for any alignments. */
  lemma Disjoint(start: nat, es: seq<Extent>, j: nat, k: nat)
    requires j < k < |es| && !es[j].skip && !es[k].skip
    ensures start <= Off(start, es, j)
    ensures Off(start, es, j) + es[j].size <= Off(start, es, k)
    ensures Off(start, es, k) + es[k].size <= Pos(start, es, |es|)
  {
    PosMonotone(start, es, j, j);
    PosStep(start, es, j);
    PosMonotone(start, es, j + 1, k);
    PosStep(start, es, k);
    PosMonotone(start, es, k + 1, |es|);
  }
}
