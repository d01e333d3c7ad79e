/** bytes.Buffer as the writers use it: it only ever grows at the end. */
module Output {
  import opened Bytes
  import opened Patch

  class Buffer {
    var data: seq<byte>

    constructor ()
      ensures data == []
    {
      data := [];
    }

    method Write(s: seq<byte>)
      modifies this
      ensures data == old(data) + s
    {
      data := data + s;
    }

    /** One zero byte at a time until the buffer is as long as target. */
    method PadTo(target: nat)
      modifies this
      ensures data == Bytes.PadTo(old(data), target)
    {
      while |data| < target
        invariant old(data) <= data
        invariant |data| <= target || data == old(data)
        invariant forall i | |old(data)| <= i < |data| :: data[i] == 0
      {
        data := data + [0];
      }
    }

    /** Encoded records, one after the other. */
    method WriteTable(records: seq<Record>)
      modifies this
      ensures data == old(data) + Table(records)
    {
      ghost var start := data;
      assert start + [] == start;
      for k := 0 to |records|
        invariant data == start + Table(records[..k])
      {
        TableGrows(start, records, k);
        Write(Join(records[k]));
      }
      assert records[..|records|] == records;
    }

    /** padTo followed by Write. */
    method Place(p: Placement)
      modifies this
      ensures data == Bytes.PadTo(old(data), p.off) + p.data
    {
      PadTo(p.off);
      Write(p.data);
    }
  }

  /** binary.LittleEndian.PutUint16/32/64: overwrites n bytes of a in place. */
  method PutLE(a: array<byte>, off: nat, n: nat, v: int)
    requires off + n <= a.Length
    modifies a
    ensures a[..off] == old(a[..off])
    ensures a[off..off + n] == LE(n, v)
    ensures a[off + n..] == old(a[off + n..])
  {
    var w := LE(n, v);
    for k := 0 to n
      invariant forall i | 0 <= i < a.Length && !(off <= i < off + k) :: a[i] == old(a[i])
      invariant forall i | 0 <= i < k :: a[off + i] == w[i]
    {
      a[off + k] := w[k];
    }
  }

  lemma PatchedArray(a: array<byte>, before: seq<byte>, w: Patch.Write)
    requires |before| == a.Length && InRange(w, a.Length)
    requires a[..w.off] == before[..w.off] && a[w.off..w.off + |w.data|] == w.data
    requires a[w.off + |w.data|..] == before[w.off + |w.data|..]
    ensures a[..] == Splice(before, w)
  {
    assert a[..] == a[..w.off] + a[w.off..w.off + |w.data|] + a[w.off + |w.data|..];
  }

  /** Writes one addend in place, unless it would run past the end of the code. */
  method PatchLE(a: array<byte>, off: nat, size: nat, addend: int, ghost code: seq<byte>, ghost ws: seq<Patch.Write>)
    requires a[..] == Apply(code, ws)
    modifies a
    ensures a[..] == Apply(code, ws + [Patch.Write(off, LE(size, addend))])
  {
    ApplySnoc(code, ws, Patch.Write(off, LE(size, addend)));
    if off + size > a.Length { return; }
    ghost var before := a[..];
    PutLE(a, off, size, addend);
    PatchedArray(a, before, Patch.Write(off, LE(size, addend)));
  }
}
