/** Baking addends into a copy of a section's code: a list of writes, each skipped when it
    would run past the end. */
module Patch {
  import opened Bytes

  datatype Write = Write(off: nat, data: seq<byte>)

  predicate InRange(w: Write, size: nat) { w.off + |w.data| <= size }

  function Splice(code: seq<byte>, w: Write): (r: seq<byte>)
    requires InRange(w, |code|)
    ensures |r| == |code|
  {
    code[..w.off] + w.data + code[w.off + |w.data|..]
  }

  function Apply(code: seq<byte>, ws: seq<Write>): (r: seq<byte>)
    ensures |r| == |code|
  {
    if ws == [] then code else
    var before := Apply(code, ws[..|ws| - 1]);
    if InRange(ws[|ws| - 1], |code|) then Splice(before, ws[|ws| - 1]) else before
  }

  predicate Covers(w: Write, size: nat, x: nat) {
    InRange(w, size) && w.off <= x < w.off + |w.data|
  }

  /** The last write, if any, that is in range and covers position x. */
  function LastCovering(ws: seq<Write>, size: nat, x: nat): (r: Option<nat>)
    ensures r.Some? ==> r.value < |ws| && Covers(ws[r.value], size, x)
  {
    if ws == [] then None
    else if Covers(ws[|ws| - 1], size, x) then Some(|ws| - 1)
    else LastCovering(ws[..|ws| - 1], size, x)
  }

  lemma {:induction false} LastCoveringIsLast(ws: seq<Write>, size: nat, x: nat)
    ensures LastCovering(ws, size, x).None? <==> forall j | 0 <= j < |ws| :: !Covers(ws[j], size, x)
    ensures LastCovering(ws, size, x).Some? ==>
              forall j | LastCovering(ws, size, x).value < j < |ws| :: !Covers(ws[j], size, x)
  {
    if ws != [] {
      var n := |ws| - 1;
      LastCoveringIsLast(ws[..n], size, x);
      assert forall j | 0 <= j < n :: ws[..n][j] == ws[j];
    }
  }

  /** Frame and last-writer rule: a byte outside every applied write is untouched, and any
      other byte is the one the last write covering it put there. */
  lemma {:induction false} LastWriterWins(code: seq<byte>, ws: seq<Write>, x: nat)
    requires x < |code|
    ensures Apply(code, ws)[x] ==
            match LastCovering(ws, |code|, x)
            case None => code[x]
            case Some(j) => ws[j].data[x - ws[j].off]
  {
    if ws != [] {
      LastWriterWins(code, ws[..|ws| - 1], x);
    }
  }

  lemma ApplySnoc(code: seq<byte>, ws: seq<Write>, w: Write)
    ensures Apply(code, ws + [w]) ==
            if InRange(w, |code|) then Splice(Apply(code, ws), w) else Apply(code, ws)
  {
    assert (ws + [w])[..|ws|] == ws;
  }

  // -------------------------------------------------------------------- patch sites

  /** Writes that fill the same field, with whatever value. */
  predicate SameSite(a: Write, b: Write) { a.off == b.off && |a.data| == |b.data| }

  predicate Apart(a: Write, b: Write) { a.off + |a.data| <= b.off || b.off + |b.data| <= a.off }

  /** No write of ws that is applied touches the site of w. */
  predicate Spared(ws: seq<Write>, size: nat, w: Write) {
    forall i | 0 <= i < |ws| && InRange(ws[i], size) :: Apart(ws[i], w)
  }

  lemma {:induction false} ApplyAppend(code: seq<byte>, a: seq<Write>, b: seq<Write>)
    ensures Apply(code, a + b) == Apply(Apply(code, a), b)
  {
    if b == [] {
      assert a + b == a;
    } else {
      assert (a + b)[..|a + b| - 1] == a + b[..|b| - 1];
      ApplyAppend(code, a, b[..|b| - 1]);
    }
  }

  lemma SplicedApart(code: seq<byte>, w: Write, off: nat, n: nat)
    requires InRange(w, |code|) && (w.off + |w.data| <= off || off + n <= w.off)
    ensures Sub(Splice(code, w), off, n) == Sub(code, off, n)
  {
    if off + n <= |code| {
      var spliced := Splice(code, w);
      forall x | off <= x < off + n ensures spliced[x] == code[x] {}
      assert Splice(code, w)[off..off + n] == code[off..off + n];
    }
  }

  lemma SplicedThere(code: seq<byte>, w: Write)
    requires InRange(w, |code|)
    ensures Sub(Splice(code, w), w.off, |w.data|) == Some(w.data)
  {
  }

  /** A field that every applied write leaves alone keeps its bytes. */
  lemma {:induction false} SparedKeeps(code: seq<byte>, ws: seq<Write>, w: Write)
    requires Spared(ws, |code|, w)
    ensures Sub(Apply(code, ws), w.off, |w.data|) == Sub(code, w.off, |w.data|)
  {
    if ws != [] {
      var n := |ws| - 1;
      SparedKeeps(code, ws[..n], w);
      if InRange(ws[n], |code|) { SplicedApart(Apply(code, ws[..n]), ws[n], w.off, |w.data|); }
    }
  }

  /** A field holds what was written there if the write was applied and spared by the later ones. */
  lemma FieldKept(code: seq<byte>, before: seq<Write>, w: Write, after: seq<Write>)
    requires InRange(w, |code|) && Spared(after, |code|, w)
    ensures Sub(Apply(code, before + [w] + after), w.off, |w.data|) == Some(w.data)
  {
    ApplyAppend(code, before + [w], after);
    ApplySnoc(code, before, w);
    SplicedThere(Apply(code, before), w);
    SparedKeeps(Apply(code, before + [w]), after, w);
  }

  /** Otherwise some byte of the field does not depend on what was written there. */
  lemma FieldLost(code: seq<byte>, before: seq<Write>, w: Write, after: seq<Write>) returns (x: nat)
    requires InRange(w, |code|) && !Spared(after, |code|, w)
    requires w.data != [] && forall i | 0 <= i < |after| :: after[i].data != []
    ensures w.off <= x < w.off + |w.data|
    ensures forall v | SameSite(v, w) ::
              Apply(code, before + [v] + after)[x] == Apply(code, before + [w] + after)[x]
  {
    var i :| 0 <= i < |after| && InRange(after[i], |code|) && !Apart(after[i], w);
    x := if after[i].off < w.off then w.off else after[i].off;
    LastCoveringIsLast(after, |code|, x);
    assert Covers(after[i], |code|, x);
    forall v | SameSite(v, w)
      ensures Apply(code, before + [v] + after)[x] == Apply(code, before + [w] + after)[x]
    {
      ApplyAppend(code, before + [v], after);
      ApplyAppend(code, before + [w], after);
      LastWriterWins(Apply(code, before + [v]), after, x);
      LastWriterWins(Apply(code, before + [w]), after, x);
    }
  }

  // ------------------------------------------------------------- recovered addends

  /** The n-byte field at off reads as v, up to its width. */
  predicate Holds(code: seq<byte>, off: nat, n: nat, v: int) {
    Sub(code, off, n).Some? && FromLE(Sub(code, off, n).value) == v % Pow256(n)
  }

  function Baked(code: seq<byte>, before: seq<Write>, off: nat, n: nat, v: int, after: seq<Write>): (r: seq<byte>)
    ensures |r| == |code|
  {
    Apply(code, before + [Write(off, LE(n, v))] + after)
  }

  predicate Survives(code: seq<byte>, off: nat, n: nat, after: seq<Write>) {
    off + n <= |code| && Spared(after, |code|, Write(off, LE(n, 0)))
  }

  /** A value written in range and spared by all later writes is read back, whatever it is. */
  lemma BakedHolds(code: seq<byte>, before: seq<Write>, off: nat, n: nat, v: int, after: seq<Write>)
    requires Survives(code, off, n, after)
    ensures Holds(Baked(code, before, off, n, v, after), off, n, v)
  {
    var w := Write(off, LE(n, v));
    assert Spared(after, |code|, w) by {
      forall i | 0 <= i < |after| && InRange(after[i], |code|) ensures Apart(after[i], w) {
        assert Apart(after[i], Write(off, LE(n, 0)));
      }
    }
    FieldKept(code, before, w, after);
    LEMod(n, v);
  }

  /** Otherwise one of two values is not: they differ in a byte that does not depend on them. */
  lemma BakedLost(code: seq<byte>, before: seq<Write>, off: nat, n: nat, after: seq<Write>) returns (p: nat)
    requires !Survives(code, off, n, after) && 0 < n && forall i | 0 <= i < |after| :: after[i].data != []
    ensures p < n
    ensures !Holds(Baked(code, before, off, n, Pow256(p), after), off, n, Pow256(p))
            || !Holds(Baked(code, before, off, n, 2 * Pow256(p), after), off, n, 2 * Pow256(p))
  {
    p := 0;
    if off + n <= |code| {
      var w := Write(off, LE(n, 0));
      var x := FieldLost(code, before, w, after);
      p := x - off;
      DigitRead(Baked(code, before, off, n, Pow256(p), after), off, n, p, 1);
      DigitRead(Baked(code, before, off, n, 2 * Pow256(p), after), off, n, p, 2);
      assert SameSite(Write(off, LE(n, Pow256(p))), w) && SameSite(Write(off, LE(n, 2 * Pow256(p))), w);
    }
  }

  lemma DigitRead(code: seq<byte>, off: nat, n: nat, p: nat, c: byte)
    requires p < n
    ensures Holds(code, off, n, c * Pow256(p)) ==> code[off + p] == c
  {
    if Holds(code, off, n, c * Pow256(p)) {
      FieldValue(Sub(code, off, n).value, c * Pow256(p));
      LEDigit(n, p, c);
    }
  }

  lemma {:induction false} Pow256Grows(j: nat, k: nat)
    requires j <= k
    ensures Pow256(j) <= Pow256(k)
    decreases k
  {
    if j < k { Pow256Grows(j, k - 1); }
  }

  lemma Pow256Below(p: nat)
    requires p < 8
    ensures 2 * Pow256(p) <= 0x200_0000_0000_0000
  {
    Pow256Grows(p, 7);
    Pow256Values();
    assert Pow256(8) == 256 * Pow256(7);
  }
}
