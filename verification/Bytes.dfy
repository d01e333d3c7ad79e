/** Byte strings, little-endian fields, fixed-shape records, and the padded
    emission of placed chunks that every object-file writer performs. */
module Bytes {
  import opened Arith

  type byte = x: int | 0 <= x < 256

  datatype Option<+T> = None | Some(value: T) {
    predicate IsFailure() { None? }
    function PropagateFailure<U>(): Option<U> requires None? { None }
    function Extract(): T requires Some? { value }
  }

  datatype Result<+T, +E> = Ok(value: T) | Err(error: E)

  // ---------------------------------------------------------------- numbers

  function Pow256(n: nat): (p: nat)
    ensures p > 0
  {
    if n == 0 then 1 else 256 * Pow256(n - 1)
  }

  lemma Pow256Values()
    ensures Pow256(1) == 0x100
    ensures Pow256(2) == 0x1_0000
    ensures Pow256(4) == 0x1_0000_0000
    ensures Pow256(8) == 0x1_0000_0000_0000_0000
  {
    assert Pow256(2) == 256 * Pow256(1);
    assert Pow256(3) == 256 * Pow256(2);
    assert Pow256(5) == 256 * Pow256(4);
    assert Pow256(7) == 256 * Pow256(6);
  }

  /** The low n bytes of v, least significant first.  A negative v is written in
      two's complement, because / and % round towards minus infinity here. */
  function LE(n: nat, v: int): (s: seq<byte>)
    ensures |s| == n
  {
    if n == 0 then [] else [v % 256] + LE(n - 1, v / 256)
  }

  function FromLE(s: seq<byte>): nat {
    if s == [] then 0 else s[0] + 256 * FromLE(s[1..])
  }

  lemma {:induction false} LEMod(n: nat, v: int)
    ensures FromLE(LE(n, v)) == v % Pow256(n)
  {
    if n == 0 {
    } else {
      var q, p := v / 256, Pow256(n - 1);
      LEMod(n - 1, q);
      assert LE(n, v)[1..] == LE(n - 1, q);
      var low := v % 256 + 256 * (q % p);
      assert v == 256 * q + v % 256;
      assert q == p * (q / p) + q % p;
      assert 256 * q == 256 * (p * (q / p)) + 256 * (q % p);
      assert 256 * (p * (q / p)) == (256 * p) * (q / p);
      DivModUnique(v, 256 * p, q / p, low);
    }
  }

  /** Reading a field back gives the value written, when the value fits. */
  lemma LEFits(n: nat, v: int)
    requires 0 <= v < Pow256(n)
    ensures FromLE(LE(n, v)) == v
  {
    LEMod(n, v);
    DivModUnique(v, Pow256(n), 0, v);
  }

  lemma {:induction false} LEShift(n: nat, v: int, k: int)
    ensures LE(n, v + Pow256(n) * k) == LE(n, v)
  {
    if n > 0 {
      var pk := Pow256(n - 1) * k;
      assert Pow256(n) * k == 256 * pk;
      LEShift(n - 1, v / 256, k);
      assert (v + 256 * pk) % 256 == v % 256 && (v + 256 * pk) / 256 == v / 256 + pk;
    }
  }

  lemma {:induction false} LEOfFromLE(s: seq<byte>)
    ensures LE(|s|, FromLE(s)) == s
  {
    if s != [] { LEOfFromLE(s[1..]); }
  }

  lemma Remainder(v: int, p: nat) returns (q: int, r: nat)
    requires p > 0
    ensures r == v % p && v == r + p * q
  {
    q, r := v / p, v % p;
  }

  lemma LEReduced(n: nat, v: int)
    ensures LE(n, v % Pow256(n)) == LE(n, v)
  {
    var q, r := Remainder(v, Pow256(n));
    LEShift(n, r, q);
  }

  /** A field reads as v, up to its width, exactly if it holds the bytes of v. */
  lemma FieldValue(s: seq<byte>, v: int)
    ensures FromLE(s) == v % Pow256(|s|) <==> s == LE(|s|, v)
  {
    LEMod(|s|, v);
    LEReduced(|s|, v);
    LEOfFromLE(s);
  }

  /** Adding one at a base-256 place changes the digit there. */
  lemma {:induction false} LEBump(n: nat, v: int, p: nat)
    requires p < n
    ensures LE(n, v + Pow256(p))[p] != LE(n, v)[p]
  {
    if p == 0 {
      assert LE(n, v + 1)[0] == (v + 1) % 256 && LE(n, v)[0] == v % 256;
    } else {
      var q := Pow256(p - 1);
      LEBump(n - 1, v / 256, p - 1);
      assert (v + 256 * q) / 256 == v / 256 + q;
      assert LE(n, v + 256 * q)[1..] == LE(n - 1, v / 256 + q) && LE(n, v)[1..] == LE(n - 1, v / 256);
    }
  }

  lemma TimesByte(c: int, q: int)
    ensures c * (256 * q) == 256 * (c * q)
  {
  }

  lemma LEShifted(n: nat, v: int)
    requires n > 0
    ensures LE(n, 256 * v) == [0] + LE(n - 1, v)
  {
  }

  /** A single base-256 digit. */
  lemma {:induction false} LEDigit(n: nat, p: nat, c: byte)
    requires p < n
    ensures LE(n, c * Pow256(p))[p] == c
  {
    if p > 0 {
      var v := c * Pow256(p - 1);
      TimesByte(c, Pow256(p - 1));
      LEDigit(n - 1, p - 1, c);
      LEShifted(n, v);
    }
  }

  /** Two's-complement reading of an n-byte field. */
  function Signed(n: nat, u: nat): int {
    if 2 * u < Pow256(n) then u else u - Pow256(n)
  }

  lemma SignedFits(n: nat, v: int)
    requires -2 * v <= Pow256(n) && 2 * v < Pow256(n)
    ensures Signed(n, FromLE(LE(n, v))) == v
  {
    LEMod(n, v);
    if v >= 0 { DivModUnique(v, Pow256(n), 0, v); } else { DivModUnique(v, Pow256(n), -1, v + Pow256(n)); }
  }

  lemma SnocMember<T>(s: seq<T>)
    requires s != []
    ensures forall x :: x in s <==> x in s[..|s| - 1] || x == s[|s| - 1]
  {
    assert s == s[..|s| - 1] + [s[|s| - 1]];
  }

  lemma ConcatHas<T>(a: seq<T>, b: seq<T>, c: seq<T>, d: seq<T>, r: T)
    requires r in b || r in c || r in d
    ensures exists k :: |a| <= k < |a + b + c + d| && (a + b + c + d)[k] == r
  {
    var s := a + b + c + d;
    if r in b {
      var j :| 0 <= j < |b| && b[j] == r;
      assert s[|a| + j] == r;
    } else if r in c {
      var j :| 0 <= j < |c| && c[j] == r;
      assert s[|a| + |b| + j] == r;
    } else {
      var j :| 0 <= j < |d| && d[j] == r;
      assert s[|a| + |b| + |c| + j] == r;
    }
  }

  // ------------------------------------------------------ records and tables

  /** A fixed-size structure as its list of fields, each already a byte string. */
  type Record = seq<seq<byte>>

  predicate Shaped(ws: seq<nat>, rec: Record) {
    |rec| == |ws| && forall i | 0 <= i < |ws| :: |rec[i]| == ws[i]
  }

  function Width(ws: seq<nat>): nat {
    if ws == [] then 0 else ws[0] + Width(ws[1..])
  }

  lemma WidthOf4(a: nat, b: nat, c: nat, d: nat, rest: seq<nat>)
    ensures Width([a, b, c, d] + rest) == a + b + c + d + Width(rest)
  {
    var ws, w1, w2, w3 := [a, b, c, d] + rest, [b, c, d] + rest, [c, d] + rest, [d] + rest;
    assert ws[1..] == w1 && w1[1..] == w2 && w2[1..] == w3 && w3[1..] == rest;
    assert Width(ws) == a + Width(w1) && Width(w1) == b + Width(w2) && Width(w2) == c + Width(w3);
  }

  function Join(rec: Record): seq<byte> {
    if rec == [] then [] else rec[0] + Join(rec[1..])
  }

  function Split(ws: seq<nat>, b: seq<byte>): (rec: Record)
    requires |b| == Width(ws)
    ensures |rec| == |ws|
  {
    if ws == [] then [] else [b[..ws[0]]] + Split(ws[1..], b[ws[0]..])
  }

  lemma {:induction false} SplitJoin(ws: seq<nat>, rec: Record)
    requires Shaped(ws, rec)
    ensures |Join(rec)| == Width(ws)
    ensures Split(ws, Join(rec)) == rec
  {
    if ws == [] {
    } else {
      SplitJoin(ws[1..], rec[1..]);
      assert Join(rec)[..ws[0]] == rec[0];
      assert Join(rec)[ws[0]..] == Join(rec[1..]);
    }
  }

  function Table(recs: seq<Record>): seq<byte> {
    if recs == [] then [] else Table(recs[..|recs| - 1]) + Join(recs[|recs| - 1])
  }

  predicate AllShaped(ws: seq<nat>, recs: seq<Record>) {
    forall i | 0 <= i < |recs| :: Shaped(ws, recs[i])
  }

  lemma {:induction false} TableSize(ws: seq<nat>, recs: seq<Record>)
    requires AllShaped(ws, recs)
    ensures |Table(recs)| == |recs| * Width(ws)
  {
    if recs == [] {
    } else {
      TableSize(ws, recs[..|recs| - 1]);
      SplitJoin(ws, recs[|recs| - 1]);
      MulSucc(|recs| - 1, Width(ws));
    }
  }

  lemma TablePrefix(ws: seq<nat>, recs: seq<Record>, i: nat)
    requires AllShaped(ws, recs) && i <= |recs|
    ensures |Table(recs[..i])| == i * Width(ws)
  {
    TableSize(ws, recs[..i]);
  }

  lemma TableSnoc(recs: seq<Record>, k: nat)
    requires k < |recs|
    ensures Table(recs[..k + 1]) == Table(recs[..k]) + Join(recs[k])
  {
    assert recs[..k + 1][..k] == recs[..k];
  }

  lemma TableGrows(start: seq<byte>, recs: seq<Record>, k: nat)
    requires k < |recs|
    ensures start + Table(recs[..k]) + Join(recs[k]) == start + Table(recs[..k + 1])
  {
    TableSnoc(recs, k);
  }

  /** Entry i comes right after the table of the entries before it. */
  lemma {:induction false} TableEntry(recs: seq<Record>, i: nat)
    requires i < |recs|
    ensures At(Table(recs), |Table(recs[..i])|, Join(recs[i]))
  {
    var front, n := recs[..|recs| - 1], |recs| - 1;
    if i < n {
      TableEntry(front, i);
      assert front[..i] == recs[..i];
      AtPrefix(Table(front), |Table(recs[..i])|, Join(recs[i]), Table(recs));
    }
  }

  // ------------------------------------------------------------ placed bytes

  /** b holds exactly the bytes d at offset off. */
  predicate At(b: seq<byte>, off: nat, d: seq<byte>) {
    off + |d| <= |b| && b[off..off + |d|] == d
  }

  lemma AtWithin(b: seq<byte>, off: nat, d: seq<byte>, inner: nat, e: seq<byte>)
    requires At(b, off, d) && At(d, inner, e)
    ensures At(b, off + inner, e)
  {
    forall k | 0 <= k < |e| ensures b[off + inner + k] == e[k] {
      assert d[inner..inner + |e|][k] == e[k];
      assert b[off..off + |d|][inner + k] == d[inner + k];
    }
    assert b[off + inner..off + inner + |e|] == e;
  }

  lemma AtPrefix(b: seq<byte>, off: nat, d: seq<byte>, c: seq<byte>)
    requires At(b, off, d) && b <= c
    ensures At(c, off, d)
  {
    assert c[off..off + |d|] == b[off..off + |d|];
  }

  lemma AtEnd(b: seq<byte>, d: seq<byte>)
    ensures At(b + d, |b|, d)
  {
  }

  lemma AtSplit(b: seq<byte>, off: nat, x: seq<byte>, y: seq<byte>)
    requires At(b, off, x + y)
    ensures At(b, off, x) && At(b, off + |x|, y)
  {
    AtEnd(x, y);
    assert At(x + y, 0, x);
    AtWithin(b, off, x + y, 0, x);
    AtWithin(b, off, x + y, |x|, y);
  }

  function Sub(b: seq<byte>, off: nat, n: nat): Option<seq<byte>> {
    if off + n <= |b| then Some(b[off..off + n]) else None
  }

  lemma SubAt(b: seq<byte>, off: nat, d: seq<byte>)
    requires At(b, off, d)
    ensures Sub(b, off, |d|) == Some(d)
  {
  }

  lemma SubNothing(b: seq<byte>, off: nat)
    requires off <= |b|
    ensures Sub(b, off, 0) == Some([])
  {
    assert b[off..off] == [];
  }

  /** The reader's primitive: the record of shape ws at offset off, if the file reaches that far. */
  function ReadRecord(ws: seq<nat>, b: seq<byte>, off: nat): (r: Option<Record>)
    ensures r.Some? ==> |r.value| == |ws|
  {
    if off + Width(ws) <= |b| then Some(Split(ws, b[off..off + Width(ws)])) else None
  }

  lemma ReadJoined(ws: seq<nat>, b: seq<byte>, off: nat, rec: Record)
    requires Shaped(ws, rec) && At(b, off, Join(rec))
    ensures ReadRecord(ws, b, off) == Some(rec)
  {
    SplitJoin(ws, rec);
  }

  lemma ReadInner(ws: seq<nat>, b: seq<byte>, off: nat, d: seq<byte>, inner: nat, rec: Record, pos: nat)
    requires At(b, off, d) && At(d, inner, Join(rec)) && Shaped(ws, rec) && pos == off + inner
    ensures ReadRecord(ws, b, pos) == Some(rec)
  {
    AtWithin(b, off, d, inner, Join(rec));
    ReadJoined(ws, b, pos, rec);
  }

  /** Where entry i of a table at off starts, for entries of size w. */
  function Slot(off: nat, i: nat, w: nat): nat { off + i * w }

  /** Record i of a table placed in the file reads back as record i. */
  lemma ReadTable(ws: seq<nat>, b: seq<byte>, off: nat, recs: seq<Record>, i: nat)
    requires AllShaped(ws, recs) && i < |recs| && At(b, off, Table(recs))
    ensures ReadRecord(ws, b, Slot(off, i, Width(ws))) == Some(recs[i])
  {
    TableEntry(recs, i);
    TablePrefix(ws, recs, i);
    ReadInner(ws, b, off, Table(recs), |Table(recs[..i])|, recs[i], Slot(off, i, Width(ws)));
  }

  /** Reads n items; fails if any one fails. */
  function Collect<T>(n: nat, f: nat -> Option<T>): Option<seq<T>> {
    if n == 0 then Some([]) else
    var front :- Collect(n - 1, f);
    var last :- f(n - 1);
    Some(front + [last])
  }

  lemma {:induction false} CollectAll<T>(n: nat, f: nat -> Option<T>, xs: seq<T>)
    requires |xs| == n && forall i: nat | i < n :: f(i) == Some(xs[i])
    ensures Collect(n, f) == Some(xs)
  {
    if n == 0 {
    } else {
      CollectAll(n - 1, f, xs[..n - 1]);
      assert xs == xs[..n - 1] + [xs[n - 1]];
    }
  }

  /** Concatenates n lists; fails if any one fails. */
  function Gather<T>(n: nat, f: nat -> Option<seq<T>>): Option<seq<T>> {
    if n == 0 then Some([]) else
    var front :- Gather(n - 1, f);
    var more :- f(n - 1);
    Some(front + more)
  }

  /** If only the list at pos is non-empty, gathering yields just that list. */
  lemma {:induction false} GatherOne<T>(n: nat, f: nat -> Option<seq<T>>, pos: Option<nat>, xs: seq<T>)
    requires forall k: nat | k < n :: f(k) == Some(if pos == Some(k) then xs else [])
    ensures Gather(n, f) == Some(if pos.Some? && pos.value < n then xs else [])
  {
    if n == 0 {
      assert Gather(n, f) == Some([]);
    } else {
      GatherOne(n - 1, f, pos, xs);
      assert f(n - 1) == Some(if pos == Some(n - 1) then xs else []);
      assert xs + [] == xs;
      assert [] + xs == xs;
      var none: seq<T> := [];
      assert none + none == none;
    }
  }

  /** Reads items from place k on, each telling how many places behind its own belong to
      it; fails unless this ends exactly at place n. */
  function Follow<T>(n: nat, k: nat, f: nat -> Option<(T, nat)>): Option<seq<T>>
    decreases n - k
  {
    if k == n then Some([])
    else if k > n then None
    else
      var item :- f(k);
      var rest :- Follow(n, k + 1 + item.1, f);
      Some([item.0] + rest)
  }

  lemma FollowStep<T>(n: nat, k: nat, f: nat -> Option<(T, nat)>, v: T, more: nat, rest: seq<T>)
    requires k < n && f(k) == Some((v, more)) && Follow(n, k + 1 + more, f) == Some(rest)
    ensures Follow(n, k, f) == Some([v] + rest)
  {
  }

  /** p holds of all numbers below n.  Recursive rather than quantified, so that a proof
      that needs p of one number does not have to consider all. */
  ghost predicate Below(n: nat, p: nat -> bool) {
    n == 0 || (Below(n - 1, p) && p(n - 1))
  }

  lemma {:induction false} BelowAll(n: nat, p: nat -> bool)
    requires forall k: nat | k < n :: p(k)
    ensures Below(n, p)
  {
    if n > 0 { BelowAll(n - 1, p); }
  }

  lemma {:induction false} BelowAt(n: nat, p: nat -> bool, k: nat)
    requires k < n && Below(n, p)
    ensures p(k)
  {
    if k < n - 1 { BelowAt(n - 1, p, k); }
  }

  // ---------------------------------------------------------------- emission

  function Zeros(n: nat): (z: seq<byte>)
    ensures |z| == n && forall i | 0 <= i < n :: z[i] == 0
  {
    seq(n, _ => 0)
  }

  /** padTo: append zero bytes until the buffer reaches target; never truncate. */
  function PadTo(b: seq<byte>, target: nat): seq<byte> {
    if |b| < target then b + Zeros(target - |b|) else b
  }

  datatype Placement = Placement(off: nat, data: seq<byte>)

  /** Pads to and writes each placement in turn. */
  function Emit(b: seq<byte>, ps: seq<Placement>): seq<byte> {
    if ps == [] then b
    else
      var p := ps[|ps| - 1];
      PadTo(Emit(b, ps[..|ps| - 1]), p.off) + p.data
  }

  lemma EmitSnoc(b: seq<byte>, ps: seq<Placement>, p: Placement)
    ensures Emit(b, ps + [p]) == PadTo(Emit(b, ps), p.off) + p.data
  {
    assert (ps + [p])[..|ps|] == ps;
  }

  function End(start: nat, ps: seq<Placement>): nat {
    if ps == [] then start else ps[|ps| - 1].off + |ps[|ps| - 1].data|
  }

  /** The layout promise: no placement starts before its predecessor's end. */
  predicate Ordered(start: nat, ps: seq<Placement>) {
    ps == [] ||
    (Ordered(start, ps[..|ps| - 1]) && End(start, ps[..|ps| - 1]) <= ps[|ps| - 1].off)
  }

  predicate Covered(ps: seq<Placement>, x: nat) {
    ps != [] &&
    var p := ps[|ps| - 1];
    (p.off <= x < p.off + |p.data| || Covered(ps[..|ps| - 1], x))
  }

  lemma {:induction false} OrderedDisjoint(start: nat, ps: seq<Placement>, j: nat, k: nat)
    requires Ordered(start, ps) && j < k < |ps|
    ensures start <= ps[j].off <= ps[j].off + |ps[j].data| <= ps[k].off
  {
    var front := ps[..|ps| - 1];
    if k < |ps| - 1 {
      OrderedDisjoint(start, front, j, k);
    } else if j < |ps| - 2 {
      OrderedDisjoint(start, front, j, |ps| - 2);
    } else {
      OrderedStart(start, front, j);
    }
  }

  lemma {:induction false} OrderedStart(start: nat, ps: seq<Placement>, j: nat)
    requires Ordered(start, ps) && j < |ps|
    ensures start <= ps[j].off
  {
    if j < |ps| - 1 {
      OrderedStart(start, ps[..|ps| - 1], j);
    } else if |ps| > 1 {
      OrderedStart(start, ps[..|ps| - 1], j - 1);
    }
  }

  /** Layout refines emission: when offsets were predicted in order, the emitted
      file has the predicted length, keeps its header, holds every chunk exactly
      where it was predicted, and is zero everywhere else. */
  lemma {:induction false} EmitPlaces(b: seq<byte>, ps: seq<Placement>)
    requires Ordered(|b|, ps)
    ensures |Emit(b, ps)| == End(|b|, ps)
    ensures b <= Emit(b, ps)
    ensures forall k | 0 <= k < |ps| :: At(Emit(b, ps), ps[k].off, ps[k].data)
    ensures forall x | |b| <= x < |Emit(b, ps)| && !Covered(ps, x) :: Emit(b, ps)[x] == 0
  {
    if ps == [] {
    } else {
      var front, p := ps[..|ps| - 1], ps[|ps| - 1];
      EmitPlaces(b, front);
      var e, r := Emit(b, front), Emit(b, ps);
      assert e <= r && |PadTo(e, p.off)| == p.off;
      forall k | 0 <= k < |ps| ensures At(r, ps[k].off, ps[k].data) {
        if k < |ps| - 1 {
          assert front[k] == ps[k];
          AtPrefix(e, ps[k].off, ps[k].data, r);
        } else {
          AtEnd(PadTo(e, p.off), p.data);
        }
      }
    }
  }
}
