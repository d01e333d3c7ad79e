/** The string-table builder shared in shape by the three structured formats.  ELF and
    Mach-O tables start with a NUL that doubles as the empty string; a COFF payload
    starts empty and is preceded by its size when it is written. */
module StringTable {
  import opened Arith
  import opened Bytes
  import opened Names

  datatype StrTable = StrTable(data: seq<byte>, offsets: map<Name, nat>) {
    /** Adds s and its terminator at the end, unless it is already there. */
    function Intern(s: Name): StrTable {
      if s in offsets then this
      else StrTable(data + s + [0], offsets[s := |data|])
    }

    function InternAll(names: seq<Name>): StrTable {
      if names == [] then this
      else InternAll(names[..|names| - 1]).Intern(names[|names| - 1])
    }

    /** Every recorded offset holds its string. */
    ghost predicate Sound() {
      forall s | s in offsets :: Terminated(data, offsets[s], s)
    }

    /** Different strings own disjoint ranges. */
    ghost predicate Disjoint() {
      forall s, u | s in offsets && u in offsets && s != u ::
        offsets[s] + |s| < offsets[u] || offsets[u] + |u| < offsets[s]
    }

    /** t extends this: nothing moved and nothing was forgotten. */
    ghost predicate GrewTo(t: StrTable) {
      && data <= t.data
      && forall s | s in offsets :: s in t.offsets && t.offsets[s] == offsets[s]
    }
  }

  const Sentinel := StrTable([0], map[[] := 0])
  const Empty := StrTable([], map[])

  ghost predicate WellFormed(t: StrTable) { t.Sound() && t.Disjoint() }

  lemma AppendTerminated(d: seq<byte>, s: Name)
    ensures d <= d + s + [0] && Terminated(d + s + [0], |d|, s)
  {
    assert d + s + [0] == d + (s + [0]);
  }

  lemma InternSound(t: StrTable, s: Name)
    requires t.Sound()
    ensures t.Intern(s).Sound() && t.GrewTo(t.Intern(s))
  {
    var r := t.Intern(s);
    AppendTerminated(t.data, s);
    forall u | u in r.offsets ensures Terminated(r.data, r.offsets[u], u) {
      if u in t.offsets { AtPrefix(t.data, t.offsets[u], u + [0], r.data); }
    }
  }

  lemma InternDisjoint(t: StrTable, s: Name)
    requires t.Sound() && t.Disjoint()
    ensures t.Intern(s).Disjoint()
  {
    forall u | u in t.offsets ensures t.offsets[u] + |u| < |t.data| {
      assert Terminated(t.data, t.offsets[u], u);
    }
  }

  lemma InternKeeps(t: StrTable, s: Name)
    requires WellFormed(t)
    ensures WellFormed(t.Intern(s)) && t.GrewTo(t.Intern(s))
    ensures t.Intern(s).offsets.Keys == t.offsets.Keys + {s}
  {
    InternSound(t, s);
    InternDisjoint(t, s);
  }

  /** What any history of intern calls keeps: every string stays readable at its
      offset and ranges stay disjoint. */
  lemma {:induction false} InternAllWellFormed(t: StrTable, names: seq<Name>)
    requires WellFormed(t)
    ensures WellFormed(t.InternAll(names))
  {
    if names != [] {
      var n := |names| - 1;
      InternAllWellFormed(t, names[..n]);
      InternKeeps(t.InternAll(names[..n]), names[n]);
    }
  }

  /** Nothing ever moves. */
  lemma {:induction false} InternAllGrows(t: StrTable, names: seq<Name>)
    requires WellFormed(t)
    ensures t.GrewTo(t.InternAll(names))
  {
    if names != [] {
      var n := |names| - 1;
      var mid := t.InternAll(names[..n]);
      InternAllWellFormed(t, names[..n]);
      InternAllGrows(t, names[..n]);
      InternKeeps(mid, names[n]);
      GrewTrans(t, mid, mid.Intern(names[n]));
    }
  }

  /** Exactly the given names are added. */
  lemma {:induction false} InternAllKeys(t: StrTable, names: seq<Name>)
    ensures t.InternAll(names).offsets.Keys == t.offsets.Keys + Elements(names)
  {
    if names != [] {
      InternAllKeys(t, names[..|names| - 1]);
      ElementsSnoc(names);
    }
  }

  lemma GrewTrans(a: StrTable, b: StrTable, c: StrTable)
    requires a.GrewTo(b) && b.GrewTo(c)
    ensures a.GrewTo(c)
  {
  }

  lemma ElementsSnoc(names: seq<Name>)
    requires names != []
    ensures Elements(names) == Elements(names[..|names| - 1]) + {names[|names| - 1]}
  {
    assert names == names[..|names| - 1] + [names[|names| - 1]];
  }

  lemma {:induction false} InternAllConcat(t: StrTable, a: seq<Name>, b: seq<Name>)
    ensures t.InternAll(a + b) == t.InternAll(a).InternAll(b)
  {
    if b == [] {
      assert a + b == a;
    } else {
      var n := |b| - 1;
      assert (a + b)[..|a + b| - 1] == a + b[..n];
      InternAllConcat(t, a, b[..n]);
    }
  }

  lemma InternAllSnoc(t: StrTable, ns: seq<Name>, n: Name)
    ensures t.InternAll(ns + [n]) == t.InternAll(ns).Intern(n)
  {
    assert (ns + [n])[..|ns|] == ns;
  }

  lemma AllInterned(ns: seq<Name>)
    ensures forall i | 0 <= i < |ns| :: ns[i] in Sentinel.InternAll(ns).offsets
  {
    InternAllKeys(Sentinel, ns);
    forall i | 0 <= i < |ns| ensures ns[i] in Sentinel.InternAll(ns).offsets { assert ns[i] in Elements(ns); }
  }

  /** A name added to a sound base reads back at its offset. */
  lemma InternedReads(t: StrTable, names: seq<Name>, n: Name)
    requires WellFormed(t) && n in names
    ensures n in t.InternAll(names).offsets
    ensures var r := t.InternAll(names);
            Terminated(r.data, r.offsets[n], n) && (NulFree(n) ==> CStr(r.data, r.offsets[n]) == Some(n))
  {
    var r := t.InternAll(names);
    InternAllKeys(t, names);
    assert n in Elements(names);
    InternAllWellFormed(t, names);
    SoundReads(r, n);
  }

  lemma SoundReads(t: StrTable, n: Name)
    requires t.Sound() && n in t.offsets
    ensures Terminated(t.data, t.offsets[n], n)
    ensures NulFree(n) ==> CStr(t.data, t.offsets[n]) == Some(n)
  {
    if NulFree(n) { CStrReads(t.data, t.offsets[n], n); }
  }

  /** The offset returned by the k-th call is still right after all later calls. */
  lemma OffsetsNeverStale(t: StrTable, names: seq<Name>, k: nat)
    requires WellFormed(t) && k < |names|
    ensures names[k] in t.InternAll(names[..k + 1]).offsets && names[k] in t.InternAll(names).offsets
    ensures t.InternAll(names[..k + 1]).offsets[names[k]] == t.InternAll(names).offsets[names[k]]
  {
    var early, late := names[..k + 1], names[k + 1..];
    assert early[k] == names[k] && names == early + late;
    InternAllConcat(t, early, late);
    InternAllKeys(t, early);
    InternAllWellFormed(t, early);
    InternAllGrows(t.InternAll(early), late);
  }

  /** Interning strings that are all present changes nothing. */
  lemma {:induction false} InternAllHits(t: StrTable, names: seq<Name>)
    requires forall n | n in names :: n in t.offsets
    ensures t.InternAll(names) == t
  {
    if names != [] { InternAllHits(t, names[..|names| - 1]); }
  }

  ghost function SumLengths(s: set<Name>): nat {
    if s == {} then 0 else
    var x :| x in s;
    |x| + 1 + SumLengths(s - {x})
  }

  lemma {:induction false} SumLengthsRemove(s: set<Name>, y: Name)
    requires y in s
    ensures SumLengths(s) == |y| + 1 + SumLengths(s - {y})
    decreases |s|
  {
    var x :| x in s && SumLengths(s) == |x| + 1 + SumLengths(s - {x});
    if x != y {
      SumLengthsRemove(s - {x}, y);
      SumLengthsRemove(s - {y}, x);
      assert s - {x} - {y} == s - {y} - {x};
    }
  }

  /** The table's length: each distinct new string costs its length plus one. */
  lemma {:induction false} InternAllLength(t: StrTable, names: seq<Name>)
    ensures |t.InternAll(names).data| == |t.data| + SumLengths(Elements(names) - t.offsets.Keys)
  {
    if names == [] {
      assert Elements(names) - t.offsets.Keys == {};
    } else {
      var n := |names| - 1;
      InternAllLength(t, names[..n]);
      InternAllKeys(t, names[..n]);
      var added := Elements(names) - t.offsets.Keys;
      ElementsSnoc(names);
      if names[n] in t.InternAll(names[..n]).offsets {
        assert added == Elements(names[..n]) - t.offsets.Keys;
      } else {
        SumLengthsRemove(added, names[n]);
        assert added - {names[n]} == Elements(names[..n]) - t.offsets.Keys;
      }
    }
  }

  /** A bound that needs no look at which strings are new. */
  lemma {:induction false} InternAllBound(t: StrTable, names: seq<Name>, longest: nat)
    requires forall i | 0 <= i < |names| :: |names[i]| <= longest
    ensures |t.InternAll(names).data| <= |t.data| + |names| * (longest + 1)
  {
    if names != [] {
      var n := |names| - 1;
      InternAllBound(t, names[..n], longest);
      MulSucc(n, longest + 1);
    }
  }

  lemma BaseTablesWellFormed()
    ensures WellFormed(Sentinel) && WellFormed(Empty)
  {
    assert [0][0..1] == [] + [0];
  }

  /** The empty name stays at the offset the reserved NUL gives it. */
  lemma EmptyNameFirst(names: seq<Name>)
    ensures [] in Sentinel.InternAll(names).offsets && Sentinel.InternAll(names).offsets[[]] == 0
  {
    BaseTablesWellFormed();
    InternAllGrows(Sentinel, names);
    assert [] in Sentinel.offsets;
  }

  /** The mutable builder. */
  class StrTab {
    var data: seq<byte>
    var offsets: map<Name, nat>

    function Value(): StrTable
      reads this
    {
      StrTable(data, offsets)
    }

    constructor (base: StrTable)
      ensures Value() == base
    {
      data, offsets := base.data, base.offsets;
    }

    method Intern(s: Name) returns (off: nat)
      modifies this
      ensures Value() == old(Value()).Intern(s)
      ensures s in offsets && off == offsets[s]
    {
      if s in offsets {
        off := offsets[s];
        return;
      }
      off := |data|;
      data := data + s;
      data := data + [0];
      offsets := offsets[s := off];
    }
  }
}
