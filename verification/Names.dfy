/** Symbol and section names: Go strings, that is byte strings. */
module Names {
  import opened Bytes

  type Name = seq<byte>

  predicate NulFree(s: Name) {
    forall i | 0 <= i < |s| :: s[i] != 0
  }

  /** A name written as a literal. */
  function Ascii(s: string): (n: Name)
    requires forall i | 0 <= i < |s| :: 0 as char < s[i] < 128 as char
    ensures |n| == |s| && NulFree(n)
    ensures forall i | 0 <= i < |s| :: n[i] == s[i] as int
  {
    seq(|s|, i requires 0 <= i < |s| => s[i] as int)
  }

  /** The NUL-terminated string that starts at off, if it ends inside d. */
  function CStr(d: seq<byte>, off: nat): (r: Option<Name>)
    ensures r.Some? ==> NulFree(r.value)
    decreases |d| - off
  {
    if off >= |d| then None
    else if d[off] == 0 then Some([])
    else
      var rest :- CStr(d, off + 1);
      Some([d[off]] + rest)
  }

  /** s followed by a terminator, at offset off. */
  predicate Terminated(d: seq<byte>, off: nat, s: Name) {
    At(d, off, s + [0])
  }

  lemma {:induction false} CStrReads(d: seq<byte>, off: nat, s: Name)
    requires Terminated(d, off, s) && NulFree(s)
    ensures CStr(d, off) == Some(s)
    decreases |s|
  {
    var t := s + [0];
    assert d[off..off + |t|] == t;
    assert d[off] == t[0];
    if s != [] {
      assert d[off + 1..off + 1 + |s|] == t[1..] == s[1..] + [0];
      CStrReads(d, off + 1, s[1..]);
      assert s == [s[0]] + s[1..];
    }
  }

  // ------------------------------------------------------- names in fixed fields

  /** copy into a zeroed [n]byte field: cut to n bytes, then padded with zeros. */
  function Padded(s: seq<byte>, n: nat): (f: seq<byte>)
    ensures |f| == n
  {
    if |s| >= n then s[..n] else s + Zeros(n - |s|)
  }

  /** The bytes of a field up to its first NUL. */
  function Trimmed(f: seq<byte>): (s: Name)
    ensures NulFree(s) && |s| <= |f|
  {
    if f == [] || f[0] == 0 then [] else [f[0]] + Trimmed(f[1..])
  }

  lemma {:induction false} TrimPadded(s: Name, n: nat)
    requires NulFree(s) && |s| <= n
    ensures Trimmed(Padded(s, n)) == s
  {
    var f := Padded(s, n);
    if s == [] {
      assert n > 0 ==> f[0] == 0;
    } else {
      TrimPadded(s[1..], n - 1);
      assert f[1..] == Padded(s[1..], n - 1);
      assert s == [s[0]] + s[1..];
    }
  }

  /** A name comes back from an n-byte field exactly if it fits and has no NUL. */
  lemma FieldKeepsIff(s: Name, n: nat)
    ensures Trimmed(Padded(s, n)) == s <==> |s| <= n && NulFree(s)
  {
    if |s| <= n && NulFree(s) { TrimPadded(s, n); }
  }

  // ---------------------------------------------------------------- ordering

  /** Go's string order: lexicographic by byte. */
  predicate Less(a: Name, b: Name) {
    b != [] && (a == [] || a[0] < b[0] || (a[0] == b[0] && Less(a[1..], b[1..])))
  }

  lemma {:induction false} LessTotal(a: Name, b: Name)
    ensures a != b ==> Less(a, b) || Less(b, a)
    ensures Less(a, b) ==> a != b && !Less(b, a)
  {
    if a != [] && b != [] {
      LessTotal(a[1..], b[1..]);
      assert a == [a[0]] + a[1..] && b == [b[0]] + b[1..];
    }
  }

  lemma {:induction false} LessTrans(a: Name, b: Name, c: Name)
    requires Less(a, b) && Less(b, c)
    ensures Less(a, c)
  {
    if a != [] && a[0] == b[0] == c[0] { LessTrans(a[1..], b[1..], c[1..]); }
  }

  /** The first place where two names differ decides, and a proper prefix comes first. */
  predicate Precedes(a: Name, b: Name, k: nat) {
    k <= |a| && k <= |b| && a[..k] == b[..k] && if k < |a| then k < |b| && a[k] < b[k] else k < |b|
  }

  lemma PrecedesHead(a: Name, b: Name, k: nat)
    requires Precedes(a, b, k)
    ensures k > 0 ==> a != [] && b != [] && a[0] == b[0]
  {
    if k > 0 { assert a[..k][0] == a[0] && b[..k][0] == b[0]; }
  }

  lemma {:induction false} LessIff(a: Name, b: Name)
    ensures Less(a, b) <==> exists k: nat :: Precedes(a, b, k)
  {
    if Less(a, b) && (a == [] || a[0] < b[0]) { assert Precedes(a, b, 0); }
    if a != [] && b != [] && a[0] == b[0] {
      LessIff(a[1..], b[1..]);
      if Less(a[1..], b[1..]) {
        var k: nat :| Precedes(a[1..], b[1..], k);
        assert a[..k + 1] == [a[0]] + a[1..][..k] && b[..k + 1] == [b[0]] + b[1..][..k];
        assert Precedes(a, b, k + 1);
      }
      forall k: nat | Precedes(a, b, k) ensures Less(a[1..], b[1..]) {
        assert k > 0;
        assert a[1..][..k - 1] == a[..k][1..] && b[1..][..k - 1] == b[..k][1..];
        assert Precedes(a[1..], b[1..], k - 1);
      }
    } else {
      forall k: nat | Precedes(a, b, k) ensures Less(a, b) { PrecedesHead(a, b, k); }
    }
  }

  /** Strictly ascending, hence free of duplicates. */
  predicate Ascending(ns: seq<Name>) {
    forall i, j | 0 <= i < j < |ns| :: Less(ns[i], ns[j])
  }

  ghost function Elements(ns: seq<Name>): set<Name> {
    set n | n in ns
  }

  lemma ElementsEmpty(ns: seq<Name>)
    ensures Elements(ns) == {} <==> ns == []
  {
    if ns != [] { assert ns[0] in Elements(ns); }
  }

  /** There is only one ascending listing of a set of names. */
  lemma {:induction false} AscendingUnique(a: seq<Name>, b: seq<Name>)
    requires Ascending(a) && Ascending(b) && Elements(a) == Elements(b)
    ensures a == b
  {
    ElementsEmpty(a);
    ElementsEmpty(b);
    if a != [] && b != [] {
      assert a[0] in Elements(b) && b[0] in Elements(a);
      var i :| 0 <= i < |a| && a[i] == b[0];
      var j :| 0 <= j < |b| && b[j] == a[0];
      LessTotal(a[0], b[0]);
      assert a[0] == b[0];
      forall n ensures n in a[1..] <==> n in b[1..] {
        LessTotal(a[0], a[0]);
        assert n in a <==> n in Elements(a);
        assert n in b <==> n in Elements(b);
      }
      AscendingUnique(a[1..], b[1..]);
      assert a == [a[0]] + a[1..] && b == [b[0]] + b[1..];
    }
  }

  function Insert(ns: seq<Name>, n: Name): seq<Name> {
    if ns == [] then [n]
    else if n == ns[0] then ns
    else if Less(n, ns[0]) then [n] + ns
    else [ns[0]] + Insert(ns[1..], n)
  }

  lemma {:induction false} InsertMember(ns: seq<Name>, n: Name, x: Name)
    ensures x in Insert(ns, n) <==> x == n || x in ns
  {
    if ns != [] && n != ns[0] && !Less(n, ns[0]) {
      InsertMember(ns[1..], n, x);
      assert ns == [ns[0]] + ns[1..];
    }
  }

  lemma {:induction false} InsertAscending(ns: seq<Name>, n: Name)
    requires Ascending(ns)
    ensures Ascending(Insert(ns, n))
  {
    if ns != [] && n != ns[0] {
      LessTotal(n, ns[0]);
      if Less(n, ns[0]) {
        forall j | 0 < j < |ns| ensures Less(n, ns[j]) { LessTrans(n, ns[0], ns[j]); }
      } else {
        var tail := Insert(ns[1..], n);
        InsertAscending(ns[1..], n);
        forall j | 0 <= j < |tail| ensures Less(ns[0], tail[j]) {
          InsertMember(ns[1..], n, tail[j]);
          assert tail[j] in tail;
        }
      }
    }
  }

  /** sort.Strings, on the duplicate-free listings the writers hand it. */
  function Sort(ns: seq<Name>): seq<Name> {
    if ns == [] then [] else Insert(Sort(ns[1..]), ns[0])
  }

  lemma {:induction false} SortFacts(ns: seq<Name>)
    ensures Ascending(Sort(ns))
    ensures forall x :: x in Sort(ns) <==> x in ns
  {
    if ns != [] {
      SortFacts(ns[1..]);
      InsertAscending(Sort(ns[1..]), ns[0]);
      forall x ensures x in Sort(ns) <==> x in ns {
        InsertMember(Sort(ns[1..]), ns[0], x);
        assert ns == [ns[0]] + ns[1..];
      }
    }
  }

  /** The ascending listing of a set. */
  ghost function SortedOf(s: set<Name>): seq<Name> {
    if s == {} then [] else
    var n :| n in s;
    Insert(SortedOf(s - {n}), n)
  }

  lemma {:induction false} SortedOfFacts(s: set<Name>)
    ensures Ascending(SortedOf(s)) && Elements(SortedOf(s)) == s
    ensures forall x :: x in SortedOf(s) <==> x in s
  {
    if s != {} {
      var n :| n in s && SortedOf(s) == Insert(SortedOf(s - {n}), n);
      SortedOfFacts(s - {n});
      InsertAscending(SortedOf(s - {n}), n);
      forall x ensures x in SortedOf(s) <==> x in s { InsertMember(SortedOf(s - {n}), n, x); }
    }
  }

  /** A map's keys come out in an arbitrary order; sorting them makes the listing
      a function of the key set alone. */
  method SortedKeys(keys: set<Name>) returns (names: seq<Name>)
    ensures names == SortedOf(keys)
  {
    names := [];
    var rest := keys;
    while rest != {}
      invariant rest <= keys
      invariant forall x :: x in names <==> x in keys && x !in rest
      decreases |rest|
    {
      var n :| n in rest;
      names := names + [n];
      rest := rest - {n};
    }
    SortFacts(names);
    names := Sort(names);
    assert Elements(names) == keys;
    SortedOfFacts(keys);
    AscendingUnique(names, SortedOf(keys));
  }

  // -------------------------------------------------------------- name index

  /** The map left behind by walking names[start..] and assigning index[names[i]] := i:
      each name is mapped to its last position. */
  function LastIndex(names: seq<Name>, start: nat): map<Name, nat> {
    if |names| <= start then map[]
    else LastIndex(names[..|names| - 1], start)[names[|names| - 1] := |names| - 1]
  }

  lemma {:induction false} LastIndexFacts(names: seq<Name>, start: nat)
    ensures var m := LastIndex(names, start);
            && (forall n | n in m :: start <= m[n] < |names| && names[m[n]] == n)
            && (forall n, i | n in m && m[n] < i < |names| :: names[i] != n)
            && (forall i | start <= i < |names| :: names[i] in m)
  {
    if |names| > start {
      var front := names[..|names| - 1];
      LastIndexFacts(front, start);
      forall i | start <= i < |names| ensures names[i] in LastIndex(names, start) {
        if i < |front| { assert front[i] == names[i]; }
      }
    }
  }

  lemma LastIndexSnoc(names: seq<Name>, start: nat, n: Name)
    requires start <= |names|
    ensures LastIndex(names + [n], start) == LastIndex(names, start)[n := |names|]
  {
    assert (names + [n])[..|names|] == names;
  }

  lemma LastIndexEmpty(names: seq<Name>, start: nat)
    requires |names| <= start
    ensures LastIndex(names, start) == map[]
  {
  }
}
