/** Which error a Mach-O writer reports. */
module MachoErrors {
  import opened Names
  import opened Objects
  import opened MachoFormat
  import opened MachoSpec
  import opened MachoTables

  /** A custom section whose name is not of the form segment,section. */
  predicate Uncommaed(s: Section) { s.kind == Custom && 44 !in s.custom }

  predicate FirstUncommaed(secs: seq<Section>, i: nat) {
    i < |secs| && Uncommaed(secs[i]) && forall j | 0 <= j < i :: !Uncommaed(secs[j])
  }

  predicate FirstUnknown(cpu: u32, us: seq<Use>, k: nat) {
    k < |us| && Describe(cpu, us[k].rel.kind).None? && forall j | 0 <= j < k :: Describe(cpu, us[j].rel.kind).Some?
  }

  predicate FirstNameless(us: seq<Use>, k: nat) {
    k < |us| && us[k].rel.symbol == [] && forall j | 0 <= j < k :: us[j].rel.symbol != []
  }

  predicate AllKnown(cpu: u32, us: seq<Use>) { forall u | u in us :: Describe(cpu, u.rel.kind).Some? }

  lemma {:induction false} CommaFound(n: Name)
    ensures Comma(n).Some? <==> 44 in n
  {
    if n != [] {
      CommaFound(n[1..]);
      assert n == [n[0]] + n[1..];
    }
  }

  lemma {:induction false} UnsupportedAt(cpu: u32, us: seq<Use>) returns (k: nat)
    requires FirstUnsupported(cpu, us).Some?
    ensures FirstUnknown(cpu, us, k)
    ensures FirstUnsupported(cpu, us).value == UnsupportedReloc(us[k].sec, us[k].rel.kind)
  {
    var front := us[..|us| - 1];
    if FirstUnsupported(cpu, front).Some? {
      k := UnsupportedAt(cpu, front);
    } else {
      k := |us| - 1;
      FirstUnsupportedNone(cpu, front);
      forall j | 0 <= j < k ensures Describe(cpu, us[j].rel.kind).Some? { assert us[j] in front; }
    }
  }

  lemma {:induction false} UnnamedAt(secs: seq<Section>, n: nat) returns (i: nat)
    requires n <= |secs| && FirstUnnamed(secs, n).Some?
    ensures i < n && FirstUncommaed(secs, i) && FirstUnnamed(secs, n).value == NotSegmentSection(i)
  {
    forall j | 0 <= j < n ensures Named(secs[j]) <==> !Uncommaed(secs[j]) { CommaFound(secs[j].custom); }
    if FirstUnnamed(secs, n - 1).Some? {
      i := UnnamedAt(secs, n - 1);
    } else {
      i := n - 1;
      FirstUnnamedNone(secs, n - 1);
    }
  }

  lemma {:induction false} MissingAt(index: map<Name, nat>, us: seq<Use>) returns (k: nat)
    requires FirstMissing(index, us).Some? && forall u | u in us :: u.rel.symbol in index <==> u.rel.symbol != []
    ensures FirstNameless(us, k) && FirstMissing(index, us).value == MissingSymbol(us[k].sec, [])
  {
    var front := us[..|us| - 1];
    if FirstMissing(index, front).Some? {
      k := MissingAt(index, front);
    } else {
      k := |us| - 1;
      FirstMissingNone(index, front);
      forall j | 0 <= j < k ensures us[j].rel.symbol != [] { assert us[j] in front && us[j] in us; }
      assert us[k] in us;
    }
  }

  /** The first relocation of a kind that the CPU does not have comes first, in the order of
      the input, then the first custom section without a comma in its name, then the first
      relocation against the empty name. */
  lemma ErrorReported(x: Input)
    requires Outcome(x).Err?
    ensures var us := AllUses(x.secs);
            match Outcome(x).error
            case UnsupportedReloc(i, kind) =>
              exists k: nat :: FirstUnknown(x.cpu, us, k) && us[k].sec == i && us[k].rel.kind == kind
            case NotSegmentSection(i) => AllKnown(x.cpu, us) && FirstUncommaed(x.secs, i)
            case MissingSymbol(i, n) =>
              && AllKnown(x.cpu, us) && (forall j | 0 <= j < |x.secs| :: !Uncommaed(x.secs[j])) && n == []
              && exists k: nat :: FirstNameless(us, k) && us[k].sec == i
  {
    var us := AllUses(x.secs);
    FirstUnsupportedNone(x.cpu, us);
    if FirstUnsupported(x.cpu, us).Some? {
      var k := UnsupportedAt(x.cpu, us);
    } else if FirstUnnamed(x.secs, |x.secs|).Some? {
      var i := UnnamedAt(x.secs, |x.secs|);
    } else {
      FirstUnnamedNone(x.secs, |x.secs|);
      forall j | 0 <= j < |x.secs| ensures !Uncommaed(x.secs[j]) { CommaFound(x.secs[j].custom); }
      forall u | u in us ensures u.rel.symbol in Index(x.secs) <==> u.rel.symbol != [] { TargetIndexed(x.secs, u); }
      var k := MissingAt(Index(x.secs), us);
    }
  }
}
