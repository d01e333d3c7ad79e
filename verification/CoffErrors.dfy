/** Which error a COFF writer reports. */
module CoffErrors {
  import opened Names
  import opened Objects
  import opened CoffFormat
  import opened CoffSpec
  import opened CoffTables

  predicate Nameless(s: Section) { s.kind == Custom && s.custom == [] }

  /** More relocations than the header can count; those of sections without bytes do not. */
  predicate Overfilled(s: Section) {
    s.kind != BSS && (s.kind == TLS ==> s.code != []) && |s.relocs| > 0xFFFF
  }

  predicate FirstNameless(secs: seq<Section>, i: nat) {
    i < |secs| && Nameless(secs[i]) && forall j | 0 <= j < i :: !Nameless(secs[j])
  }

  predicate FirstOverfilled(secs: seq<Section>, i: nat) {
    i < |secs| && Overfilled(secs[i]) && forall j | 0 <= j < i :: !Overfilled(secs[j])
  }

  /** Use k is the first of a kind that the machine does not have. */
  predicate FirstUnknown(machine: u16, us: seq<Use>, k: nat) {
    && k < |us| && RelocType(machine, us[k].rel.kind).None?
    && forall j | 0 <= j < k :: RelocType(machine, us[j].rel.kind).Some?
  }

  lemma {:induction false} EmptyCustomAt(secs: seq<Section>, n: nat) returns (i: nat)
    requires n <= |secs| && EmptyCustom(secs, n).Some?
    ensures i < n && FirstNameless(secs, i) && EmptyCustom(secs, n).value == EmptyCustomName(i)
  {
    if EmptyCustom(secs, n - 1).Some? {
      i := EmptyCustomAt(secs, n - 1);
    } else {
      i := n - 1;
      EmptyCustomNone(secs, n - 1);
    }
  }

  lemma {:induction false} OverfullAt(secs: seq<Section>, n: nat) returns (i: nat)
    requires n <= |secs| && Overfull(secs, n).Some?
    ensures i < n && FirstOverfilled(secs, i) && Overfull(secs, n).value == TooManyRelocs(i, |secs[i].relocs|)
  {
    if Overfull(secs, n - 1).Some? {
      i := OverfullAt(secs, n - 1);
    } else {
      i := n - 1;
      OverfullNone(secs, n - 1);
    }
  }

  lemma {:induction false} FirstErrorAt(machine: u16, index: map<Name, nat>, us: seq<Use>) returns (k: nat)
    requires FirstError(machine, index, us).Some? && forall u | u in us :: u.rel.symbol in index
    ensures FirstUnknown(machine, us, k)
    ensures FirstError(machine, index, us).value == UnsupportedReloc(us[k].sec, us[k].rel.kind)
  {
    var front := us[..|us| - 1];
    if FirstError(machine, index, front).Some? {
      k := FirstErrorAt(machine, index, front);
    } else {
      k := |us| - 1;
      FirstErrorNone(machine, index, front);
      forall j | 0 <= j < k ensures RelocType(machine, us[j].rel.kind).Some? { assert us[j] in front; }
      assert us[k] in us;
    }
  }

  /** The checks that come first pass. */
  predicate Acceptable(secs: seq<Section>) {
    |secs| <= 0xFFFF && forall i | 0 <= i < |secs| :: !Nameless(secs[i])
  }

  predicate AllKnown(machine: u16, us: seq<Use>) { forall u | u in us :: RelocType(machine, u.rel.kind).Some? }

  /** Too many sections come first, then the first custom section without a name, then the
      first relocation of a kind that the machine does not have, in the order of the input,
      then the first section with more relocations than its header can count. */
  lemma ErrorReported(machine: u16, input: seq<Section>)
    requires Outcome(machine, input).Err?
    ensures var secs := AllSections(input);
            match Outcome(machine, input).error
            case TooManySections(n) => n == |secs| > 0xFFFF
            case EmptyCustomName(i) => |secs| <= 0xFFFF && FirstNameless(secs, i)
            case MissingSymbol(_, _) => false
            case UnsupportedReloc(i, kind) =>
              && Acceptable(secs)
              && exists k: nat :: FirstUnknown(machine, AllUses(secs), k) && AllUses(secs)[k].sec == i
                                  && AllUses(secs)[k].rel.kind == kind
            case TooManyRelocs(i, n) =>
              Acceptable(secs) && AllKnown(machine, AllUses(secs)) && FirstOverfilled(secs, i) && n == |secs[i].relocs|
  {
    var secs := AllSections(input);
    EmptyCustomNone(secs, |secs|);
    UsesIndexed(secs);
    if |secs| <= 0xFFFF {
      if EmptyCustom(secs, |secs|).Some? {
        var i := EmptyCustomAt(secs, |secs|);
      } else if FirstError(machine, Index(secs), AllUses(secs)).Some? {
        var k := FirstErrorAt(machine, Index(secs), AllUses(secs));
      } else {
        FirstErrorNone(machine, Index(secs), AllUses(secs));
        var i := OverfullAt(secs, |secs|);
      }
    }
  }
}
