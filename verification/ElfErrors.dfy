/** Which error an ELF writer reports: that of the first relocation that cannot be written, in
    the order of sections and relocations, else that of the first link-once section without
    an exported symbol. */
module ElfErrors {
  import opened Bytes
  import opened Names
  import opened Objects
  import opened ElfFormat
  import opened ElfSpec
  import opened ElfMeaning

  predicate KnownKind(machine: u16, u: Use) { RelocType(machine, u.rel.kind).Some? }

  ghost predicate KnownTarget(secs: seq<Section>, u: Use) {
    Targetable(secs, Emitted(secs, u.rel.symbol), u.rel.symbol)
  }

  /** Use k is the first that cannot be written. */
  ghost predicate FirstBad(x: Input, k: nat) {
    var us := AllUses(x.secs);
    && k < |us| && !(KnownTarget(x.secs, us[k]) && KnownKind(x.machine, us[k]))
    && forall j | 0 <= j < k :: KnownTarget(x.secs, us[j]) && KnownKind(x.machine, us[j])
  }

  predicate FirstUnresolvable(machine: u16, index: map<Name, nat>, us: seq<Use>, k: nat) {
    k < |us| && !Resolvable(machine, index, us[k].rel) && forall j | 0 <= j < k :: Resolvable(machine, index, us[j].rel)
  }

  lemma {:induction false} FirstErrorAt(machine: u16, index: map<Name, nat>, us: seq<Use>) returns (k: nat)
    requires FirstError(machine, index, us).Some?
    ensures FirstUnresolvable(machine, index, us, k)
    ensures FirstError(machine, index, us).value ==
            if us[k].rel.symbol !in index then MissingSymbol(us[k].sec, us[k].rel.symbol)
            else UnsupportedReloc(us[k].sec, us[k].rel.kind)
  {
    var front := us[..|us| - 1];
    if FirstError(machine, index, front).Some? {
      k := FirstErrorAt(machine, index, front);
    } else {
      k := |us| - 1;
      NoFirstError(machine, index, front);
      forall j | 0 <= j < k ensures Resolvable(machine, index, us[j].rel) { assert us[j] in front; }
    }
  }

  lemma {:induction false} ComdatErrorAt(secs: seq<Section>, index: map<Name, nat>, n: nat) returns (i: nat)
    requires n <= |secs| && ComdatError(secs, index, n).Some?
    ensures i < n && secs[i].linkOnce && ComdatSig(secs[i].symbols, index).None?
    ensures forall j | 0 <= j < i && secs[j].linkOnce :: ComdatSig(secs[j].symbols, index).Some?
    ensures ComdatError(secs, index, n).value == NoComdatSignature(i)
  {
    if ComdatError(secs, index, n - 1).Some? {
      i := ComdatErrorAt(secs, index, n - 1);
    } else {
      i := n - 1;
      ComdatErrorFree(secs, index, n - 1);
    }
  }

  lemma KnownIndexed(x: Input, u: Use)
    requires u in AllUses(x.secs)
    ensures KnownTarget(x.secs, u) <==> u.rel.symbol in Index(x.secs)
  {
    IndexHas(x.secs, u.rel.symbol);
    assert u.rel.symbol in UseNames(AllUses(x.secs));
  }

  lemma ExportedSigned(secs: seq<Section>, i: nat)
    requires i < |secs|
    ensures ComdatSig(secs[i].symbols, Index(secs)).Some? <==> HasExported(secs[i])
  {
    ExportedIndexed(secs, i);
    ComdatSigFound(secs[i].symbols, Index(secs));
  }

  /** Section i is the first link-once section without an exported symbol. */
  predicate FirstUnsigned(secs: seq<Section>, i: nat) {
    && i < |secs| && secs[i].linkOnce && !HasExported(secs[i])
    && forall j | 0 <= j < i && secs[j].linkOnce :: HasExported(secs[j])
  }

  lemma UseErrorReported(x: Input) returns (k: nat)
    requires FirstError(x.machine, Index(x.secs), AllUses(x.secs)).Some?
    ensures FirstBad(x, k) && Outcome(x) ==
            var u := AllUses(x.secs)[k];
            Err(if !KnownTarget(x.secs, u) then MissingSymbol(u.sec, u.rel.symbol)
                else UnsupportedReloc(u.sec, u.rel.kind))
  {
    var us := AllUses(x.secs);
    k := FirstErrorAt(x.machine, Index(x.secs), us);
    forall j | 0 <= j < |us| ensures KnownTarget(x.secs, us[j]) <==> us[j].rel.symbol in Index(x.secs) {
      KnownIndexed(x, us[j]);
    }
  }

  lemma GroupErrorReported(x: Input) returns (i: nat)
    requires FirstError(x.machine, Index(x.secs), AllUses(x.secs)).None? && Outcome(x).Err?
    ensures FirstUnsigned(x.secs, i) && Outcome(x) == Err(NoComdatSignature(i))
    ensures forall k: nat :: !FirstBad(x, k)
  {
    var us := AllUses(x.secs);
    i := ComdatErrorAt(x.secs, Index(x.secs), |x.secs|);
    forall j | 0 <= j < |x.secs|
      ensures ComdatSig(x.secs[j].symbols, Index(x.secs)).Some? <==> HasExported(x.secs[j])
    {
      ExportedSigned(x.secs, j);
    }
    NoFirstError(x.machine, Index(x.secs), us);
    forall k: nat ensures !FirstBad(x, k) {
      if k < |us| { KnownIndexed(x, us[k]); }
    }
  }

  /** A failure names the first relocation, in the order of the input, whose target or kind
      cannot be written, an unknown target before an unknown kind; and if there is none, the
      first link-once section without a global or weak symbol. */
  lemma ErrorReported(x: Input)
    requires Outcome(x).Err?
    ensures match Outcome(x).error
            case MissingSymbol(i, n) =>
              exists k: nat :: FirstBad(x, k) && !KnownTarget(x.secs, AllUses(x.secs)[k])
                          && AllUses(x.secs)[k].sec == i && AllUses(x.secs)[k].rel.symbol == n
            case UnsupportedReloc(i, kind) =>
              exists k: nat :: FirstBad(x, k) && KnownTarget(x.secs, AllUses(x.secs)[k])
                          && AllUses(x.secs)[k].sec == i && AllUses(x.secs)[k].rel.kind == kind
            case NoComdatSignature(i) => FirstUnsigned(x.secs, i) && forall k: nat :: !FirstBad(x, k)
  {
    if FirstError(x.machine, Index(x.secs), AllUses(x.secs)).Some? {
      var k := UseErrorReported(x);
    } else {
      var i := GroupErrorReported(x);
    }
  }
}
