/** Two demands of the gABI (chapter 4, section groups) that the writer does not meet: members
    carry the SHF_GROUP flag, and a group's header comes before those of its members. */
module ElfGroups {
  import opened Objects
  import opened ElfFormat
  import opened ElfSpec
  import opened ElfReader
  import opened ElfTables
  import opened ElfTheorems
  import opened ElfRecovered

  const SHF_GROUP := 0x200

  predicate InGroup(flags: nat) { flags / SHF_GROUP % 2 == 1 }

  predicate IsGroup(v: ObjectView, k: nat) { k < |v.sections| && v.sections[k].shType == SHT_GROUP }

  /** The header numbers in a group section, behind its flag word. */
  function Members(v: ObjectView, k: nat): seq<nat>
    requires k < |v.sections|
  {
    var ws := Words(v.sections[k].bytes);
    if ws == [] then [] else ws[1..]
  }

  predicate HeaderFirst(v: ObjectView, k: nat)
    requires k < |v.sections|
  {
    forall m | m in Members(v, k) :: k < m < |v.sections|
  }

  predicate MembersFlagged(v: ObjectView, k: nat)
    requires k < |v.sections|
  {
    forall m | m in Members(v, k) :: m < |v.sections| && InGroup(v.sections[m].flags)
  }

  ghost predicate GroupsOrdered(v: ObjectView) { forall k: nat | IsGroup(v, k) :: HeaderFirst(v, k) }
  ghost predicate GroupsFlagged(v: ObjectView) { forall k: nat | IsGroup(v, k) :: MembersFlagged(v, k) }

  predicate AnyLinkOnce(secs: seq<Section>) { exists i :: 0 <= i < |secs| && secs[i].linkOnce }

  // ------------------------------------------------------------ without link-once

  lemma {:induction false} LinkOnceHas(secs: seq<Section>, n: nat, i: nat)
    requires i < n <= |secs| && secs[i].linkOnce
    ensures i in LinkOnce(secs, n)
  {
    if i < n - 1 { LinkOnceHas(secs, n - 1, i); }
  }

  lemma LinkOnceNone(secs: seq<Section>)
    ensures LinkOnce(secs, |secs|) == [] <==> !AnyLinkOnce(secs)
  {
    if i :| 0 <= i < |secs| && secs[i].linkOnce { LinkOnceHas(secs, |secs|, i); }
    if LinkOnce(secs, |secs|) != [] { assert secs[LinkOnce(secs, |secs|)[0]].linkOnce; }
  }

  lemma ContentNoGroup(x: Input)
    requires Buildable(x)
    ensures forall i | 0 <= i < |PartsOf(x).content| :: PartsOf(x).content[i].shType != SHT_GROUP
    ensures PartsOf(x).strtab.shType == SHT_STRTAB
  {
  }

  lemma NoGroupAt(p: Parts, ds: seq<SecDesc>, k: nat)
    requires Positioned(p, ds) && k < |ds| && p.group == []
    requires forall i | 0 <= i < |p.content| :: p.content[i].shType != SHT_GROUP
    requires forall i | 0 <= i < |p.rela| :: p.rela[i].shType == SHT_RELA
    requires forall i | 0 <= i < |p.note| :: p.note[i].shType == SHT_PROGBITS
    requires p.symtab.shType == SHT_SYMTAB && p.strtab.shType == SHT_STRTAB
    ensures ds[k].shType != SHT_GROUP
  {
    PartHolds(p, ds, k, (d: SecDesc) => d.shType != SHT_GROUP);
  }

  lemma NoGroupDescs(x: Input)
    requires Buildable(x) && InputFits(x) && !AnyLinkOnce(x.secs)
    ensures forall k | 0 <= k < |Descs(x)| :: Descs(x)[k].shType != SHT_GROUP
  {
    LinkOnceNone(x.secs);
    IndexFormulas(x);
    PartsNotRela(x);
    ContentNoGroup(x);
    forall k | 0 <= k < |Descs(x)| ensures Descs(x)[k].shType != SHT_GROUP { NoGroupAt(PartsOf(x), Descs(x), k); }
  }

  lemma NoGroups(x: Input)
    requires Buildable(x) && InBounds(x) && !AnyLinkOnce(x.secs)
    ensures forall k: nat :: !IsGroup(ObjectOfImage(x), k)
  {
    Recovered(x);
    NoGroupDescs(x);
  }

  // --------------------------------------------------------------- with link-once

  lemma ContentUnflagged(s: Section)
    ensures !InGroup(SectionFlags(s))
  {
  }

  lemma FlagsRecovered(x: Input, i: nat)
    requires Buildable(x) && InBounds(x) && i < |x.secs|
    ensures 1 + i < |ObjectOfImage(x).sections|
    ensures ObjectOfImage(x).sections[1 + i].flags == SectionFlags(x.secs[i])
  {
    SectionsRecovered(x, i);
  }

  /** A group whose first member is header 1 + i, where header k comes later and the member
      carries no flag. */
  lemma GroupFails(x: Input, v: ObjectView, m: nat, k: nat, i: nat)
    requires i < |x.secs| < k && GroupRead(x, v, m, k, i)
    requires 1 + i < |v.sections| && v.sections[1 + i].flags == SectionFlags(x.secs[i])
    ensures IsGroup(v, k) && !HeaderFirst(v, k) && !MembersFlagged(v, k)
  {
    assert Members(v, k)[0] == 1 + i && 1 + i in Members(v, k);
    ContentUnflagged(x.secs[i]);
  }

  /** The j-th group, for any object it is read in. */
  lemma GroupFailsAt(x: Input, v: ObjectView, j: nat)
    requires j < |LinkOnce(x.secs, |x.secs|)|
    requires GroupRead(x, v, SymtabIdx(x), 1 + |x.secs| + |Relocated(x.secs, |x.secs|)| + j,
                       LinkOnce(x.secs, |x.secs|)[j])
    requires var i := LinkOnce(x.secs, |x.secs|)[j];
             1 + i < |v.sections| && v.sections[1 + i].flags == SectionFlags(x.secs[i])
    ensures exists k :: IsGroup(v, k) && !HeaderFirst(v, k) && !MembersFlagged(v, k)
  {
    GroupFails(x, v, SymtabIdx(x), 1 + |x.secs| + |Relocated(x.secs, |x.secs|)| + j, LinkOnce(x.secs, |x.secs|)[j]);
  }

  lemma EveryGroupFails(x: Input, j: nat)
    requires Buildable(x) && InBounds(x) && j < |LinkOnce(x.secs, |x.secs|)|
    ensures exists k :: IsGroup(ObjectOfImage(x), k) && !HeaderFirst(ObjectOfImage(x), k)
                        && !MembersFlagged(ObjectOfImage(x), k)
  {
    GroupsRecovered(x, j);
    FlagsRecovered(x, LinkOnce(x.secs, |x.secs|)[j]);
    GroupFailsAt(x, ObjectOfImage(x), j);
  }

  /** The file meets either demand exactly if it has no groups, that is, if no section is
      link-once. */
  lemma ConformIff(x: Input)
    requires Buildable(x) && InBounds(x)
    ensures GroupsOrdered(ObjectOfImage(x)) <==> !AnyLinkOnce(x.secs)
    ensures GroupsFlagged(ObjectOfImage(x)) <==> !AnyLinkOnce(x.secs)
  {
    if AnyLinkOnce(x.secs) {
      LinkOnceNone(x.secs);
      EveryGroupFails(x, 0);
    } else {
      NoGroups(x);
    }
  }
}
