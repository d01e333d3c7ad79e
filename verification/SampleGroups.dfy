/** The small input with its first section link-once: the group is written behind its members,
    and they are not marked as members. */
module SampleGroups {
  import opened Bytes
  import opened Objects
  import opened ElfSpec
  import opened ElfReader
  import opened ElfTables
  import opened ElfRecovered
  import opened ElfGroups
  import ElfSample
  import Sample

  const Once := Sample.Case(Zeros(8), Abs64, 7, true)

  ghost function Object(): ObjectView
    requires Buildable(ElfSample.SampleInput(Once)) && InBounds(ElfSample.SampleInput(Once))
  {
    ObjectOfImage(ElfSample.SampleInput(Once))
  }

  lemma Fits()
    ensures Buildable(ElfSample.SampleInput(Once)) && InBounds(ElfSample.SampleInput(Once))
    ensures Outcome(ElfSample.SampleInput(Once)).Ok?
    ensures ReadObject(Outcome(ElfSample.SampleInput(Once)).value) == Some(Object())
  {
    ElfSample.Fits(Once);
  }

  lemma MembersOf(x: Input, v: ObjectView, m: nat, k: nat)
    requires x.secs == Sample.Sections(Once) && GroupRead(x, v, m, k, 0)
    ensures IsGroup(v, k) && Members(v, k) == [1, 3]
  {
    assert Relocated(x.secs, 0) == [];
    assert Words(v.sections[k].bytes) == [1, 1, 3];
  }

  lemma Positions(secs: seq<Section>)
    requires secs == Sample.Sections(Once)
    ensures LinkOnce(secs, |secs|) == [0] && 1 + |secs| + |Relocated(secs, |secs|)| == 4
  {
    ElfSample.Counts(Once);
  }

  /** The only group, in any file that has one. */
  lemma OnlyGroup(x: Input, i: nat)
    requires Buildable(x) && InBounds(x) && i < |x.secs| && LinkOnce(x.secs, |x.secs|) == [i]
    ensures GroupRead(x, ObjectOfImage(x), SymtabIdx(x), 1 + |x.secs| + |Relocated(x.secs, |x.secs|)| + 0, i)
  {
    GroupsRecovered(x, 0);
  }

  lemma MembersWhen(x: Input, v: ObjectView, m: nat, k: nat)
    requires x.secs == Sample.Sections(Once)
    ensures GroupRead(x, v, m, k + 0, 0) && k == 4 ==> IsGroup(v, 4) && Members(v, 4) == [1, 3]
  {
    if GroupRead(x, v, m, k + 0, 0) && k == 4 { MembersOf(x, v, m, k); }
  }

  /** Header 4 is the group; its members are header 1, the section, and header 3, its
      relocations. */
  lemma GroupLast(x: Input)
    requires x.secs == Sample.Sections(Once) && Buildable(x) && InBounds(x)
    ensures IsGroup(ObjectOfImage(x), 4) && Members(ObjectOfImage(x), 4) == [1, 3]
  {
    Positions(x.secs);
    OnlyGroup(x, 0);
    MembersWhen(x, ObjectOfImage(x), SymtabIdx(x), 1 + |x.secs| + |Relocated(x.secs, |x.secs|)|);
  }

  /** The writer reports nothing, and the file meets neither demand. */
  lemma GroupMisplaced()
    ensures Buildable(ElfSample.SampleInput(Once)) && InBounds(ElfSample.SampleInput(Once))
    ensures Outcome(ElfSample.SampleInput(Once)).Ok?
    ensures ReadObject(Outcome(ElfSample.SampleInput(Once)).value) == Some(Object())
    ensures IsGroup(Object(), 4) && Members(Object(), 4) == [1, 3]
    ensures !GroupsOrdered(Object()) && !GroupsFlagged(Object())
  {
    Fits();
    GroupLast(ElfSample.SampleInput(Once));
    assert ElfSample.SampleInput(Once).secs[0].linkOnce;
    ConformIff(ElfSample.SampleInput(Once));
  }
}
