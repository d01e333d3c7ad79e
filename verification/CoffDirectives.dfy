/** Reading the export list back from the .drectve section the way a linker does: the text is
    a list of options separated by spaces, and each export is one option. */
module CoffDirectives {
  import opened Bytes
  import opened Names
  import opened Objects
  import opened CoffSpec
  import opened CoffTables
  import opened CoffWalk
  import opened CoffSections
  import opened CoffTheorems
  import CoffReader

  const SPACE: byte := 32

  /** The stretches between spaces, empty ones included; there is at least one. */
  function Split(text: seq<byte>): (ws: seq<seq<byte>>)
    ensures ws != []
  {
    if text == [] then [[]] else
    var front, c := Split(text[..|text| - 1]), text[|text| - 1];
    if c == SPACE then front + [[]] else front[..|front| - 1] + [front[|front| - 1] + [c]]
  }

  /** The options are the stretches that are not empty. */
  function Options(ws: seq<seq<byte>>): seq<seq<byte>> {
    if ws == [] then [] else
    Options(ws[..|ws| - 1]) + if ws[|ws| - 1] == [] then [] else [ws[|ws| - 1]]
  }

  function ExportOption(): seq<byte> { Ascii("/EXPORT:") }

  /** The name in an export option; none if the option is another one. */
  function ExportName(option: seq<byte>): Option<Name> {
    if ExportOption() <= option then Some(option[|ExportOption()|..]) else None
  }

  /** The exported names, if there are only export options. */
  function ExportNames(options: seq<seq<byte>>): Option<seq<Name>> {
    if options == [] then Some([]) else
    var front :- ExportNames(options[..|options| - 1]);
    var n :- ExportName(options[|options| - 1]);
    Some(front + [n])
  }

  function ReadExports(text: seq<byte>): Option<seq<Name>> { ExportNames(Options(Split(text))) }

  predicate SpaceFree(n: Name) { SPACE !in n }

  // ------------------------------------------------------- when nothing has a space

  lemma {:induction false} SplitWord(text: seq<byte>, word: seq<byte>)
    requires SpaceFree(word)
    ensures Split(text + [SPACE] + word) == Split(text) + [word]
  {
    var whole := text + [SPACE] + word;
    if word == [] {
      assert whole[..|whole| - 1] == text;
    } else {
      var front, c := word[..|word| - 1], word[|word| - 1];
      assert whole[..|whole| - 1] == text + [SPACE] + front;
      SplitWord(text, front);
      assert front + [c] == word && c in word;
    }
  }

  function OptionsOf(names: seq<Name>): (os: seq<seq<byte>>)
    ensures |os| == |names| && forall i | 0 <= i < |names| :: os[i] == ExportOption() + names[i]
  {
    seq(|names|, i requires 0 <= i < |names| => ExportOption() + names[i])
  }

  lemma OptionFree(n: Name)
    requires SpaceFree(n)
    ensures SpaceFree(ExportOption() + n) && Ascii(" /EXPORT:") + n == [SPACE] + (ExportOption() + n)
  {
    assert Ascii(" /EXPORT:") == [SPACE] + ExportOption();
  }

  lemma TextStep(front: seq<Name>, n: Name)
    ensures DirectiveText(front + [n]) == DirectiveText(front) + Ascii(" /EXPORT:") + n
  {
    assert (front + [n])[..|front|] == front;
  }

  lemma Regroup(a: seq<byte>, b: seq<byte>, c: seq<byte>)
    ensures a + b + c == a + (b + c)
  {
  }

  lemma WordAppended(text: seq<byte>, n: Name)
    requires SpaceFree(n)
    ensures Split(text + Ascii(" /EXPORT:") + n) == Split(text) + [ExportOption() + n]
  {
    var word := ExportOption() + n;
    OptionFree(n);
    SplitWord(text, word);
    Regroup(text, Ascii(" /EXPORT:"), n);
    Regroup(text, [SPACE], word);
  }

  lemma {:induction false} TextSplits(names: seq<Name>)
    requires forall i | 0 <= i < |names| :: SpaceFree(names[i])
    ensures Split(DirectiveText(names)) == [[]] + OptionsOf(names)
  {
    if names != [] {
      var front, n := names[..|names| - 1], names[|names| - 1];
      TextSplits(front);
      TextStep(front, n);
      WordAppended(DirectiveText(front), n);
      assert names == front + [n];
      assert OptionsOf(names) == OptionsOf(front) + [ExportOption() + n];
    }
  }

  lemma {:induction false} OptionsKept(ws: seq<seq<byte>>)
    requires forall i | 0 <= i < |ws| :: ws[i] != []
    ensures Options([[]] + ws) == ws
  {
    if ws != [] {
      OptionsKept(ws[..|ws| - 1]);
      assert ([[]] + ws)[..|ws|] == [[]] + ws[..|ws| - 1];
    }
  }

  lemma NameBack(n: Name)
    ensures ExportName(ExportOption() + n) == Some(n)
  {
  }

  lemma {:induction false} NamesOf(names: seq<Name>)
    ensures ExportNames(OptionsOf(names)) == Some(names)
  {
    if names != [] {
      NamesOf(names[..|names| - 1]);
      NameBack(names[|names| - 1]);
      assert names == names[..|names| - 1] + [names[|names| - 1]];
      assert OptionsOf(names)[..|names| - 1] == OptionsOf(names[..|names| - 1]);
    }
  }

  lemma ReadsBack(names: seq<Name>)
    requires forall i | 0 <= i < |names| :: SpaceFree(names[i])
    ensures ReadExports(DirectiveText(names)) == Some(names)
  {
    TextSplits(names);
    OptionsKept(OptionsOf(names));
    NamesOf(names);
  }

  // ------------------------------------------------------- what is read has no space

  lemma {:induction false} SplitFree(text: seq<byte>)
    ensures forall i | 0 <= i < |Split(text)| :: SpaceFree(Split(text)[i])
  {
    if text != [] { SplitFree(text[..|text| - 1]); }
  }

  lemma {:induction false} OptionsFree(ws: seq<seq<byte>>)
    requires forall i | 0 <= i < |ws| :: SpaceFree(ws[i])
    ensures forall i | 0 <= i < |Options(ws)| :: SpaceFree(Options(ws)[i])
  {
    if ws != [] { OptionsFree(ws[..|ws| - 1]); }
  }

  lemma {:induction false} NamesFree(options: seq<seq<byte>>)
    requires ExportNames(options).Some? && forall i | 0 <= i < |options| :: SpaceFree(options[i])
    ensures var ns := ExportNames(options).value; forall i | 0 <= i < |ns| :: SpaceFree(ns[i])
  {
    if options != [] { NamesFree(options[..|options| - 1]); }
  }

  /** The directive text gives its names back exactly if none of them has a space. */
  lemma ReadBackIff(names: seq<Name>)
    ensures ReadExports(DirectiveText(names)) == Some(names) <==> forall n | n in names :: SpaceFree(n)
  {
    if ReadExports(DirectiveText(names)) == Some(names) {
      SplitFree(DirectiveText(names));
      OptionsFree(Split(DirectiveText(names)));
      NamesFree(Options(Split(DirectiveText(names))));
    }
    if forall n | n in names :: SpaceFree(n) { ReadsBack(names); }
  }

  lemma TextOfTwo(a: Name, b: Name)
    ensures DirectiveText([a]) == Ascii(" /EXPORT:") + a
    ensures DirectiveText([a, b]) == Ascii(" /EXPORT:") + a + Ascii(" /EXPORT:") + b
  {
    TextStep([], a);
    TextStep([a], b);
    assert [a] + [b] == [a, b] && [] + [a] == [a];
  }

  /** With a space, one name can look like two: no reader could tell these lists apart. */
  lemma SameText(a: Name, b: Name)
    ensures DirectiveText([a + Ascii(" /EXPORT:") + b]) == DirectiveText([a, b])
  {
    var sep := Ascii(" /EXPORT:");
    TextOfTwo(a, b);
    TextOfTwo(a + sep + b, b);
    Regroup(sep, a, sep);
    Regroup(sep, a + sep, b);
  }

  // ------------------------------------------------------------------ in the file

  /** The definitions that are marked for export, in order. */
  function Marked(ds: seq<Def>): seq<Def> {
    if ds == [] then [] else
    Marked(ds[..|ds| - 1]) + if ds[|ds| - 1].sym.dllExport then [ds[|ds| - 1]] else []
  }

  /** The names of the given definitions, one for one. */
  predicate AreNames(ns: seq<Name>, ds: seq<Def>) {
    |ns| == |ds| && forall k | 0 <= k < |ds| :: ns[k] == ds[k].sym.name
  }

  lemma {:induction false} ExportsMarked(ds: seq<Def>)
    ensures AreNames(Exports(ds), Marked(ds))
    ensures forall d :: d in Marked(ds) <==> d in ds && d.sym.dllExport
  {
    if ds != [] {
      ExportsMarked(ds[..|ds| - 1]);
      assert ds == ds[..|ds| - 1] + [ds[|ds| - 1]];
    }
  }

  lemma NothingBaked(machine: u16, names: seq<Name>)
    ensures BakedCode(machine, Drectve(names)) == DirectiveText(names)
  {
  }

  lemma DrectveView(machine: u16, t: Tables, names: seq<Name>)
    ensures AllTargeted(machine, t, Drectve(names).relocs)
    ensures var v := SectionViewOf(machine, t, Drectve(names));
            v.name == Ascii(".drectve") && v.chars == 0x10_0A00 && v.data == DirectiveText(names) && v.relocs == []
  {
    NothingBaked(machine, names);
  }

  lemma LastSection(secs: seq<Section>)
    requires Exports(AllDefs(secs)) != []
    ensures AllSections(secs)[|secs|..] == [Drectve(Exports(AllDefs(secs)))]
    ensures |AllSections(secs)| == |secs| + 1 && AllSections(secs)[|secs|] == Drectve(Exports(AllDefs(secs)))
  {
  }

  /** The sections sv are n others, then one for the linker alone (LNK_INFO, LNK_REMOVE) that
      lists the given names if there are any: a linker reads exactly those from it if and only if none has a space. */
  predicate Listed(sv: seq<CoffReader.SectionView>, n: nat, names: seq<Name>) {
    && |sv| == n + (if names == [] then 0 else 1)
    && (names != [] ==>
          && sv[n].name == Ascii(".drectve") && sv[n].chars == 0x10_0A00 && sv[n].relocs == []
          && (ReadExports(sv[n].data) == Some(names) <==> forall m | m in names :: SpaceFree(m)))
  }

  lemma ListedIn(machine: u16, t: Tables, secs: seq<Section>)
    requires forall i | 0 <= i < |AllSections(secs)| :: AllTargeted(machine, t, AllSections(secs)[i].relocs)
    ensures Listed(SectionViewsOf(machine, t, AllSections(secs)), |secs|, Exports(AllDefs(secs)))
  {
    var names := Exports(AllDefs(secs));
    if names != [] {
      LastSection(secs);
      DrectveView(machine, t, names);
      ReadBackIff(names);
    }
  }

  /** Whatever is exported is listed in a last section .drectve, from which a linker reads
      exactly the exported names, in definition order, if and only if none has a space. */
  lemma ExportsRecovered(machine: u16, secs: seq<Section>)
    requires Buildable(machine, AllSections(secs)) && InBounds(machine, AllSections(secs))
    ensures AreNames(Exports(AllDefs(secs)), Marked(AllDefs(secs)))
    ensures Listed(ObjectOfFile(machine, AllSections(secs)).sections, |secs|, Exports(AllDefs(secs)))
  {
    ExportsMarked(AllDefs(secs));
    RoundTrip(machine, AllSections(secs));
    ListedIn(machine, TablesOf(AllSections(secs)), secs);
  }
}
