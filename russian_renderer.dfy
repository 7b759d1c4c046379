/** The Russian renderer (lib/pubid/iso/renderer/russian.rb): the three
    Latin-to-Cyrillic tables, the per-field renderers that translate through
    them, and the template override that moves "Guide" to the front. */
module RussianRenderer {
  import opened RubyText
  import opened Template

  /** `PUBLISHER`, `STAGE` and `TYPE`, in their declaration order. */
  const PublisherTable: seq<(string, string)> := [("ISO", "ИСО"), ("IEC", "МЭК")]

  const StageTable: seq<(string, string)> :=
    [("FDIS", "ОПМС"), ("DIS", "ПМС"), ("NP", "НП"), ("AWI", "АВИ"),
     ("CD", "КПК"), ("PD", "ПД"), ("FPD", "ФПД")]

  const TypeTable: seq<(string, string)> :=
    [("Guide", "Руководство"), ("TS", "ТС"), ("TR", "ТО"), ("ISP", "ИСП")]

  /** The word placed at the front of a Russian guide identifier. */
  const GuideWord: string := "Руководство "

  /** Every table maps distinct Latin codes to distinct Cyrillic words, so the
      transformer's reverse lookup (`Hash#key`) undoes the renderer's lookup. */
  lemma TablesOneToOne()
    ensures KeysUnique(PublisherTable) && ValuesUnique(PublisherTable)
    ensures KeysUnique(StageTable) && ValuesUnique(StageTable)
    ensures KeysUnique(TypeTable) && ValuesUnique(TypeTable)
  {
    PublisherTableOneToOne();
    StageTableOneToOne();
    TypeTableOneToOne();
  }

  lemma PublisherTableOneToOne()
    ensures KeysUnique(PublisherTable) && ValuesUnique(PublisherTable)
  {
  }

  lemma StageTableOneToOne()
    ensures KeysUnique(StageTable) && ValuesUnique(StageTable)
  {
  }

  lemma TypeTableOneToOne()
    ensures KeysUnique(TypeTable) && ValuesUnique(TypeTable)
  {
  }

  /** Every Latin code begins below U+0400 and every Russian word at or
      above it. */
  predicate Latin(s: string) {
    s == [] || s[0] < 'Ѐ'
  }

  lemma TableScripts()
    ensures forall i :: 0 <= i < |PublisherTable| ==> Latin(PublisherTable[i].0) && !Latin(PublisherTable[i].1)
    ensures forall i :: 0 <= i < |StageTable| ==> Latin(StageTable[i].0) && !Latin(StageTable[i].1)
    ensures forall i :: 0 <= i < |TypeTable| ==> Latin(TypeTable[i].0) && !Latin(TypeTable[i].1)
  {
  }

  /** So no Latin code is found by the transformer's reverse lookup. */
  lemma LatinIsNoRussianWord(code: string)
    requires Latin(code)
    ensures KeyOf(PublisherTable, code).None?
    ensures KeyOf(StageTable, code).None?
    ensures KeyOf(TypeTable, code).None?
  {
    TableScripts();
  }

  /** The Cyrillic words contain no '-', so the `gsub('-', '/')` applied to a
      translated copublisher never changes it. */
  lemma PublisherWordsHaveNoDash(i: nat)
    requires i < |PublisherTable|
    ensures '-' !in PublisherTable[i].1
    ensures Gsub(PublisherTable[i].1, '-', '/') == PublisherTable[i].1
  {
    var w := PublisherTable[i].1;
    assert '-' !in w;
    assert Gsub(w, '-', '/') == w;
  }

  /** `render_publisher`: the translation, nil for an unknown publisher. */
  function RenderPublisher(publisher: string): (r: Option<string>)
    ensures r.Some? <==> publisher == "ISO" || publisher == "IEC"
    ensures publisher == "ISO" ==> r == Some("ИСО")
    ensures publisher == "IEC" ==> r == Some("МЭК")
  {
    ValueOf(PublisherTable, publisher)
  }

  /** The prerendered copublisher: one name, or the array the parser's
      repeated-key merge produced. */
  datatype CopublisherParam = Single(name: string) | List(names: seq<string>)

  /** "/" + translation for each name in turn; None when a name is not in
      the table (`nil.gsub` raises NoMethodError). */
  function Translated(names: seq<string>): (r: Option<string>)
    ensures r.Some? <==> forall k :: 0 <= k < |names| ==> RenderPublisher(names[k]).Some?
  {
    if names == [] then Some("")
    else match RenderPublisher(names[0])
      case None => None
      case Some(word) =>
        match Translated(names[1..])
        case None => None
        case Some(rest) => Some("/" + Gsub(word, '-', '/') + rest)
  }

  /** `render_copublisher`: an array renders sorted and fails on an unknown
      name; a single unknown name renders as a bare "/". */
  function RenderCopublisher(c: CopublisherParam): (r: Option<string>)
    ensures c.Single? ==> r == Some("/" + RenderPublisher(c.name).GetOr(""))
    ensures c.List? ==> r == Translated(Sort(c.names))
  {
    match c
    case Single(name) => Some("/" + RenderPublisher(name).GetOr(""))
    case List(names) => Translated(Sort(names))
  }

  /** An array of copublishers renders the same whatever its order. */
  lemma CopublisherOrderIndependent(xs: seq<string>, ys: seq<string>)
    requires multiset(xs) == multiset(ys)
    ensures RenderCopublisher(List(xs)) == RenderCopublisher(List(ys))
  {
    SortOrderIndependent(xs, ys);
  }

  /** An array holding a copublisher outside the table cannot be rendered,
      while the same name on its own renders as "/". */
  lemma UnknownCopublisher(xs: seq<string>, name: string)
    requires name in xs
    requires name != "ISO" && name != "IEC"
    ensures RenderCopublisher(List(xs)).None?
    ensures RenderCopublisher(Single(name)) == Some("/")
  {
    var sorted := Sort(xs);
    assert name in multiset(xs);
    assert name in multiset(sorted);
    var k :| 0 <= k < |sorted| && sorted[k] == name;
    assert RenderPublisher(sorted[k]).None?;
    assert RenderPublisher(name) == None;
    assert "/" + "" == "/";
  }

  /** A one-element array renders like the single name it holds. */
  lemma SingletonListLikeSingle(name: string)
    requires name == "ISO" || name == "IEC"
    ensures RenderCopublisher(List([name])) == RenderCopublisher(Single(name))
  {
    assert Sort([name]) == Insert(name, []) == [name];
    var i := if name == "ISO" then 0 else 1;
    assert PublisherTable[i].0 == name;
    PublisherWordsHaveNoDash(i);
    var word := PublisherTable[i].1;
    assert RenderPublisher(name) == Some(word);
    assert Translated([name][1..]) == Some("");
    assert Translated([name]) == Some("/" + Gsub(word, '-', '/') + "");
    assert "/" + word + "" == "/" + word;
  }

  /** `render_stage`: the Russian stage word after " " (with a copublisher)
      or "/" (without); a stage outside the table renders as the bare
      separator. */
  function RenderStage(stage: string, hasCopublisher: bool): (r: string)
    ensures |r| >= 1 && r[0] == (if hasCopublisher then ' ' else '/')
    ensures r[1..] == ValueOf(StageTable, stage).GetOr("")
  {
    (if hasCopublisher then " " else "/") + ValueOf(StageTable, stage).GetOr("")
  }

  /** `render_amendments` and `render_corrigendums`: the default rendering
      with every space turned into ".". */
  function DotSpaces(defaultText: string): (r: string)
    ensures |r| == |defaultText|
    ensures ' ' !in r
    ensures forall i :: 0 <= i < |r| && defaultText[i] != ' ' ==> r[i] == defaultText[i]
  {
    Gsub(defaultText, ' ', '.')
  }

  function RenderAmendments(defaultText: string): string {
    DotSpaces(defaultText)
  }

  function RenderCorrigendums(defaultText: string): string {
    DotSpaces(defaultText)
  }

  /** The Hash of prerendered params handed to `render_identifier`; the
      renderer writes into it. */
  class ParamTable {
    var entries: Params

    constructor(entries: Params)
      ensures this.entries == entries
    {
      this.entries := entries;
    }

    /** `render_identifier`: for a guide the type entry is cleared in place
        and "Руководство " is put in front of the default rendering (Core's
        template, passed in); any other type takes the default rendering.*/
    method RenderIdentifier(defaultRender: Params -> string) returns (r: string)
      modifies this
      ensures old(Get(entries, Type)) == " Guide" ==>
        entries == old(entries)[Type := ""] && r == GuideWord + defaultRender(entries)
      ensures old(Get(entries, Type)) != " Guide" ==>
        entries == old(entries) && r == defaultRender(entries)
    {
      if Get(entries, Type) == " Guide" {
        entries := entries[Type := ""];
        r := GuideWord + defaultRender(entries);
      } else {
        r := defaultRender(entries);
      }
    }
  }

  /** What `render_identifier` returns, as a function of the params it is
      given. */
  function RenderedIdentifier(p: Params, defaultRender: Params -> string): string {
    if Get(p, Type) == " Guide" then GuideWord + defaultRender(p[Type := ""]) else defaultRender(p)
  }

  /** Guide fronting removes the type, so a second rendering of the
      rewritten params takes the default path and repeats no "Руководство". */
  lemma GuideFrontedOnce(p: Params, defaultRender: Params -> string)
    requires Get(p, Type) == " Guide"
    ensures RenderedIdentifier(p, defaultRender) == GuideWord + RenderedIdentifier(p[Type := ""], defaultRender)
  {
  }

  /** The method and the function agree. */
  method RenderTwice(p: Params, defaultRender: Params -> string) returns (first: string, second: string)
    ensures first == RenderedIdentifier(p, defaultRender)
    ensures Get(p, Type) == " Guide" ==> second == defaultRender(p[Type := ""])
    ensures Get(p, Type) != " Guide" ==> second == first
  {
    var table := new ParamTable(p);
    first := table.RenderIdentifier(defaultRender);
    second := table.RenderIdentifier(defaultRender);
  }
}
