/** `Pubid::Iso::Renderer::Base` (lib/pubid/iso/renderer/base.rb): the
    options `render` passes on, the identifier template, and the per-field
    renderers for type, stage, edition and iteration. */
module BaseRenderer {
  import opened RubyText
  import opened Template
  import F = IdentifierFields
  import IsoIdentifier

  /** A keyword-argument value: `true`/`false`, a Symbol or String (written
      without its colon), or nil. */
  datatype OptValue = Flag(b: bool) | Word(w: string) | Nil

  /** A keyword-argument Hash. */
  type Options = map<string, OptValue>

  /** Ruby truthiness of `opts[key]`: a missing key reads as nil, and only
      nil and false are falsy. */
  predicate Truthy(opts: Options, key: string) {
    key in opts && opts[key] != Nil && opts[key] != Flag(false)
  }

  /** The value a keyword parameter takes: the caller's, or the default. */
  function Keyword(call: Options, key: string, default: OptValue): OptValue {
    if key in call then call[key] else default
  }

  /** The options `render` gives `prerender_params`: `{ with_edition: }`
      merged with the remaining keywords. The keyword parameter has already
      taken "with_edition" out of `args`, so the merge cannot override it. */
  function RenderOptions(call: Options): (opts: Options)
    ensures opts.Keys == call.Keys + {"with_edition"}
    ensures opts["with_edition"] == Keyword(call, "with_edition", Flag(true))
    ensures forall k :: k in call && k != "with_edition" ==> opts[k] == call[k]
  {
    map["with_edition" := Keyword(call, "with_edition", Flag(true))] + (call - {"with_edition"})
  }

  /** Editions are shown unless the caller turns them off. */
  lemma EditionShownByDefault(call: Options)
    ensures Truthy(RenderOptions(call), "with_edition") <==>
      !("with_edition" in call && (call["with_edition"] == Nil || call["with_edition"] == Flag(false)))
  {
  }

  /** `"%{type}%{stage}"`, handed to Core's `render_base`. */
  const TypeAndStage: seq<Piece> := [Ref(Type), Ref(Stage)]

  /** `"%{part}%{iteration}%{year}%{edition}%{amendments}%{corrigendums}%{language}"`. */
  const Tail: seq<Piece> :=
    [Ref(Part), Ref(Iteration), Ref(Year), Ref(Edition), Ref(Amendments), Ref(Corrigendums), Ref(Language)]

  /** `render_identifier`, with Core's `render_base` as a parameter: the
      base text, then part, iteration, year, edition, amendments,
      corrigendums and language, each "" when unset. */
  function RenderIdentifier(p: Params, renderBase: (Params, string) -> string): (r: string)
    ensures r == renderBase(p, Get(p, Type) + Get(p, Stage))
      + Get(p, Part) + Get(p, Iteration) + Get(p, Year) + Get(p, Edition)
      + Get(p, Amendments) + Get(p, Corrigendums) + Get(p, Language)
  {
    TailInOrder(p);
    renderBase(p, Format(TypeAndStage, p)) + Format(Tail, p)
  }

  lemma TailInOrder(p: Params)
    ensures Format(TypeAndStage, p) == Get(p, Type) + Get(p, Stage)
    ensures Format(Tail, p) == Get(p, Part) + Get(p, Iteration) + Get(p, Year) + Get(p, Edition)
      + Get(p, Amendments) + Get(p, Corrigendums) + Get(p, Language)
  {
    var h := TypeAndStage;
    assert Format(h[1..], p) == Get(p, Stage) + Format(h[2..], p);
    assert Format(h, p) == Get(p, Type) + Format(h[1..], p);
    var t := Tail;
    var a, b, c, d, e, g, k :=
      Get(p, Part), Get(p, Iteration), Get(p, Year), Get(p, Edition), Get(p, Amendments), Get(p, Corrigendums), Get(p, Language);
    FormatHead(t[6..], p, "");
    FormatHead(t[5..], p, k);
    FormatHead(t[4..], p, g + k);
    FormatHead(t[3..], p, e + (g + k));
    FormatHead(t[2..], p, d + (e + (g + k)));
    FormatHead(t[1..], p, c + (d + (e + (g + k))));
    FormatHead(t, p, b + (c + (d + (e + (g + k)))));
    assert a + (b + (c + (d + (e + (g + k))))) == a + b + c + d + e + g + k;
  }

  /** `render`: the resolved options go through Core's `prerender_params`,
      and the result through `render_identifier`; a slot with no value
      renders as "". */
  function Render(call: Options, prerender: Options -> Params, renderBase: (Params, string) -> string): string {
    RenderIdentifier(prerender(RenderOptions(call)), renderBase)
  }

  /** Slots `render_identifier` does not name (number, publisher,
      copublisher and the rest) reach the output only through
      `render_base`. */
  lemma OnlyTemplateSlots(p: Params, q: Params, renderBase: (Params, string) -> string)
    requires renderBase(p, Get(p, Type) + Get(p, Stage)) == renderBase(q, Get(q, Type) + Get(q, Stage))
    requires forall s :: s in Refs(Tail) ==> Get(p, s) == Get(q, s)
    ensures RenderIdentifier(p, renderBase) == RenderIdentifier(q, renderBase)
  {
    TailInOrder(p);
    TailInOrder(q);
    FormatReadsOnlyRefs(Tail, p, q);
  }

  /** The separator `render_type` and `render_stage` put in front: " " when
      the identifier has a copublisher, "/" otherwise. */
  function Separator(hasCopublisher: bool): string {
    if hasCopublisher then " " else "/"
  }

  /** `render_type`. */
  function RenderType(docType: string, hasCopublisher: bool): (r: string)
    ensures |r| == |docType| + 1 && r[1..] == docType
    ensures r[0] == ' ' <==> hasCopublisher
    ensures r[0] == '/' <==> !hasCopublisher
  {
    Separator(hasCopublisher) + docType
  }

  /** The parts of a `Pubid::Iso::Stage` a renderer can look at: its
      abbreviation (nil for a stage known only by its code) and its
      harmonized code. */
  datatype StageView = StageView(abbr: Option<string>, harmonizedCode: string)

  /** `render_stage`: the separator and the abbreviation. */
  function RenderStage(stage: StageView, hasCopublisher: bool): (r: string)
    ensures |r| == |stage.abbr.GetOr("")| + 1
    ensures r[..1] == Separator(hasCopublisher) && r[1..] == stage.abbr.GetOr("")
  {
    Separator(hasCopublisher) + stage.abbr.GetOr("")
  }

  /** The stage renders by its abbreviation: the harmonized code never shows. */
  lemma StageByAbbreviation(abbr: Option<string>, c1: string, c2: string, hasCopublisher: bool)
    ensures RenderStage(StageView(abbr, c1), hasCopublisher) == RenderStage(StageView(abbr, c2), hasCopublisher)
  {
  }

  /** `render_edition`: " ED" and the edition, only with `with_edition`. */
  function RenderEdition(edition: string, opts: Options): (r: Option<string>)
    ensures r.Some? <==> Truthy(opts, "with_edition")
    ensures r.Some? ==> |r.value| == |edition| + 3 && r.value[..3] == " ED" && r.value[3..] == edition
  {
    if Truthy(opts, "with_edition") then Some(" ED" + edition) else None
  }

  /** `render_iteration`: "." and the iteration. */
  function RenderIteration(iteration: string): (r: string)
    ensures |r| == |iteration| + 1 && r[0] == '.' && r[1..] == iteration
  {
    "." + iteration
  }

  /** The renderer keeps the older `Identifier#to_s` affixes: the same
      separator rule for type and stage, " ED" for the edition when
      editions are shown, and "." for the iteration. `params[:copublisher]`
      is truthy exactly when the variable is set. */
  lemma AgreesWithIdentifier(f: F.Fields, call: Options)
    requires "with_edition" !in call
    ensures F.Type in f ==> RenderType(F.Text(f, F.Type), F.Copublisher in f) == IsoIdentifier.TypeText(f)
    ensures F.Stage in f ==>
      RenderStage(StageView(Some(F.Text(f, F.Stage)), ""), F.Copublisher in f) == IsoIdentifier.StageText(f)
    ensures F.Edition in f ==>
      RenderEdition(F.Text(f, F.Edition), RenderOptions(call)) == Some(IsoIdentifier.EditionText(f))
    ensures F.Iteration in f ==> RenderIteration(F.Text(f, F.Iteration)) == IsoIdentifier.IterationText(f)
  {
    assert RenderOptions(call)["with_edition"] == Flag(true);
  }
}
