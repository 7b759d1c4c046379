/** `Pubid::Iso::Renderer::Supplement` (lib/pubid/iso/renderer/supplement.rb):
    a supplement rendered after its base identifier, its template with the
    class's `TYPE` as type prefix ("SUP" for `Supplement` itself), and the stage,
    publisher and edition overrides. */
module SupplementRenderer {
  import opened RubyText
  import opened Template
  import opened BaseRenderer
  import F = IdentifierFields

  /** `TYPE` of `Supplement` itself. */
  const SupType: string := "SUP"

  /** Which class the renderer is: `Supplement` itself, or a subclass with
      its own `TYPE` constant, which is what `self.class::TYPE` reads. */
  datatype RendererClass = SupplementItself | Subclass(typeConst: string)

  function TypeConst(k: RendererClass): (r: string)
    ensures k.SupplementItself? ==> r == SupType
    ensures k.Subclass? ==> r == k.typeConst
  {
    if k.SupplementItself? then SupType else k.typeConst
  }

  /** What `params[:stage]` holds once prerendered: something that is not a
      `Pubid::Iso::Stage`, or a Stage whose abbreviation is empty or not. */
  datatype StageParam = NotAStage | AStage(emptyAbbr: bool)

  /** The type prefix: the class's `TYPE` only when there is no typed stage
      text, with a space in front when the stage is a Stage with an
      abbreviation. With the "" default, a missing typed stage reads as "". */
  function TypePrefix(p: Params, stage: StageParam, typeConst: string): (r: string)
    ensures var spaced := stage.AStage? && !stage.emptyAbbr;
      Get(p, TypedStage) == "" ==> r == (if spaced then " " + typeConst else typeConst)
    ensures var spaced := stage.AStage? && !stage.emptyAbbr;
      Get(p, TypedStage) != "" ==> r == (if spaced then " " else "")
  {
    var prefix := if Get(p, TypedStage) == "" then typeConst else "";
    if stage.AStage? && !stage.emptyAbbr then " " + prefix else prefix
  }

  /** The separator before the number: "." when `opts[:language]` is
      :french, " " otherwise. */
  function Space(opts: Options): (r: string)
    ensures r == "." <==> "language" in opts && opts["language"] == Word("french")
    ensures r == " " <==> !("language" in opts && opts["language"] == Word("french"))
  {
    if "language" in opts && opts["language"] == Word("french") then "." else " "
  }

  /** `"%{number}%{part}%{iteration}%{year}%{edition}"`, the end both
      templates share. */
  const NumberOnward: seq<Piece> := [Ref(Number), Ref(Part), Ref(Iteration), Ref(Year), Ref(Edition)]

  /** The template of `Supplement` itself: typed stage, stage, publisher, a
      space and the type prefix, then the number onward. */
  function PlainTemplate(prefix: string): seq<Piece> {
    [Ref(TypedStage), Ref(Stage), Ref(Publisher), Lit(" " + prefix)] + NumberOnward
  }

  /** The template of a subclass: "/", typed stage, stage, the type prefix
      and the separator, then the number onward; no publisher. */
  function SubclassTemplate(prefix: string, space: string): seq<Piece> {
    [Lit("/"), Ref(TypedStage), Ref(Stage), Lit(prefix + space)] + NumberOnward
  }

  /** Only subclass templates open with a literal "/"; the plain one opens
      with the typed stage and never refers to a publisher-free layout. */
  lemma TemplateHeads(prefix: string, space: string)
    ensures SubclassTemplate(prefix, space)[0] == Lit("/")
    ensures PlainTemplate(prefix)[0] == Ref(TypedStage)
    ensures Publisher in Refs(PlainTemplate(prefix)) && Publisher !in Refs(SubclassTemplate(prefix, space))
  {
    var t := PlainTemplate(prefix);
    assert Refs(t) == {TypedStage} + Refs(t[1..]);
    assert Refs(t[1..]) == {Stage} + Refs(t[2..]);
    assert Refs(t[2..]) == {Publisher} + Refs(t[3..]);
    var u := SubclassTemplate(prefix, space);
    assert u[4..] == NumberOnward;
    var n := NumberOnward;
    assert Refs(n) == {Number, Part, Iteration, Year, Edition} by {
      assert n[1..][1..][1..][1..][1..] == [];
    }
    assert Refs(u) == {TypedStage, Stage} + Refs(n) by {
      assert Refs(u) == Refs(u[1..]);
      assert Refs(u[1..]) == {TypedStage} + Refs(u[2..]);
      assert Refs(u[2..]) == {Stage} + Refs(u[3..]);
      assert Refs(u[3..]) == Refs(u[4..]);
    }
  }

  /** The number onward: number, part, iteration, year and edition. */
  function Trailer(p: Params): string {
    Get(p, Number) + Get(p, Part) + Get(p, Iteration) + Get(p, Year) + Get(p, Edition)
  }

  lemma NumberOnwardInOrder(p: Params)
    ensures Format(NumberOnward, p) == Trailer(p)
  {
    var t := NumberOnward;
    assert Format(t[4..], p) == Get(p, Edition) + Format(t[5..], p);
    assert Format(t[3..], p) == Get(p, Year) + Format(t[4..], p);
    assert Format(t[2..], p) == Get(p, Iteration) + Format(t[3..], p);
    assert Format(t[1..], p) == Get(p, Part) + Format(t[2..], p);
    assert Format(t, p) == Get(p, Number) + Format(t[1..], p);
  }

  /** What comes before the number in each template. */
  function PlainHead(p: Params, stage: StageParam): string {
    Get(p, TypedStage) + Get(p, Stage) + Get(p, Publisher) + " " + TypePrefix(p, stage, SupType)
  }

  function SubclassHead(p: Params, opts: Options, stage: StageParam, typeConst: string): string {
    "/" + Get(p, TypedStage) + Get(p, Stage) + TypePrefix(p, stage, typeConst) + Space(opts)
  }

  lemma PlainHeadFormat(p: Params, prefix: string)
    ensures Format([Ref(TypedStage), Ref(Stage), Ref(Publisher), Lit(" " + prefix)], p)
      == Get(p, TypedStage) + Get(p, Stage) + Get(p, Publisher) + " " + prefix
  {
    var head := [Ref(TypedStage), Ref(Stage), Ref(Publisher), Lit(" " + prefix)];
    var ts, st, pub := Get(p, TypedStage), Get(p, Stage), Get(p, Publisher);
    FormatHead(head[3..], p, "");
    FormatHead(head[2..], p, " " + prefix);
    FormatHead(head[1..], p, pub + (" " + prefix));
    FormatHead(head, p, st + (pub + (" " + prefix)));
    assert ts + (st + (pub + (" " + prefix))) == ts + st + pub + " " + prefix;
  }

  lemma SubclassHeadFormat(p: Params, tail: string)
    ensures Format([Lit("/"), Ref(TypedStage), Ref(Stage), Lit(tail)], p) == "/" + Get(p, TypedStage) + Get(p, Stage) + tail
  {
    var head := [Lit("/"), Ref(TypedStage), Ref(Stage), Lit(tail)];
    var ts, st := Get(p, TypedStage), Get(p, Stage);
    FormatHead(head[3..], p, "");
    FormatHead(head[2..], p, tail);
    FormatHead(head[1..], p, st + tail);
    FormatHead(head, p, ts + (st + tail));
  }

  /** Each whole template: its head, then the number onward. */
  lemma PlainLayout(p: Params, prefix: string)
    ensures Format(PlainTemplate(prefix), p)
      == Get(p, TypedStage) + Get(p, Stage) + Get(p, Publisher) + " " + prefix + Trailer(p)
  {
    NumberOnwardInOrder(p);
    FormatAppend([Ref(TypedStage), Ref(Stage), Ref(Publisher), Lit(" " + prefix)], NumberOnward, p);
    PlainHeadFormat(p, prefix);
  }

  lemma SubclassLayout(p: Params, prefix: string, space: string)
    ensures Format(SubclassTemplate(prefix, space), p)
      == "/" + Get(p, TypedStage) + Get(p, Stage) + prefix + space + Trailer(p)
  {
    NumberOnwardInOrder(p);
    FormatAppend([Lit("/"), Ref(TypedStage), Ref(Stage), Lit(prefix + space)], NumberOnward, p);
    SubclassHeadFormat(p, prefix + space);
    assert "/" + Get(p, TypedStage) + Get(p, Stage) + (prefix + space) == "/" + Get(p, TypedStage) + Get(p, Stage) + prefix + space;
  }

  /** `render_identifier(params, opts)` on a renderer of class `k`. The
      text of `Supplement` itself is typed stage, stage, publisher, " ",
      type prefix, then the number onward; a subclass's text is "/", typed
      stage, stage, type prefix with the subclass's own `TYPE`, separator,
      then the number onward. */
  function RenderIdentifier(p: Params, opts: Options, stage: StageParam, k: RendererClass): (r: string)
    ensures k.SupplementItself? ==> r == PlainHead(p, stage) + Trailer(p)
    ensures k.Subclass? ==> r == SubclassHead(p, opts, stage, k.typeConst) + Trailer(p)
  {
    var prefix := TypePrefix(p, stage, TypeConst(k));
    if k.SupplementItself? then
      PlainLayout(p, prefix);
      Format(PlainTemplate(prefix), p)
    else
      SubclassLayout(p, prefix, Space(opts));
      Format(SubclassTemplate(prefix, Space(opts)), p)
  }

  /** A subclass's text always opens with "/". */
  lemma SubclassOpensWithSlash(p: Params, opts: Options, stage: StageParam, typeConst: string)
    ensures RenderIdentifier(p, opts, stage, Subclass(typeConst))[0] == '/'
  {
  }

  /** A subclass with `TYPE` "Cor" and a prerendered stage "CD" that has an
      abbreviation, no typed stage, number "1" and year ":2009", renders
      "/CD Cor 1:2009". */
  lemma StagedCorrigendum(p: Params, opts: Options)
    requires p == map[Stage := "CD", Number := "1", Year := ":2009"]
    requires "language" !in opts
    ensures RenderIdentifier(p, opts, AStage(false), Subclass("Cor")) == "/CD Cor 1:2009"
  {
    var r := RenderIdentifier(p, opts, AStage(false), Subclass("Cor"));
    assert TypePrefix(p, AStage(false), "Cor") == " Cor";
    assert Space(opts) == " ";
    assert Trailer(p) == "1" + "" + "" + ":2009" + "";
    assert r == "/" + "" + "CD" + " Cor" + " " + ("1" + "" + "" + ":2009" + "");
  }

  /** The same subclass without a stage renders "/Cor 1:2009". */
  lemma UnstagedCorrigendum(p: Params, opts: Options)
    requires p == map[Number := "1", Year := ":2009"]
    requires "language" !in opts
    ensures RenderIdentifier(p, opts, NotAStage, Subclass("Cor")) == "/Cor 1:2009"
  {
    var r := RenderIdentifier(p, opts, NotAStage, Subclass("Cor"));
    assert TypePrefix(p, NotAStage, "Cor") == "Cor";
    assert Space(opts) == " ";
    assert Trailer(p) == "1" + "" + "" + ":2009" + "";
    assert r == "/" + "" + "" + "Cor" + " " + ("1" + "" + "" + ":2009" + "");
  }

  /** `render_stage`: the stage itself, suppressed (nil) when the
      identifier has a typed stage. */
  function RenderStage(stage: string, hasTypedStage: bool): (r: Option<string>)
    ensures r.None? <==> hasTypedStage
    ensures r.Some? ==> r.value == stage
  {
    if hasTypedStage then None else Some(stage)
  }

  /** `render_publisher`: " " and the publisher, nil for "". */
  function RenderPublisher(publisher: string): (r: Option<string>)
    ensures r.None? <==> publisher == ""
    ensures r.Some? ==> |r.value| == |publisher| + 1 && r.value[0] == ' ' && r.value[1..] == publisher
  {
    if publisher == "" then None else Some(" " + publisher)
  }

  /** `render_edition`: " Edition " and the edition, only with
      `with_edition`. */
  function RenderEdition(edition: string, opts: Options): (r: Option<string>)
    ensures r.Some? <==> Truthy(opts, "with_edition")
    ensures r.Some? ==> |r.value| == |edition| + 9 && r.value[..9] == " Edition " && r.value[9..] == edition
  {
    if Truthy(opts, "with_edition") then Some(" Edition " + edition) else None
  }

  /** The override changes the wording, not the condition: it shows an
      edition exactly when the base renderer's " ED" would. */
  lemma EditionShownAsBase(edition: string, opts: Options)
    ensures RenderEdition(edition, opts).Some? == BaseRenderer.RenderEdition(edition, opts).Some?
    ensures RenderEdition(edition, opts) != BaseRenderer.RenderEdition(edition, opts) || !Truthy(opts, "with_edition")
  {
    if Truthy(opts, "with_edition") {
      assert RenderEdition(edition, opts).value[1] == 'E' && BaseRenderer.RenderEdition(edition, opts).value[1] == 'E';
      assert RenderEdition(edition, opts).value[2] == 'd' && BaseRenderer.RenderEdition(edition, opts).value[2] == 'D';
    }
  }

  // ---------------------------------------------------------------------
  // render: composition with the base identifier
  // ---------------------------------------------------------------------

  /** What `render` works with beyond the options: the base identifier's
      `to_s` and language, Core's `prerender_params` and `render_language`,
      what the prerendered stage is, and the renderer's class. */
  datatype Context = Context(
    baseToS: Options -> string,
    baseLanguage: Option<string>,
    prerender: Options -> Params,
    renderLanguage: (string, Options) -> Option<string>,
    stage: StageParam,
    rendererClass: RendererClass)

  /** The keyword values of `render`: with_edition and with_date default
      to true, with_language_code to :iso; the rest are `args`. */
  function RenderKeywords(call: Options): (o: Options)
    ensures o.Keys == call.Keys + {"with_edition", "with_language_code", "with_date"}
    ensures o["with_edition"] == Keyword(call, "with_edition", Flag(true))
    ensures o["with_language_code"] == Keyword(call, "with_language_code", Word("iso"))
    ensures o["with_date"] == Keyword(call, "with_date", Flag(true))
    ensures forall k :: k in call ==> o[k] == call[k]
  {
    call + map["with_edition" := Keyword(call, "with_edition", Flag(true)),
               "with_language_code" := Keyword(call, "with_language_code", Word("iso")),
               "with_date" := Keyword(call, "with_date", Flag(true))]
  }

  /** The options the base's `to_s` receives: `lang:` from
      `args[:language]`, and `with_edition:`. */
  function BaseOptions(call: Options): Options {
    map["lang" := Keyword(call, "language", Nil), "with_edition" := RenderKeywords(call)["with_edition"]]
  }

  /** The base's language, rendered with the resolved `with_language_code`;
      "" without one (`nil.to_s` is "" too). */
  function LanguageText(call: Options, c: Context): string {
    if c.baseLanguage.Some? then
      c.renderLanguage(c.baseLanguage.value, map["with_language_code" := RenderKeywords(call)["with_language_code"]]).GetOr("")
    else ""
  }

  /** The last step of `Base#render` on a supplement renderer:
      `render_identifier(params)` as written passes one argument
      (`passOpts` false) to a method that takes two, and raises
      ArgumentError; `render_identifier(params, opts)` renders. */
  function CallRenderIdentifier(p: Params, opts: Options, c: Context, passOpts: bool): (r: F.Result<string>)
    ensures !passOpts ==> r == F.Err(F.WrongArity("render_identifier", 1, 2))
    ensures passOpts ==> r == F.Ok(RenderIdentifier(p, opts, c.stage, c.rendererClass))
  {
    if passOpts then F.Ok(RenderIdentifier(p, opts, c.stage, c.rendererClass))
    else F.Err(F.WrongArity("render_identifier", 1, 2))
  }

  /** `super`: `Base#render` with the keyword values passed on. */
  function SuperRender(call: Options, c: Context, passOpts: bool): F.Result<string> {
    var opts := BaseRenderer.RenderOptions(RenderKeywords(call));
    CallRenderIdentifier(c.prerender(opts), opts, c, passOpts)
  }

  /** `render` as the source writes it. */
  function RenderAsWritten(call: Options, c: Context): F.Result<string> {
    match SuperRender(call, c, false)
    case Err(e) => F.Err(e)
    case Ok(own) => F.Ok(c.baseToS(BaseOptions(call)) + own + LanguageText(call, c))
  }

  /** As written, every supplement rendering through `render` fails. */
  lemma AsWrittenRaises(call: Options, c: Context)
    ensures RenderAsWritten(call, c) == F.Err(F.WrongArity("render_identifier", 1, 2))
  {
  }

  /** `render` with the options passed to `render_identifier`: the base's
      text, the supplement's own text, and the base's language last. */
  function Render(call: Options, c: Context): (r: string)
    ensures var own := SuperRender(call, c, true);
      own.Ok? && r == c.baseToS(BaseOptions(call)) + own.value + LanguageText(call, c)
  {
    var own := SuperRender(call, c, true);
    c.baseToS(BaseOptions(call)) + own.value + LanguageText(call, c)
  }

  /** The base identifier's text comes first and its language last. */
  lemma BaseFirstLanguageLast(call: Options, c: Context)
    ensures var r := Render(call, c); var b := c.baseToS(BaseOptions(call)); var l := LanguageText(call, c);
      |r| >= |b| + |l| && r[..|b|] == b && r[|r| - |l|..] == l
  {
  }

  /** Keywords the caller leaves out take their defaults, so the supplement
      shows its edition and the base's edition is asked for. */
  lemma DefaultKeywords(call: Options)
    requires "with_edition" !in call
    ensures BaseOptions(call)["with_edition"] == Flag(true)
    ensures Truthy(BaseRenderer.RenderOptions(RenderKeywords(call)), "with_edition")
  {
  }
}
