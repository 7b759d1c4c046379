/** `Pubid::Iso::Renderer::Urn` (lib/pubid/iso/renderer/urn.rb): the
    dispatch between supplement and base rendering, the URN identifier
    template, and the per-field renderers for stage, iteration, type and
    year. */
module UrnRenderer {
  import opened RubyText
  import opened Template
  import opened BaseRenderer
  import F = IdentifierFields
  import IsoUrn

  /** The renderer's own `STAGES` table, read as (major, minor) pairs. */
  const RendererStages: seq<(string, IsoUrn.StageCode)> :=
    [("PWI", IsoUrn.StageCode(0, 0)), ("NP", IsoUrn.StageCode(10, 0)), ("AWI", IsoUrn.StageCode(20, 0)),
     ("WD", IsoUrn.StageCode(20, 20)), ("CD", IsoUrn.StageCode(30, 0)), ("DIS", IsoUrn.StageCode(40, 0)),
     ("FDIS", IsoUrn.StageCode(50, 0)), ("PRF", IsoUrn.StageCode(50, 0)), ("IS", IsoUrn.StageCode(60, 0))]

  /** It is the table of the `Urn` class, entry for entry. */
  lemma SameStageTable()
    ensures RendererStages == IsoUrn.Stages
  {
  }

  /** The keywords `render` gives a default to. */
  const Defaulted: set<string> := {"with_edition", "with_date", "with_language_code"}

  /** The options both branches of `render` receive: the remaining keywords
      merged with with_edition (default true), with_date (default true) and
      with_language_code (default :iso). */
  function ResolvedOptions(call: Options): (opts: Options)
    ensures opts.Keys == call.Keys + Defaulted
    ensures opts["with_edition"] == Keyword(call, "with_edition", Flag(true))
    ensures opts["with_date"] == Keyword(call, "with_date", Flag(true))
    ensures opts["with_language_code"] == Keyword(call, "with_language_code", Word("iso"))
    ensures forall k :: k in call && k !in Defaulted ==> opts[k] == call[k]
  {
    (call - Defaulted) + map["with_edition" := Keyword(call, "with_edition", Flag(true)),
                             "with_date" := Keyword(call, "with_date", Flag(true)),
                             "with_language_code" := Keyword(call, "with_language_code", Word("iso"))]
  }

  /** Amendments and corrigendums are rendered as supplements. */
  predicate IsSupplementType(docType: Option<string>) {
    docType == Some("amd") || docType == Some("cor")
  }

  /** `render`, with Core's `render_supplement` and `render_base_identifier`
      as parameters and the prerendered language (nil when unset). */
  function Render(docType: Option<string>, call: Options,
                  renderSupplement: Options -> string, renderBaseIdentifier: Options -> string,
                  language: Option<string>): (r: string)
    ensures IsSupplementType(docType) ==> r == renderSupplement(ResolvedOptions(call))
    ensures !IsSupplementType(docType) ==>
      |r| >= |language.GetOr("")| && r[..|r| - |language.GetOr("")|] == renderBaseIdentifier(ResolvedOptions(call))
    ensures !IsSupplementType(docType) ==> r[|r| - |language.GetOr("")|..] == language.GetOr("")
  {
    if IsSupplementType(docType) then renderSupplement(ResolvedOptions(call))
    else renderBaseIdentifier(ResolvedOptions(call)) + language.GetOr("")
  }

  /** Whichever branch is taken, a caller who passes none of the defaulted
      keywords gets editions, dates and ISO language codes. */
  lemma DefaultsForwarded(call: Options)
    requires forall k :: k in Defaulted ==> k !in call
    ensures Truthy(ResolvedOptions(call), "with_edition") && Truthy(ResolvedOptions(call), "with_date")
    ensures ResolvedOptions(call)["with_language_code"] == Word("iso")
    ensures ResolvedOptions(call) == map["with_edition" := Flag(true), "with_date" := Flag(true),
                                         "with_language_code" := Word("iso")] + call
  {
  }

  /** `"%{stage}%{corrigendum_stage}%{iteration}%{edition}%{amendments}%{corrigendums}"`. */
  const UrnTail: seq<Piece> :=
    [Ref(Stage), Ref(CorrigendumStage), Ref(Iteration), Ref(Edition), Ref(Amendments), Ref(Corrigendums)]

  /** `render_identifier`, with Core's `render_base` as a parameter: the
      base, then stage, corrigendum stage, iteration, edition, amendments
      and corrigendums. */
  function RenderIdentifier(p: Params, renderBase: Params -> string): (r: string)
    ensures r == renderBase(p) + Get(p, Stage) + Get(p, CorrigendumStage) + Get(p, Iteration)
      + Get(p, Edition) + Get(p, Amendments) + Get(p, Corrigendums)
  {
    UrnTailInOrder(p);
    renderBase(p) + Format(UrnTail, p)
  }

  lemma UrnTailInOrder(p: Params)
    ensures Format(UrnTail, p) == Get(p, Stage) + Get(p, CorrigendumStage) + Get(p, Iteration)
      + Get(p, Edition) + Get(p, Amendments) + Get(p, Corrigendums)
  {
    var t := UrnTail;
    assert Format(t[5..], p) == Get(p, Corrigendums) + Format(t[6..], p);
    assert Format(t[4..], p) == Get(p, Amendments) + Format(t[5..], p);
    assert Format(t[3..], p) == Get(p, Edition) + Format(t[4..], p);
    assert Format(t[2..], p) == Get(p, Iteration) + Format(t[3..], p);
    assert Format(t[1..], p) == Get(p, CorrigendumStage) + Format(t[2..], p);
    assert Format(t, p) == Get(p, Stage) + Format(t[1..], p);
  }

  /** The iteration comes after the stage: with no stage, corrigendum stage or
      iteration text, the identifier goes straight from the base to the
      edition. */
  lemma IterationAfterStage(p: Params, renderBase: Params -> string)
    requires Get(p, Stage) == "" && Get(p, CorrigendumStage) == ""
    ensures RenderIdentifier(p, renderBase)
      == renderBase(p) + Get(p, Iteration) + Get(p, Edition) + Get(p, Amendments) + Get(p, Corrigendums)
  {
    assert renderBase(p) + "" + "" == renderBase(p);
  }

  /** `render_stage`: ":stage-" and the harmonized code. */
  function RenderStage(harmonizedCode: string): (r: string)
    ensures |r| == 7 + |harmonizedCode| && r[..7] == ":stage-" && r[7..] == harmonizedCode
  {
    ":stage-" + harmonizedCode
  }

  /** For a stage of the table, the renderer prints the stage segment the
      `Urn` class prints when there is no iteration. */
  lemma RenderStageAsUrnClass(f: F.Fields, i: nat)
    requires i < |IsoUrn.Stages| && F.Iteration !in f
    ensures F.Ok(RenderStage(IsoUrn.CodeText(IsoUrn.Stages[i].1))) == IsoUrn.RenderStage(f, F.Str(IsoUrn.Stages[i].0))
  {
    IsoUrn.StageCodeWithoutIteration(f, i);
  }

  /** The part of a typed stage `render_iteration` looks at: its stage, nil
      when it has none. */
  datatype TypedStageView = TypedStageView(stage: Option<string>)

  /** `render_iteration`: ".v" and the iteration, only when the typed stage
      carries a stage (`params[:typed_stage]&.stage`). */
  function RenderIteration(iteration: string, typedStage: Option<TypedStageView>): (r: Option<string>)
    ensures r.Some? <==> typedStage.Some? && typedStage.value.stage.Some?
    ensures r.Some? ==> |r.value| == |iteration| + 2 && r.value[..2] == ".v" && r.value[2..] == iteration
  {
    if typedStage.Some? && typedStage.value.stage.Some? then Some(".v" + iteration) else None
  }

  /** When it is rendered, the iteration takes the affix of the `Urn` class. */
  lemma IterationAsUrnClass(f: F.Fields, typedStage: TypedStageView)
    requires F.Iteration in f && typedStage.stage.Some?
    ensures RenderIteration(F.Text(f, F.Iteration), Some(typedStage)) == Some(IsoUrn.IterationSegment(f))
  {
  }

  /** `render_type`: ":" and the lower-cased type, nothing for :is. */
  function RenderType(docType: string): (r: Option<string>)
    ensures r.None? <==> docType == "is"
    ensures r.Some? ==> |r.value| == |docType| + 1 && r.value[0] == ':' && r.value[1..] == Downcase(docType)
  {
    if docType == "is" then None else Some(":" + Downcase(docType))
  }

  /** It matches the `Urn` class's type segment, except that the class has
      no exception for "is" and prints ":is". */
  lemma TypeAsUrnClass(f: F.Fields, docType: string)
    ensures docType != "is" ==> RenderType(docType) == Some(IsoUrn.TypeSegment(f[F.Type := F.Str(docType)]).value)
    ensures RenderType("is").None? && IsoUrn.TypeSegment(f[F.Type := F.Str("is")]) == F.Ok(":is")
  {
    var d := Downcase("is");
    assert d[0] == 'i' && d[1] == 's';
    assert d == "is";
    var g := f[F.Type := F.Str("is")];
    assert F.Type in g && g[F.Type] == F.Str("is");
    assert IsoUrn.TypeSegment(g) == F.Ok(":" + d);
    assert ":" + d == ":is";
  }

  /** `render_year`: ":" and the year. */
  function RenderYear(year: string): (r: string)
    ensures |r| == |year| + 1 && r[0] == ':' && r[1..] == year
  {
    ":" + year
  }
}
