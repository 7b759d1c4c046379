/** The URN rendering of `Pubid::Iso::Urn` (lib/pubid/iso/urn.rb): the
    harmonized stage table, the segment renderers, and the class whose
    `originator` rewrites its own copublisher variable. */
module IsoUrn {
  import opened RubyText
  import opened IdentifierFields

  // ---------------------------------------------------------------------
  // STAGES
  // ---------------------------------------------------------------------

  /** A harmonized stage code `major.minor`; `sprintf('%05.2f')` prints the
      Integer or Float the table holds as two digits, ".", two digits. */
  datatype StageCode = StageCode(major: nat, minor: nat)

  /** `STAGES`, in declaration order (WD is the Float 20.20). */
  const Stages: seq<(string, StageCode)> :=
    [("PWI", StageCode(0, 0)), ("NP", StageCode(10, 0)), ("AWI", StageCode(20, 0)),
     ("WD", StageCode(20, 20)), ("CD", StageCode(30, 0)), ("DIS", StageCode(40, 0)),
     ("FDIS", StageCode(50, 0)), ("PRF", StageCode(50, 0)), ("IS", StageCode(60, 0))]

  /** `STAGES[name.to_sym]`: the code, or nil for a name not in the table. */
  function StageLookup(name: string): (r: Option<StageCode>)
    ensures r.Some? <==> exists i :: 0 <= i < |Stages| && Stages[i].0 == name
    ensures r.Some? ==> (name, r.value) in Stages
  {
    Find(Stages, name)
  }

  function Find(t: seq<(string, StageCode)>, name: string): (r: Option<StageCode>)
    ensures r.Some? <==> exists i :: 0 <= i < |t| && t[i].0 == name
    ensures r.Some? ==> (name, r.value) in t
  {
    if t == [] then None
    else if t[0].0 == name then Some(t[0].1)
    else
      assert forall i :: 1 <= i < |t| ==> t[i] == t[1..][i - 1];
      Find(t[1..], name)
  }

  predicate InRange(c: StageCode) {
    c.major < 100 && c.minor < 100
  }

  /** Five characters "DD.DD". */
  predicate IsCodeText(s: string) {
    |s| == 5 && IsDigit(s[0]) && IsDigit(s[1]) && s[2] == '.' && IsDigit(s[3]) && IsDigit(s[4])
  }

  function DigitValue(c: char): int {
    c as int - '0' as int
  }

  /** Reading a code back from its "DD.DD" text. */
  function CodeValue(s: string): StageCode
    requires IsCodeText(s)
  {
    StageCode(DigitValue(s[0]) * 10 + DigitValue(s[1]), DigitValue(s[3]) * 10 + DigitValue(s[4]))
  }

  /** `sprintf('%05.2f', code)`: for a code in range, five characters that
      read back as the same code. */
  function CodeText(c: StageCode): (r: string)
    ensures InRange(c) ==> IsCodeText(r) && CodeValue(r) == c
  {
    Sprintf02d(c.major) + "." + Sprintf02d(c.minor)
  }

  /** Every code in the table is in range, the table runs in the order of
      the harmonized stages, and its names are distinct. */
  lemma StagesWellFormed()
    ensures forall i :: 0 <= i < |Stages| ==> InRange(Stages[i].1)
    ensures forall i, j :: 0 <= i < j < |Stages| ==>
      Stages[i].1.major < Stages[j].1.major ||
      (Stages[i].1.major == Stages[j].1.major && Stages[i].1.minor <= Stages[j].1.minor)
    ensures forall i, j :: 0 <= i < j < |Stages| ==> Stages[i].0 != Stages[j].0
  {
  }

  /** The URN code tells the stages apart, except FDIS and PRF, which both
      print as 50.00. */
  lemma StageCodesDistinct(i: nat, j: nat)
    requires i < |Stages| && j < |Stages| && i != j
    ensures CodeText(Stages[i].1) == CodeText(Stages[j].1) <==>
      {Stages[i].0, Stages[j].0} == {"FDIS", "PRF"}
  {
    StagesWellFormed();
    var a, b := Stages[i].1, Stages[j].1;
    if CodeText(a) == CodeText(b) {
      assert a == CodeValue(CodeText(a)) == CodeValue(CodeText(b)) == b;
    }
  }

  // ---------------------------------------------------------------------
  // The segments of `to_s`
  // ---------------------------------------------------------------------

  /** `originator`: the lower-cased publisher, then "-" and each copublisher
      in sorted order, lower-cased with "/" turned into "-". A missing or
      Array publisher cannot be lower-cased. */
  function OriginatorText(f: Fields): Result<string> {
    if Publisher !in f then Err(NilReceiver("downcase"))
    else if f[Publisher].Arr? then Err(NoSuchMethod("downcase"))
    else if Copublisher in f then
      Ok(Downcase(f[Publisher].s) + Segments(SortedCopublishers(f[Copublisher]), "-", '/', '-', true))
    else Ok(Downcase(f[Publisher].s))
  }

  /** `type`: ":" and the lower-cased type. */
  function TypeSegment(f: Fields): Result<string> {
    if Type !in f then Ok("")
    else if f[Type].Arr? then Err(NoSuchMethod("downcase"))
    else Ok(":" + Downcase(f[Type].s))
  }

  function PartSegment(f: Fields): string {
    if Part in f then ":-" + Text(f, Part) else ""
  }

  function IterationSegment(f: Fields): string {
    if Iteration in f then ".v" + Text(f, Iteration) else ""
  }

  /** `render_stage`: ":stage-", the harmonized code, then the iteration. */
  function RenderStage(f: Fields, stage: Value): Result<string> {
    if stage.Arr? then Err(NoSuchMethod("to_sym"))
    else match StageLookup(stage.s)
      case None => Err(UnknownStage(stage.s))
      case Some(code) => Ok(":stage-" + CodeText(code) + IterationSegment(f))
  }

  /** `stage`: the document's own stage, else the amendment's, else the
      corrigendum's. */
  function StageSegment(f: Fields): Result<string> {
    if Stage in f then RenderStage(f, f[Stage])
    else if AmendmentStage in f then RenderStage(f, f[AmendmentStage])
    else if CorrigendumStage in f then RenderStage(f, f[CorrigendumStage])
    else Ok("")
  }

  function EditionSegment(f: Fields): string {
    if Edition in f then ":ed-" + Text(f, Edition) else ""
  }

  /** `supplement`: the ":amd:" part, then the ":cor:" part. */
  function SupplementSegment(f: Fields): string {
    AmendmentSegment(f) + CorrigendumSegment(f)
  }

  /** ":amd:", the number and ":" when there is one, then "v" and the
      version; "" without an amendment. */
  function AmendmentSegment(f: Fields): (r: string)
    ensures r == "" <==> Amendment !in f
    ensures Amendment in f ==> |r| >= 6 && r[..5] == ":amd:"
    ensures Amendment in f && AmendmentNumber !in f ==> r[5..] == "v" + Text(f, AmendmentVersion)
    ensures Amendment in f && AmendmentNumber in f ==> r[5..] == Text(f, AmendmentNumber) + ":v" + Text(f, AmendmentVersion)
  {
    if Amendment !in f then ""
    else if AmendmentNumber in f then ":amd:" + Text(f, AmendmentNumber) + ":v" + Text(f, AmendmentVersion)
    else ":amd:v" + Text(f, AmendmentVersion)
  }

  /** The same for the corrigendum, with ":cor:". */
  function CorrigendumSegment(f: Fields): (r: string)
    ensures r == "" <==> Corrigendum !in f
    ensures Corrigendum in f ==> |r| >= 6 && r[..5] == ":cor:"
    ensures Corrigendum in f && CorrigendumNumber !in f ==> r[5..] == "v" + Text(f, CorrigendumVersion)
    ensures Corrigendum in f && CorrigendumNumber in f ==> r[5..] == Text(f, CorrigendumNumber) + ":v" + Text(f, CorrigendumVersion)
  {
    if Corrigendum !in f then ""
    else if CorrigendumNumber in f then ":cor:" + Text(f, CorrigendumNumber) + ":v" + Text(f, CorrigendumVersion)
    else ":cor:v" + Text(f, CorrigendumVersion)
  }

  /** A numbered amendment's text after ":amd:" splits at ":" back into the
      number and "v" with the version, when neither holds a ":". */
  lemma AmendmentSegmentReadsBack(f: Fields)
    requires Amendment in f && AmendmentNumber in f
    requires Text(f, AmendmentNumber) != "" && ':' !in Text(f, AmendmentNumber) && ':' !in Text(f, AmendmentVersion)
    ensures Split(AmendmentSegment(f)[5..], ':') == [Text(f, AmendmentNumber), "v" + Text(f, AmendmentVersion)]
  {
    var xs := [Text(f, AmendmentNumber), "v" + Text(f, AmendmentVersion)];
    assert Join(xs, ":") == Text(f, AmendmentNumber) + ":v" + Text(f, AmendmentVersion) by {
      assert xs[1..] == ["v" + Text(f, AmendmentVersion)];
    }
    SplitOfJoin(xs, ':');
  }

  /** The same for a numbered corrigendum after ":cor:". */
  lemma CorrigendumSegmentReadsBack(f: Fields)
    requires Corrigendum in f && CorrigendumNumber in f
    requires Text(f, CorrigendumNumber) != "" && ':' !in Text(f, CorrigendumNumber) && ':' !in Text(f, CorrigendumVersion)
    ensures Split(CorrigendumSegment(f)[5..], ':') == [Text(f, CorrigendumNumber), "v" + Text(f, CorrigendumVersion)]
  {
    var xs := [Text(f, CorrigendumNumber), "v" + Text(f, CorrigendumVersion)];
    assert Join(xs, ":") == Text(f, CorrigendumNumber) + ":v" + Text(f, CorrigendumVersion) by {
      assert xs[1..] == ["v" + Text(f, CorrigendumVersion)];
    }
    SplitOfJoin(xs, ':');
  }

  /** With both supplements the amendment comes first; with neither the
      supplement part is empty. */
  lemma AmendmentBeforeCorrigendum(f: Fields)
    ensures Amendment !in f && Corrigendum !in f ==> SupplementSegment(f) == ""
    ensures Amendment in f ==> SupplementSegment(f)[..5] == ":amd:"
    ensures Amendment in f && Corrigendum in f ==>
      var n := |AmendmentSegment(f)|; |SupplementSegment(f)| >= n + 5 && SupplementSegment(f)[n..n + 5] == ":cor:"
  {
    var a, c := AmendmentSegment(f), CorrigendumSegment(f);
    assert SupplementSegment(f) == a + c;
    if Amendment in f {
      assert (a + c)[..5] == a[..5];
    }
    if Amendment in f && Corrigendum in f {
      assert (a + c)[|a|..|a| + 5] == c[..5];
    }
  }

  function LanguageSegment(f: Fields): string {
    if Language in f then ":" + Text(f, Language) else ""
  }

  /** Everything after the originator: type, then number, part, stage,
      edition, supplement and language; the type and the stage may fail. */
  function Assemble(origin: string, f: Fields): Result<string> {
    match TypeSegment(f)
    case Err(e) => Err(e)
    case Ok(t) =>
      match StageSegment(f)
      case Err(e) => Err(e)
      case Ok(s) =>
        Ok("urn:iso:std:" + origin + t + ":" + Text(f, Number) + PartSegment(f) + s
           + EditionSegment(f) + SupplementSegment(f) + LanguageSegment(f))
  }

  /** `to_s`, on a variable table. It fails exactly when the originator,
      the type or the stage cannot be rendered, and reports the first of
      them, in that order. */
  function UrnText(f: Fields): (r: Result<string>)
    ensures r.Ok? <==> OriginatorText(f).Ok? && TypeSegment(f).Ok? && StageSegment(f).Ok?
    ensures OriginatorText(f).Err? ==> r == Err(OriginatorText(f).failure)
    ensures OriginatorText(f).Ok? && TypeSegment(f).Err? ==> r == Err(TypeSegment(f).failure)
    ensures OriginatorText(f).Ok? && TypeSegment(f).Ok? && StageSegment(f).Err? ==> r == Err(StageSegment(f).failure)
  {
    match OriginatorText(f)
    case Err(e) => Err(e)
    case Ok(o) => Assemble(o, f)
  }

  // ---------------------------------------------------------------------
  // The class
  // ---------------------------------------------------------------------

  class Urn {
    var vars: Fields

    /** `initialize(**opts)`: every option is assigned as given. */
    constructor(opts: Fields)
      ensures vars == opts
    {
      var acc: Fields := map[];
      var todo := opts.Keys;
      while todo != {}
        invariant todo <= opts.Keys
        invariant acc.Keys == opts.Keys - todo
        invariant forall a :: a in acc ==> acc[a] == opts[a]
        decreases todo
      {
        var k :| k in todo;
        acc := acc[k := opts[k]];
        todo := todo - {k};
      }
      assert acc.Keys == opts.Keys;
      vars := acc;
    }

    /** `originator`: wraps a single copublisher into an array, in place,
        then renders. */
    method Originator() returns (r: Result<string>)
      modifies this
      ensures vars == WrapCopublisher(old(vars))
      ensures r == OriginatorText(old(vars)) && r == OriginatorText(vars)
    {
      if Copublisher in vars {
        SortedCopublishersWrap(vars[Copublisher]);
      }
      vars := WrapCopublisher(vars);
      r := OriginatorText(vars);
    }

    /** `to_s`: the URN, which the in-place rewrite does not change. */
    method ToS() returns (r: Result<string>)
      modifies this
      ensures vars == WrapCopublisher(old(vars))
      ensures r == UrnText(old(vars)) && r == UrnText(vars)
    {
      ghost var before := vars;
      var origin := Originator();
      AssembleIgnoresCopublisher(before, vars);
      match origin {
        case Err(e) => r := Err(e);
        case Ok(o) => r := Assemble(o, vars);
      }
    }
  }

  // ---------------------------------------------------------------------
  // What the URN promises
  // ---------------------------------------------------------------------

  /** A rendered URN opens with "urn:iso:std:" and the originator, and then
      runs type, ":" and number, part, stage, edition, supplement and
      language. */
  lemma UrnLayout(f: Fields)
    requires UrnText(f).Ok?
    ensures OriginatorText(f).Ok? && TypeSegment(f).Ok? && StageSegment(f).Ok?
    ensures var o := OriginatorText(f).value;
      var rest := TypeSegment(f).value + ":" + Text(f, Number) + PartSegment(f) + StageSegment(f).value
        + EditionSegment(f) + SupplementSegment(f) + LanguageSegment(f);
      UrnText(f).value == "urn:iso:std:" + o + rest
    ensures |UrnText(f).value| >= 13 && UrnText(f).value[..12] == "urn:iso:std:"
  {
    var o, t, st := OriginatorText(f).value, TypeSegment(f).value, StageSegment(f).value;
    var rest := t + ":" + Text(f, Number) + PartSegment(f) + st + EditionSegment(f) + SupplementSegment(f) + LanguageSegment(f);
    var w := UrnText(f).value;
    assert w == "urn:iso:std:" + o + t + ":" + Text(f, Number) + PartSegment(f)
      + st + EditionSegment(f) + SupplementSegment(f) + LanguageSegment(f);
    Regroup("urn:iso:std:", o, t, ":", Text(f, Number), PartSegment(f), st, EditionSegment(f),
      SupplementSegment(f), LanguageSegment(f));
  }

  /** Regrouping a concatenation after its first two pieces. */
  lemma Regroup(a: string, b: string, c: string, d: string, e: string, g: string, h: string,
                i: string, j: string, k: string)
    ensures a + b + c + d + e + g + h + i + j + k == a + b + (c + d + e + g + h + i + j + k)
    ensures a + b + c + d + e + g + h + i + j + k == a + (b + c + d + e + g + h + i + j + k)
  {
  }

  /** A stage outside the table makes the whole URN fail once the
      originator and the type have rendered. */
  lemma UnknownStageFails(f: Fields, name: string)
    requires Stage in f && f[Stage] == Str(name) && StageLookup(name).None?
    requires OriginatorText(f).Ok? && TypeSegment(f).Ok?
    ensures UrnText(f) == Err(UnknownStage(name))
  {
  }

  /** The attributes `to_s` never reads: the year, the substage and the
      supplements list. */
  predicate Rendered(a: Attr) {
    a != Year && a != Substage && a != Supplements
  }

  predicate AgreeOnRendered(f: Fields, g: Fields) {
    forall a :: Rendered(a) ==> (a in f <==> a in g) && (a in f ==> f[a] == g[a])
  }

  /** The attributes read after the originator. */
  predicate AfterOriginator(a: Attr) {
    Rendered(a) && a != Publisher && a != Copublisher
  }

  predicate AgreeAfterOriginator(f: Fields, g: Fields) {
    forall a :: AfterOriginator(a) ==> (a in f <==> a in g) && (a in f ==> f[a] == g[a])
  }

  /** Two tables that agree on the rendered attributes give the same URN; in
      particular the year never appears in it. */
  lemma UrnReadsOnlyRendered(f: Fields, g: Fields)
    requires AgreeOnRendered(f, g)
    ensures UrnText(f) == UrnText(g)
  {
    assert Rendered(Publisher) && Rendered(Copublisher) && Rendered(Type);
    assert OriginatorText(f) == OriginatorText(g);
    assert AgreeAfterOriginator(f, g);
    SameAfterOriginator(f, g);
  }

  lemma SameAfterOriginator(f: Fields, g: Fields)
    requires AgreeAfterOriginator(f, g)
    ensures forall o :: Assemble(o, f) == Assemble(o, g)
  {
    SameStageSegment(f, g);
    SameSupplementSegment(f, g);
    assert AfterOriginator(Type) && AfterOriginator(Number) && AfterOriginator(Part) && AfterOriginator(Edition) && AfterOriginator(Language);
  }

  lemma SameStageSegment(f: Fields, g: Fields)
    requires AgreeAfterOriginator(f, g)
    ensures StageSegment(f) == StageSegment(g)
  {
    assert AfterOriginator(Stage) && AfterOriginator(AmendmentStage) && AfterOriginator(CorrigendumStage) && AfterOriginator(Iteration);
  }

  lemma SameSupplementSegment(f: Fields, g: Fields)
    requires AgreeAfterOriginator(f, g)
    ensures SupplementSegment(f) == SupplementSegment(g)
  {
    assert AfterOriginator(Amendment) && AfterOriginator(AmendmentNumber) && AfterOriginator(AmendmentVersion);
    assert AfterOriginator(Corrigendum) && AfterOriginator(CorrigendumNumber) && AfterOriginator(CorrigendumVersion);
  }

  lemma UrnOmitsYear(f: Fields, year: Value)
    ensures UrnText(f[Year := year]) == UrnText(f)
  {
    UrnReadsOnlyRendered(f[Year := year], f);
  }

  predicate HasStage(f: Fields) {
    Stage in f || AmendmentStage in f || CorrigendumStage in f
  }

  /** The iteration is printed only after a stage: without one it leaves the
      URN unchanged. */
  lemma IterationNeedsStage(f: Fields, iteration: Value)
    requires !HasStage(f)
    ensures UrnText(f[Iteration := iteration]) == UrnText(f)
  {
    var g := f[Iteration := iteration];
    assert StageSegment(g) == StageSegment(f) == Ok("");
    assert OriginatorText(g) == OriginatorText(f);
    assert Text(g, Number) == Text(f, Number);
    assert Text(g, Language) == Text(f, Language);
  }

  /** With an iteration and a known stage, the stage part is the code
      followed by ".v" and the iteration. */
  lemma IterationFollowsStage(f: Fields, i: nat)
    requires i < |Stages| && Stage in f && f[Stage] == Str(Stages[i].0)
    requires Iteration in f && f[Iteration].Str?
    ensures StageSegment(f) == Ok(":stage-" + CodeText(Stages[i].1) + ".v" + f[Iteration].s)
  {
    assert StageSegment(f) == RenderStage(f, Str(Stages[i].0));
    StageCodeEntry(f, i);
    var code, it := CodeText(Stages[i].1), f[Iteration].s;
    assert IterationSegment(f) == ".v" + it;
    IterationAffix(":stage-" + code, it);
  }

  lemma IterationAffix(head: string, it: string)
    ensures head + (".v" + it) == head + ".v" + it
  {
  }

  lemma StageCodeWithoutIteration(f: Fields, i: nat)
    requires i < |Stages| && Iteration !in f
    ensures RenderStage(f, Str(Stages[i].0)) == Ok(":stage-" + CodeText(Stages[i].1))
  {
    StageCodeEntry(f, i);
    var c := CodeText(Stages[i].1);
    assert ":stage-" + c + "" == ":stage-" + c;
  }

  lemma StageCodeEntry(f: Fields, i: nat)
    requires i < |Stages|
    ensures RenderStage(f, Str(Stages[i].0)) == Ok(":stage-" + CodeText(Stages[i].1) + IterationSegment(f))
  {
    StageLookupEntry(i);
  }

  /** Looking up a table name finds that entry's code. */
  lemma StageLookupEntry(i: nat)
    requires i < |Stages|
    ensures StageLookup(Stages[i].0) == Some(Stages[i].1)
  {
    var name := Stages[i].0;
    var v := StageLookup(name).value;
    var j :| 0 <= j < |Stages| && Stages[j] == (name, v);
    StagesWellFormed();
    assert !(i < j) && !(j < i);
  }

  /** The document's stage wins over the supplements' stages, and the
      amendment's over the corrigendum's. */
  lemma StagePrecedence(f: Fields, amendmentStage: Value, corrigendumStage: Value)
    ensures Stage in f ==>
      StageSegment(f[AmendmentStage := amendmentStage][CorrigendumStage := corrigendumStage]) == StageSegment(f)
    ensures Stage !in f && AmendmentStage in f ==>
      StageSegment(f[CorrigendumStage := corrigendumStage]) == StageSegment(f)
  {
    var g := f[AmendmentStage := amendmentStage][CorrigendumStage := corrigendumStage];
    if Stage in f {
      assert g[Stage] == f[Stage];
      assert IterationSegment(g) == IterationSegment(f);
    }
    var h := f[CorrigendumStage := corrigendumStage];
    assert IterationSegment(h) == IterationSegment(f);
  }

  /** The stage part of a URN carries the harmonized code of the effective
      stage: the five characters after ":stage-" read back as its code. */
  lemma StageSegmentCarriesCode(f: Fields, name: string)
    requires Stage in f && f[Stage] == Str(name)
    requires StageSegment(f).Ok?
    ensures StageLookup(name).Some?
    ensures var s := StageSegment(f).value;
      |s| >= 12 && s[..7] == ":stage-" && IsCodeText(s[7..12]) &&
      CodeValue(s[7..12]) == StageLookup(name).value
  {
    StagesWellFormed();
    var code := StageLookup(name).value;
    var s := StageSegment(f).value;
    assert code in multiset(seq(|Stages|, i requires 0 <= i < |Stages| => Stages[i].1)) by {
      var i :| 0 <= i < |Stages| && Stages[i] == (name, code);
      assert seq(|Stages|, i requires 0 <= i < |Stages| => Stages[i].1)[i] == code;
    }
    assert InRange(code);
    assert s == ":stage-" + CodeText(code) + IterationSegment(f);
    assert s[7..12] == CodeText(code);
  }

  /** Copublisher arrays holding the same names in any order give the same
      URN. */
  lemma CopublisherOrderIndependent(f: Fields, xs: seq<Value>, ys: seq<Value>)
    requires multiset(MapToS(xs)) == multiset(MapToS(ys))
    ensures UrnText(f[Copublisher := Arr(xs)]) == UrnText(f[Copublisher := Arr(ys)])
  {
    SortedCopublishersOrderIndependent(xs, ys);
    var g, h := f[Copublisher := Arr(xs)], f[Copublisher := Arr(ys)];
    assert OriginatorText(g) == OriginatorText(h);
    UrnReadsOnlyRenderedButCopublisher(g, h);
  }

  /** Tables that differ only in the copublisher share every segment after
      the originator. */
  lemma AssembleIgnoresCopublisher(f: Fields, g: Fields)
    requires forall a :: a != Copublisher ==> (a in f <==> a in g) && (a in f ==> f[a] == g[a])
    ensures forall o :: Assemble(o, f) == Assemble(o, g)
  {
    SameAfterOriginator(f, g);
  }

  /** Setting the stage changes no segment but the stage. */
  lemma AssembleIgnoresStage(f: Fields, stage: Value)
    ensures var g := f[Stage := stage];
      OriginatorText(g) == OriginatorText(f) &&
      TypeSegment(g) == TypeSegment(f) && Text(g, Number) == Text(f, Number) &&
      PartSegment(g) == PartSegment(f) && EditionSegment(g) == EditionSegment(f) &&
      SupplementSegment(g) == SupplementSegment(f) && LanguageSegment(g) == LanguageSegment(f)
  {
    var g := f[Stage := stage];
    assert Publisher != Stage && Copublisher != Stage;
    OriginatorIgnoresStage(f, g);
    AssembleIgnoresStageKey(g, f);
  }

  lemma OriginatorIgnoresStage(f: Fields, g: Fields)
    requires forall a :: a != Stage ==> (a in f <==> a in g) && (a in f ==> f[a] == g[a])
    ensures OriginatorText(g) == OriginatorText(f)
  {
    assert Publisher != Stage && Copublisher != Stage;
  }

  lemma AssembleIgnoresStageKey(f: Fields, g: Fields)
    requires forall a :: a != Stage ==> (a in f <==> a in g) && (a in f ==> f[a] == g[a])
    ensures TypeSegment(f) == TypeSegment(g) && Text(f, Number) == Text(g, Number)
    ensures PartSegment(f) == PartSegment(g) && EditionSegment(f) == EditionSegment(g)
    ensures SupplementSegment(f) == SupplementSegment(g) && LanguageSegment(f) == LanguageSegment(g)
  {
    assert Type != Stage && Number != Stage && Part != Stage && Edition != Stage && Language != Stage;
    SameSupplementsBeyondStage(f, g);
  }

  lemma SameSupplementsBeyondStage(f: Fields, g: Fields)
    requires forall a :: a != Stage ==> (a in f <==> a in g) && (a in f ==> f[a] == g[a])
    ensures SupplementSegment(f) == SupplementSegment(g)
  {
    assert Amendment != Stage && AmendmentNumber != Stage && AmendmentVersion != Stage;
    assert AmendmentSegment(f) == AmendmentSegment(g);
    assert Corrigendum != Stage && CorrigendumNumber != Stage && CorrigendumVersion != Stage;
    assert CorrigendumSegment(f) == CorrigendumSegment(g);
  }

  lemma UrnReadsOnlyRenderedButCopublisher(f: Fields, g: Fields)
    requires forall a :: a != Copublisher ==> (a in f <==> a in g) && (a in f ==> f[a] == g[a])
    requires OriginatorText(f) == OriginatorText(g)
    ensures UrnText(f) == UrnText(g)
  {
    AssembleIgnoresCopublisher(f, g);
  }

  /** Rendering the URN after `originator` has rewritten the copublisher, as
      a second `to_s` does, gives the same text. */
  lemma UrnWrapInvariant(f: Fields)
    ensures UrnText(WrapCopublisher(f)) == UrnText(f)
  {
    if Copublisher in f {
      SortedCopublishersWrap(f[Copublisher]);
    }
    AssembleIgnoresCopublisher(WrapCopublisher(f), f);
  }

  /** Each copublisher segment is lower-case. */
  lemma {:induction false} LowerSegments(names: seq<string>)
    ensures forall i :: 0 <= i < |Segments(names, "-", '/', '-', true)| ==>
      !('A' <= Segments(names, "-", '/', '-', true)[i] <= 'Z')
  {
    if names != [] {
      LowerSegments(names[1..]);
      var head := "-" + Gsub(Downcase(names[0]), '/', '-');
      assert forall i :: 0 <= i < |head| ==> !('A' <= head[i] <= 'Z');
      assert Segments(names, "-", '/', '-', true) == head + Segments(names[1..], "-", '/', '-', true);
    }
  }

  /** A URN originator has no upper-case letter and, with copublishers, no
      "/" after the publisher. */
  lemma OriginatorIsLowerCase(f: Fields)
    requires OriginatorText(f).Ok?
    ensures forall i :: 0 <= i < |OriginatorText(f).value| ==> !('A' <= OriginatorText(f).value[i] <= 'Z')
  {
    if Copublisher in f {
      LowerSegments(SortedCopublishers(f[Copublisher]));
    }
  }
}
